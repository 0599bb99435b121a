/** The device control channel: a reader thread that forwards control frames into a bounded
    drop-oldest queue, and the heartbeat loop that waits for sequenced acknowledgements.

    Each queue operation is one step, so the gaps between put, get and put inside
    `_publish` are open to the other thread. */
module DeviceControl {
  import opened Counting
  import opened Wrappers

  const CAPACITY := 8

  /** The forwarded frames, with their reason defaulted and with None for a missing or non-integer number. */
  datatype Event =
    | ErrorFrame(reason: string)
    | HeartbeatAck(number: Option<int>)
    | SessionClosed
    | ReaderFailed(reason: string)

  /** `last` marks the failure report after which the reader returns. */
  datatype Reader =
    | Receiving
    | Putting(event: Event, last: bool)     // before the first put_nowait
    | Evicting(event: Event, last: bool)    // the first put found the queue full
    | PuttingAgain(event: Event, last: bool) // before the second put_nowait
    | Overflowed                            // the second put_nowait raised
    | Returned

  datatype Outcome = Closed | MissLimit | Failed(reason: string)

  datatype Consumer = AtHead | AwaitingAck | AwaitingClose | Ended(outcome: Outcome)

  datatype Fate = Consumed | Dropped

  /** The queue with its past: `published` grows with each put that succeeds, `fates` says what
      became of each event that left, `seen` is what the consumer received. */
  datatype Channel = Channel(queue: seq<Event>, published: seq<Event>, fates: seq<Fate>, seen: seq<Event>)

  /** An acknowledgement that counted: its number and its place among the published events. */
  datatype Ack = Ack(number: int, place: nat)

  datatype Heartbeats = Heartbeats(sequence: int, consecutive: int, timeouts: int, lastAcked: int, acks: seq<Ack>)

  datatype State = State(channel: Channel, reader: Reader, consumer: Consumer, beats: Heartbeats)

  datatype Step =
    | Receive(event: Event) | ReceiveFails(reason: string) | ReaderStops
    | Put | Evict | PutAgain
    | SendHeartbeat | RequestClose | SendFails(reason: string) | Take | TimeOut

  predicate IsAckTimeout(reason: string) { "device_source_event_timeout:heartbeat_ack" <= reason }

  function Start(): State {
    State(Channel([], [], [], []), Receiving, AtHead, Heartbeats(0, 0, 0, 0, []))
  }

  predicate Enabled(s: State, step: Step) {
    match step
    case Receive(event) => s.reader.Receiving? && !event.ReaderFailed?
    case ReceiveFails(_) => s.reader.Receiving?
    case ReaderStops => s.reader.Receiving?
    case Put => s.reader.Putting?
    case Evict => s.reader.Evicting?
    case PutAgain => s.reader.PuttingAgain?
    case SendHeartbeat => s.consumer.AtHead?
    case RequestClose => s.consumer.AtHead?
    case SendFails(_) => s.consumer.AtHead?
    case Take => (s.consumer.AwaitingAck? || s.consumer.AwaitingClose?) && s.channel.queue != []
    case TimeOut => s.consumer.AwaitingAck? || s.consumer.AwaitingClose?
  }

  function Appended(c: Channel, event: Event): Channel {
    c.(queue := c.queue + [event], published := c.published + [event])
  }

  function Removed(c: Channel, fate: Fate): Channel
    requires c.queue != []
  {
    Channel(c.queue[1..], c.published, c.fates + [fate], if fate == Consumed then c.seen + [c.queue[0]] else c.seen)
  }

  /** One step of the reader thread on its program counter and the channel. */
  function Read(r: Reader, c: Channel, step: Step): (Reader, Channel)
    requires match step case Put => r.Putting? case Evict => r.Evicting? case PutAgain => r.PuttingAgain? case _ => true
  {
    match step
    case Receive(event) => (Putting(event, false), c)
    case ReceiveFails(reason) => (Putting(ReaderFailed(reason), true), c)
    case ReaderStops => (Returned, c)
    case Put =>
      if |c.queue| < CAPACITY then (if r.last then Returned else Receiving, Appended(c, r.event))
      else (Evicting(r.event, r.last), c)
    case Evict => (PuttingAgain(r.event, r.last), if c.queue == [] then c else Removed(c, Dropped))
    case PutAgain =>
      if |c.queue| < CAPACITY then (if r.last then Returned else Receiving, Appended(c, r.event)) else (Overflowed, c)
    case _ => (r, c)
  }

  /** A failed wait for an acknowledgement, as the heartbeat loop handles it. */
  function Missed(b: Heartbeats, reason: string, missLimit: int): (Consumer, Heartbeats) {
    var b' := b.(consecutive := b.consecutive + 1, timeouts := b.timeouts + 1);
    if !IsAckTimeout(reason) then (Ended(Failed(reason)), b')
    else if b'.consecutive < Max1(missLimit) then (AtHead, b')
    else (Ended(MissLimit), b')
  }

  function WaitFailed(waiting: Consumer, b: Heartbeats, reason: string, missLimit: int): (Consumer, Heartbeats) {
    if waiting.AwaitingAck? then Missed(b, reason, missLimit) else (Ended(Failed(reason)), b)
  }

  /** How the waiting loop treats the event it got, which stood at `place`. */
  function Handle(waiting: Consumer, b: Heartbeats, event: Event, place: nat, missLimit: int): (Consumer, Heartbeats) {
    match event
    case ErrorFrame(reason) => WaitFailed(waiting, b, reason, missLimit)
    case ReaderFailed(reason) => WaitFailed(waiting, b, reason, missLimit)
    case HeartbeatAck(number) =>
      if waiting.AwaitingAck? && number == Some(b.sequence)
      then (AtHead, b.(consecutive := 0, lastAcked := b.sequence, acks := b.acks + [Ack(b.sequence, place)]))
      else (waiting, b)
    case SessionClosed => if waiting.AwaitingClose? then (Ended(Closed), b) else (waiting, b)
  }

  function Advance(s: State, step: Step, missLimit: int): State
    requires Enabled(s, step)
  {
    match step
    case SendHeartbeat => s.(beats := s.beats.(sequence := s.beats.sequence + 1), consumer := AwaitingAck)
    case RequestClose => s.(consumer := AwaitingClose)
    case SendFails(reason) => s.(consumer := Ended(Failed(reason)))
    case Take =>
      var (consumer, beats) := Handle(s.consumer, s.beats, s.channel.queue[0], |s.channel.fates|, missLimit);
      State(Removed(s.channel, Consumed), s.reader, consumer, beats)
    case TimeOut =>
      var expected := if s.consumer.AwaitingAck? then "heartbeat_ack" else "session_closed";
      var (consumer, beats) := WaitFailed(s.consumer, s.beats, "device_source_event_timeout:" + expected, missLimit);
      s.(consumer := consumer, beats := beats)
    case _ =>
      var (reader, channel) := Read(s.reader, s.channel, step);
      s.(reader := reader, channel := channel)
  }

  /** The state after any interleaved list of steps; a step that is not enabled is skipped. */
  function Run(steps: seq<Step>, missLimit: int): State {
    if steps == [] then Start()
    else
      var before := Run(steps[..|steps| - 1], missLimit);
      var step := steps[|steps| - 1];
      if Enabled(before, step) then Advance(before, step, missLimit) else before
  }

  // ---------- Invariants ----------

  /** The events with a given fate, in order. */
  function WithFate(events: seq<Event>, fates: seq<Fate>, fate: Fate): seq<Event>
    requires |fates| <= |events|
  {
    if fates == [] then []
    else
      var n := |fates| - 1;
      WithFate(events, fates[..n], fate) + if fates[n] == fate then [events[n]] else []
  }

  function Lost(c: Channel): nat
    requires |c.fates| <= |c.published|
  {
    |WithFate(c.published, c.fates, Dropped)|
  }

  ghost predicate ChannelInv(c: Channel) {
    && |c.queue| <= CAPACITY
    && |c.fates| <= |c.published|
    && c.queue == c.published[|c.fates|..]
    && c.seen == WithFate(c.published, c.fates, Consumed)
  }

  /** An eviction needs a full queue before it, so losses stay a queue length behind the publications. */
  ghost predicate ReaderInv(r: Reader, c: Channel) {
    && |c.fates| <= |c.published|
    && match r
       case Overflowed => false
       case Evicting(_, _) => Lost(c) + CAPACITY <= |c.published|
       case PuttingAgain(_, _) => |c.queue| < CAPACITY && Lost(c) + CAPACITY <= |c.published| + 1
       case _ => Lost(c) > 0 ==> Lost(c) + CAPACITY <= |c.published|
  }

  ghost predicate CountInv(consumer: Consumer, b: Heartbeats, missLimit: int) {
    && 0 <= b.consecutive
    && match consumer
       case Ended(Failed(_)) => b.consecutive <= Max1(missLimit)
       case Ended(MissLimit) =>
         b.consecutive == Max1(missLimit) &&
         b.sequence == b.lastAcked + b.consecutive && b.sequence == |b.acks| + b.timeouts
       case AwaitingAck =>
         && b.consecutive < Max1(missLimit)
         && b.sequence == b.lastAcked + b.consecutive + 1 && b.sequence == |b.acks| + b.timeouts + 1
       case _ =>
         && b.consecutive < Max1(missLimit)
         && b.sequence == b.lastAcked + b.consecutive && b.sequence == |b.acks| + b.timeouts
  }

  ghost predicate AckOk(c: Channel, a: Ack) {
    a.place < |c.fates| <= |c.published| && c.fates[a.place] == Consumed &&
    c.published[a.place] == HeartbeatAck(Some(a.number))
  }

  ghost predicate Growing(acks: seq<Ack>) {
    forall k, l :: 0 <= k < l < |acks| ==> acks[k].number < acks[l].number && acks[k].place < acks[l].place
  }

  /** Counted acknowledgements carry strictly growing numbers and come from distinct, consumed frames in order. */
  ghost predicate AckInv(c: Channel, consumer: Consumer, b: Heartbeats) {
    && |c.fates| <= |c.published|
    && (forall k :: 0 <= k < |b.acks| ==> AckOk(c, b.acks[k]) && 0 < b.acks[k].number <= b.lastAcked)
    && Growing(b.acks)
    && 0 <= b.lastAcked <= b.sequence
    && (consumer.AwaitingAck? ==> b.lastAcked < b.sequence)
  }

  lemma {:induction false} WithFateExtends(events: seq<Event>, more: seq<Event>, fates: seq<Fate>, fate: Fate)
    requires |fates| <= |events|
    ensures WithFate(events + more, fates, fate) == WithFate(events, fates, fate)
  {
    if fates == [] {
    } else {
      WithFateExtends(events, more, fates[..|fates| - 1], fate);
    }
  }

  lemma WithFateNext(events: seq<Event>, fates: seq<Fate>, next: Fate, fate: Fate)
    requires |fates| < |events|
    ensures WithFate(events, fates + [next], fate)
         == WithFate(events, fates, fate) + if next == fate then [events[|fates|]] else []
  {
    assert (fates + [next])[..|fates|] == fates;
  }

  lemma {:induction false} FatesAddUp(events: seq<Event>, fates: seq<Fate>)
    requires |fates| <= |events|
    ensures |WithFate(events, fates, Consumed)| + |WithFate(events, fates, Dropped)| == |fates|
  {
    if fates == [] {
    } else {
      FatesAddUp(events, fates[..|fates| - 1]);
    }
  }

  lemma AppendKeeps(c: Channel, event: Event)
    requires ChannelInv(c) && |c.queue| < CAPACITY
    ensures ChannelInv(Appended(c, event)) && Lost(Appended(c, event)) == Lost(c)
  {
    WithFateExtends(c.published, [event], c.fates, Consumed);
    WithFateExtends(c.published, [event], c.fates, Dropped);
  }

  lemma RemoveKeeps(c: Channel, fate: Fate)
    requires ChannelInv(c) && c.queue != []
    ensures ChannelInv(Removed(c, fate)) && Lost(Removed(c, fate)) == Lost(c) + if fate == Dropped then 1 else 0
  {
    WithFateNext(c.published, c.fates, fate, Consumed);
    WithFateNext(c.published, c.fates, fate, Dropped);
    assert c.queue[0] == c.published[|c.fates|];
  }

  lemma ReadKeeps(s: State, step: Step)
    requires ChannelInv(s.channel) && ReaderInv(s.reader, s.channel) && Enabled(s, step)
    ensures var (r, c) := Read(s.reader, s.channel, step); ChannelInv(c) && ReaderInv(r, c)
  {
    FatesAddUp(s.channel.published, s.channel.fates);
    match step
    case Put => if |s.channel.queue| < CAPACITY { AppendKeeps(s.channel, s.reader.event); }
    case PutAgain => AppendKeeps(s.channel, s.reader.event);
    case Evict => if s.channel.queue != [] { RemoveKeeps(s.channel, Dropped); }
    case _ =>
  }

  lemma AcksSurvive(c: Channel, more: seq<Event>, fates: seq<Fate>, consumer: Consumer, b: Heartbeats, c': Channel)
    requires AckInv(c, consumer, b)
    requires c'.published == c.published + more && c'.fates == c.fates + fates && |c'.fates| <= |c'.published|
    ensures AckInv(c', consumer, b)
  {
    forall k | 0 <= k < |b.acks| ensures AckOk(c', b.acks[k]) {
      assert AckOk(c, b.acks[k]);
    }
  }

  lemma HandleKeepsAcks(c: Channel, consumer: Consumer, b: Heartbeats, missLimit: int)
    requires ChannelInv(c) && c.queue != [] && AckInv(c, consumer, b)
    ensures var (consumer', b') := Handle(consumer, b, c.queue[0], |c.fates|, missLimit);
            AckInv(Removed(c, Consumed), consumer', b')
  {
    AcksSurvive(c, [], [Consumed], consumer, b, Removed(c, Consumed));
    var (consumer', b') := Handle(consumer, b, c.queue[0], |c.fates|, missLimit);
    if b'.acks != b.acks {
      assert AckOk(Removed(c, Consumed), Ack(b.sequence, |c.fates|));
      forall k | 0 <= k < |b.acks| ensures b.acks[k].place < |c.fates| { assert AckOk(c, b.acks[k]); }
    }
  }

  ghost predicate Inv(s: State, missLimit: int) {
    && ChannelInv(s.channel)
    && ReaderInv(s.reader, s.channel)
    && CountInv(s.consumer, s.beats, missLimit)
    && AckInv(s.channel, s.consumer, s.beats)
  }

  lemma TakeKeeps(s: State, missLimit: int)
    requires Inv(s, missLimit) && Enabled(s, Take)
    ensures Inv(Advance(s, Take, missLimit), missLimit)
  {
    RemoveKeeps(s.channel, Consumed);
    HandleKeepsAcks(s.channel, s.consumer, s.beats, missLimit);
    FatesAddUp(s.channel.published, s.channel.fates);
  }

  lemma ReaderStepKeeps(s: State, step: Step, missLimit: int)
    requires Inv(s, missLimit) && Enabled(s, step)
    requires step.Receive? || step.ReceiveFails? || step.ReaderStops? || step.Put? || step.Evict? || step.PutAgain?
    ensures Inv(Advance(s, step, missLimit), missLimit)
  {
    ReadKeeps(s, step);
    var (r, c) := Read(s.reader, s.channel, step);
    AcksSurvive(s.channel, c.published[|s.channel.published|..], c.fates[|s.channel.fates|..], s.consumer, s.beats, c);
  }

  lemma WaitStepKeeps(s: State, step: Step, missLimit: int)
    requires CountInv(s.consumer, s.beats, missLimit) && AckInv(s.channel, s.consumer, s.beats) && Enabled(s, step)
    requires step.SendHeartbeat? || step.RequestClose? || step.SendFails? || step.TimeOut?
    ensures var t := Advance(s, step, missLimit);
            CountInv(t.consumer, t.beats, missLimit) && AckInv(t.channel, t.consumer, t.beats)
  {
  }

  lemma AdvanceKeeps(s: State, step: Step, missLimit: int)
    requires Inv(s, missLimit) && Enabled(s, step)
    ensures Inv(Advance(s, step, missLimit), missLimit)
  {
    if step.Take? {
      TakeKeeps(s, missLimit);
    } else if step.SendHeartbeat? || step.RequestClose? || step.SendFails? || step.TimeOut? {
      WaitStepKeeps(s, step, missLimit);
    } else {
      ReaderStepKeeps(s, step, missLimit);
    }
  }

  lemma {:induction false} InvHolds(steps: seq<Step>, missLimit: int)
    ensures Inv(Run(steps, missLimit), missLimit)
  {
    if steps == [] {
    } else {
      InvHolds(steps[..|steps| - 1], missLimit);
      var before, step := Run(steps[..|steps| - 1], missLimit), steps[|steps| - 1];
      if Enabled(before, step) {
        AdvanceKeeps(before, step, missLimit);
      }
    }
  }

  // ---------- What holds under every interleaving ----------

  /** The second put never finds the queue full; the queue is the unsettled suffix of what was
      published; what the consumer saw is what was published and not dropped, in order. */
  lemma QueueNeverOverflows(steps: seq<Step>, missLimit: int)
    ensures var s := Run(steps, missLimit);
            var c := s.channel;
            && s.reader != Overflowed
            && |c.queue| <= 8
            && |c.fates| <= |c.published|
            && c.published == c.published[..|c.fates|] + c.queue
            && c.seen == WithFate(c.published, c.fates, Consumed)
            && |c.published| == |c.seen| + Lost(c) + |c.queue|
  {
    InvHolds(steps, missLimit);
    var c := Run(steps, missLimit).channel;
    FatesAddUp(c.published, c.fates);
  }

  /** Nothing is lost before a full queue's worth has been published: between publications the
      losses trail the publications by at least the capacity. */
  lemma LossesTrailPublications(steps: seq<Step>, missLimit: int)
    ensures var s := Run(steps, missLimit);
            && |s.channel.fates| <= |s.channel.published|
            && (s.reader.Receiving? && Lost(s.channel) > 0 ==> Lost(s.channel) + 8 <= |s.channel.published|)
  {
    InvHolds(steps, missLimit);
  }

  /** At every loop head each heartbeat sent so far was acknowledged or missed, the misses since
      the last acknowledgement are the consecutive ones, and they are below the limit. */
  lemma HeartbeatsAreAccountedFor(steps: seq<Step>, missLimit: int)
    ensures var s := Run(steps, missLimit);
            s.consumer.AtHead? ==>
              && s.beats.sequence == s.beats.lastAcked + s.beats.consecutive
              && s.beats.sequence == |s.beats.acks| + s.beats.timeouts
              && 0 <= s.beats.consecutive < Max1(missLimit)
  {
    InvHolds(steps, missLimit);
  }

  /** Every counted acknowledgement was published with that very number and consumed, and counted once. */
  lemma AcksAreGenuine(steps: seq<Step>, missLimit: int)
    ensures var s := Run(steps, missLimit);
            && (forall k :: 0 <= k < |s.beats.acks| ==>
                  AckOk(s.channel, s.beats.acks[k]) && 0 < s.beats.acks[k].number <= s.beats.sequence)
            && Growing(s.beats.acks)
  {
    InvHolds(steps, missLimit);
  }

  /** In any waiting state, a frame counts if and only if it acknowledges the heartbeat awaited. */
  lemma OnlyAwaitedAckCounts(s: State, missLimit: int)
    requires s.consumer.AwaitingAck? && s.channel.queue != []
    ensures var acks := Advance(s, Take, missLimit).beats.acks;
            if s.channel.queue[0] == HeartbeatAck(Some(s.beats.sequence))
            then acks == s.beats.acks + [Ack(s.beats.sequence, |s.channel.fates|)]
            else acks == s.beats.acks
  {
  }

  /** Heartbeat n is over: acknowledged, missed, or never going to be awaited again. */
  predicate IsOver(s: State, n: int) {
    s.beats.sequence > n || (s.beats.sequence == n && !s.consumer.AwaitingAck?)
  }

  ghost predicate OnlyLaterAdded(before: seq<Ack>, after: seq<Ack>, n: int) {
    before <= after && forall k :: |before| <= k < |after| ==> after[k].number > n
  }

  lemma OverStaysOver(s: State, step: Step, missLimit: int, n: int)
    requires Enabled(s, step) && IsOver(s, n)
    ensures IsOver(Advance(s, step, missLimit), n)
    ensures OnlyLaterAdded(s.beats.acks, Advance(s, step, missLimit).beats.acks, n)
  {
    if step.Take? && s.consumer.AwaitingAck? { OnlyAwaitedAckCounts(s, missLimit); }
  }

  lemma OneMoreStep(all: seq<Step>, missLimit: int, n: int)
    requires all != [] && IsOver(Run(all[..|all| - 1], missLimit), n)
    ensures IsOver(Run(all, missLimit), n)
    ensures OnlyLaterAdded(Run(all[..|all| - 1], missLimit).beats.acks, Run(all, missLimit).beats.acks, n)
  {
    var before, step := Run(all[..|all| - 1], missLimit), all[|all| - 1];
    if Enabled(before, step) { OverStaysOver(before, step, missLimit, n); }
  }

  lemma AddedInTwo(a: seq<Ack>, b: seq<Ack>, c: seq<Ack>, n: int)
    requires OnlyLaterAdded(a, b, n) && OnlyLaterAdded(b, c, n)
    ensures OnlyLaterAdded(a, c, n)
  {
    forall k | |a| <= k < |c| ensures c[k].number > n {
      if k < |b| { assert c[k] == b[k]; }
    }
  }

  /** Once heartbeat n is over, whether it was acknowledged or timed out, no acknowledgement for it or for an
      earlier one ever counts, however the run goes on and whenever such a frame arrives. */
  lemma {:induction false} LateAcksNeverCount(steps: seq<Step>, more: seq<Step>, missLimit: int, n: int)
    requires IsOver(Run(steps, missLimit), n)
    ensures IsOver(Run(steps + more, missLimit), n)
    ensures OnlyLaterAdded(Run(steps, missLimit).beats.acks, Run(steps + more, missLimit).beats.acks, n)
  {
    if more == [] {
      assert steps + more == steps;
    } else {
      var all, front := steps + more, more[..|more| - 1];
      assert all[..|all| - 1] == steps + front;
      LateAcksNeverCount(steps, front, missLimit, n);
      OneMoreStep(all, missLimit, n);
      AddedInTwo(Run(steps, missLimit).beats.acks, Run(steps + front, missLimit).beats.acks,
                 Run(all, missLimit).beats.acks, n);
    }
  }

  /** The run fails on misses at exactly the max(1, limit)-th consecutive one: a time-out ends it then and only
      then, and once it has ended so, precisely that many heartbeats follow the last acknowledged one. */
  lemma MissLimitIsExact(steps: seq<Step>, missLimit: int)
    ensures var s := Run(steps, missLimit);
            && (s.consumer.AwaitingAck? ==>
                  var after := Advance(s, TimeOut, missLimit).consumer;
                  && (after == Ended(MissLimit) <==> s.beats.consecutive + 1 == Max1(missLimit))
                  && (after == AtHead <==> s.beats.consecutive + 1 < Max1(missLimit)))
            && (s.consumer == Ended(MissLimit) ==>
                  s.beats.sequence - s.beats.lastAcked == s.beats.consecutive == Max1(missLimit))
  {
    InvHolds(steps, missLimit);
  }

  predicate Publishes(s: State, t: State, event: Event, last: bool) {
    && t.channel.queue == s.channel.queue + [event] && t.channel.published == s.channel.published + [event]
    && t.channel.seen == s.channel.seen
    && t.reader == if last then Returned else Receiving
  }

  /** What the reader does with a frame, over every interleaving: it publishes the frame at once if there is room, or
      else drops the oldest event and then publishes it; and it returns after its failure report only. */
  lemma ReaderPublishes(steps: seq<Step>, missLimit: int, step: Step)
    requires Enabled(Run(steps, missLimit), step)
    ensures var s := Run(steps, missLimit);
            var t := Advance(s, step, missLimit);
            match step
            case Receive(event) => t == s.(reader := Putting(event, false))
            case ReceiveFails(reason) => t == s.(reader := Putting(ReaderFailed(reason), true))
            case ReaderStops => t == s.(reader := Returned)
            case Put =>
              if |s.channel.queue| < 8 then Publishes(s, t, s.reader.event, s.reader.last)
              else t == s.(reader := Evicting(s.reader.event, s.reader.last))
            case Evict =>
              && t.reader == PuttingAgain(s.reader.event, s.reader.last) && t.channel.published == s.channel.published
              && t.channel.queue == if s.channel.queue == [] then [] else s.channel.queue[1..]
            case PutAgain => Publishes(s, t, s.reader.event, s.reader.last)
            case _ => t.reader == s.reader && t.channel.published == s.channel.published
  {
    InvHolds(steps, missLimit);
  }

  // ---------- What ends a run ----------

  /** The waiting loop is about to raise this reason: a failure frame is next in the queue, or time ran out. */
  predicate Raises(s: State, step: Step, reason: string) {
    || (step == Take && s.channel.queue != []
        && (s.channel.queue[0] == ErrorFrame(reason) || s.channel.queue[0] == ReaderFailed(reason)))
    || (step == TimeOut && s.consumer.AwaitingAck? && reason == "device_source_event_timeout:heartbeat_ack")
    || (step == TimeOut && s.consumer.AwaitingClose? && reason == "device_source_event_timeout:session_closed")
  }

  /** The misses that do not end the run by themselves. */
  ghost predicate IsMiss(s: State, step: Step) {
    s.consumer.AwaitingAck?
    && exists reason :: Raises(s, step, reason) && "device_source_event_timeout:heartbeat_ack" <= reason
  }

  /** What a step must be to end the run with an outcome. */
  ghost predicate EndsBy(s: State, step: Step, outcome: Outcome, missLimit: int) {
    match outcome
    case Closed =>
      s.consumer.AwaitingClose? && step == Take && s.channel.queue != [] && s.channel.queue[0] == SessionClosed
    case MissLimit => IsMiss(s, step) && s.beats.consecutive + 1 >= 1 && s.beats.consecutive + 1 >= missLimit
    case Failed(reason) =>
      || (s.consumer.AtHead? && step == SendFails(reason))
      || (s.consumer.AwaitingClose? && Raises(s, step, reason))
      || (s.consumer.AwaitingAck? && Raises(s, step, reason)
          && !("device_source_event_timeout:heartbeat_ack" <= reason))
  }

  lemma TimeOutTexts()
    ensures "device_source_event_timeout:" + "heartbeat_ack" == "device_source_event_timeout:heartbeat_ack"
    ensures "device_source_event_timeout:" + "session_closed" == "device_source_event_timeout:session_closed"
  {
  }

  lemma OneReason(s: State, step: Step, a: string, b: string)
    requires Raises(s, step, a) && Raises(s, step, b)
    ensures a == b
  {
  }

  /** What becomes of a raised reason. */
  lemma RaisedReason(s: State, step: Step, reason: string, missLimit: int)
    requires Enabled(s, step) && Raises(s, step, reason)
    ensures Advance(s, step, missLimit).consumer
         == if s.consumer.AwaitingClose? || !("device_source_event_timeout:heartbeat_ack" <= reason)
            then Ended(Failed(reason))
            else if s.beats.consecutive + 1 < 1 || s.beats.consecutive + 1 < missLimit then AtHead
            else Ended(MissLimit)
  {
    TimeOutTexts();
  }

  lemma FailureRaises(s: State, step: Step) returns (reason: string)
    requires Enabled(s, step)
    requires step.TimeOut? || (step.Take? && (s.channel.queue[0].ErrorFrame? || s.channel.queue[0].ReaderFailed?))
    ensures Raises(s, step, reason)
  {
    reason := if step.Take? then s.channel.queue[0].reason
              else if s.consumer.AwaitingAck? then "device_source_event_timeout:heartbeat_ack"
              else "device_source_event_timeout:session_closed";
  }

  lemma NothingRaised(s: State, step: Step, missLimit: int)
    requires Enabled(s, step) && forall reason :: !Raises(s, step, reason)
    ensures var after := Advance(s, step, missLimit).consumer;
            var next := if s.channel.queue == [] then None else Some(s.channel.queue[0]);
            if step == Take && s.consumer.AwaitingClose? && next == Some(SessionClosed) then after == Ended(Closed)
            else if step == Take && s.consumer.AwaitingAck? && next == Some(HeartbeatAck(Some(s.beats.sequence)))
            then after == AtHead
            else
              match step
              case SendFails(reason) => after == Ended(Failed(reason))
              case SendHeartbeat => after == AwaitingAck
              case RequestClose => after == AwaitingClose
              case _ => after == s.consumer
  {
    if step.TimeOut? {
      var _ := FailureRaises(s, step);
    } else if step.Take? && (s.channel.queue[0].ErrorFrame? || s.channel.queue[0].ReaderFailed?) {
      var _ := FailureRaises(s, step);
    }
  }

  /** From any state in which the run goes on, a step ends it with an outcome if and only if it is a cause of just
      that outcome: a failure frame or a time-out raises its own reason, except that reasons which start like an
      acknowledgement time-out are misses while an acknowledgement is awaited; and a session close counts
      exactly when it was asked for. */
  lemma StepEndsExactlyWhen(s: State, step: Step, outcome: Outcome, missLimit: int)
    requires Enabled(s, step) && !s.consumer.Ended? && 0 <= s.beats.consecutive
    ensures Advance(s, step, missLimit).consumer == Ended(outcome) <==> EndsBy(s, step, outcome, missLimit)
  {
    if raised :| Raises(s, step, raised) {
      RaisedReason(s, step, raised, missLimit);
      forall reason | Raises(s, step, reason) ensures reason == raised { OneReason(s, step, reason, raised); }
    } else {
      NothingRaised(s, step, missLimit);
    }
  }

  /** The loop goes back to its head only by the awaited acknowledgement or by a miss below the limit. */
  lemma StepReturnsToHeadExactlyWhen(s: State, step: Step, missLimit: int)
    requires Enabled(s, step) && s.consumer.AwaitingAck? && 0 <= s.beats.consecutive
    ensures Advance(s, step, missLimit).consumer == AtHead
       <==> || (step == Take && s.channel.queue[0] == HeartbeatAck(Some(s.beats.sequence)))
            || (IsMiss(s, step) && (s.beats.consecutive + 1 < 1 || s.beats.consecutive + 1 < missLimit))
  {
    if raised :| Raises(s, step, raised) {
      RaisedReason(s, step, raised, missLimit);
      forall reason | Raises(s, step, reason) ensures reason == raised { OneReason(s, step, reason, raised); }
    } else {
      NothingRaised(s, step, missLimit);
    }
  }

  /** Over every interleaving, a run that has ended was ended by a step that causes just its outcome. */
  lemma {:induction false} EveryEndHasItsCause(steps: seq<Step>, missLimit: int) returns (j: nat)
    requires Run(steps, missLimit).consumer.Ended?
    ensures j < |steps| && Enabled(Run(steps[..j], missLimit), steps[j])
    ensures !Run(steps[..j], missLimit).consumer.Ended?
    ensures EndsBy(Run(steps[..j], missLimit), steps[j], Run(steps, missLimit).consumer.outcome, missLimit)
  {
    var n := |steps| - 1;
    var before := Run(steps[..n], missLimit);
    if before.consumer.Ended? {
      j := EveryEndHasItsCause(steps[..n], missLimit);
      assert steps[..n][..j] == steps[..j];
    } else {
      j := n;
      InvHolds(steps[..n], missLimit);
      StepEndsExactlyWhen(before, steps[n], Run(steps, missLimit).consumer.outcome, missLimit);
    }
  }

  lemma {:induction false} CloseWasRequested(steps: seq<Step>, missLimit: int) returns (i: nat)
    requires Run(steps, missLimit).consumer.AwaitingClose?
    ensures i < |steps| && steps[i] == RequestClose && Run(steps[..i], missLimit).consumer.AtHead?
  {
    var n := |steps| - 1;
    if Run(steps[..n], missLimit).consumer.AwaitingClose? {
      i := CloseWasRequested(steps[..n], missLimit);
      assert steps[..n][..i] == steps[..i];
    } else {
      i := n;
    }
  }

  /** A run that ended closed asked for the close and only then received it. */
  lemma ClosedMeansRequested(steps: seq<Step>, missLimit: int) returns (i: nat, j: nat)
    requires Run(steps, missLimit).consumer == Ended(Closed)
    ensures i < j < |steps| && steps[i] == RequestClose && steps[j] == Take
    ensures Run(steps[..j], missLimit).channel.queue != []
    ensures Run(steps[..j], missLimit).channel.queue[0] == SessionClosed
  {
    j := EveryEndHasItsCause(steps, missLimit);
    i := CloseWasRequested(steps[..j], missLimit);
  }
}
