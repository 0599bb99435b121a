/** The account-home audit: collect the pool's account homes, keep one per quota scope, probe each once.
    Texts are taken as already trimmed; whether a row is an enabled account home of the pool is given. */
module AccountHomes {
  import opened Counting

  datatype RuntimeRow = RuntimeRow(
    id: string, accountHome: bool, poolMember: bool, email: string, accountKey: string, storedScope: string,
    authTime: nat)

  datatype Bundle = Bundle(runtimeId: string, email: string, scope: string, authTime: nat)

  function ScopeKey(row: RuntimeRow): string {
    if row.accountKey != "" then "account:" + row.accountKey
    else if row.storedScope != "" then row.storedScope
    else "runtime:" + row.id
  }

  predicate Selected(row: RuntimeRow, requiredEmail: string) {
    row.accountHome && row.poolMember && (requiredEmail != "" ==> row.email == requiredEmail)
  }

  function Collected(rows: seq<RuntimeRow>, requiredEmail: string): seq<Bundle> {
    if rows == [] then []
    else
      var row := rows[|rows| - 1];
      Collected(rows[..|rows| - 1], requiredEmail)
      + if Selected(row, requiredEmail) then [Bundle(row.id, row.email, ScopeKey(row), row.authTime)] else []
  }

  /** The bundles are those of the account homes of the pool, with the required email if there is one; the scope is
      the account, else the stored scope, else the runtime itself. */
  lemma {:induction false} CollectedAre(rows: seq<RuntimeRow>, requiredEmail: string, b: Bundle)
    ensures b in Collected(rows, requiredEmail)
       <==> exists row :: row in rows && row.accountHome && row.poolMember
                          && (requiredEmail == "" || row.email == requiredEmail) && IsBundleOf(b, row)
  {
    if rows == [] {
    } else {
      var front, last := rows[..|rows| - 1], rows[|rows| - 1];
      CollectedAre(front, requiredEmail, b);
      assert rows == front + [last];
      assert IsBundleOf(b, last) <==> b == Bundle(last.id, last.email, ScopeKey(last), last.authTime);
    }
  }

  ghost predicate IsBundleOf(b: Bundle, row: RuntimeRow) {
    && b.runtimeId == row.id && b.email == row.email && b.authTime == row.authTime
    && (row.accountKey != "" ==> b.scope == "account:" + row.accountKey)
    && (row.accountKey == "" && row.storedScope != "" ==> b.scope == row.storedScope)
    && (row.accountKey == "" && row.storedScope == "" ==> b.scope == "runtime:" + row.id)
  }

  // ---------- The order ----------

  /** Lexicographic order of texts. */
  predicate TextLess(a: string, b: string) {
    b != [] && (a == [] || a[0] < b[0] || (a[0] == b[0] && TextLess(a[1..], b[1..])))
  }

  /** The texts agree up to position k, where the first one ends or has the smaller character. */
  ghost predicate DiffersAt(a: string, b: string, k: nat) {
    && k <= |a| && k < |b| && (forall i :: 0 <= i < k ==> a[i] == b[i])
    && (k == |a| || a[k] < b[k])
  }

  ghost predicate ComesFirst(a: string, b: string) { exists k: nat :: DiffersAt(a, b, k) }

  lemma {:induction false} TextLessIs(a: string, b: string)
    ensures TextLess(a, b) <==> ComesFirst(a, b)
  {
    if a == [] || b == [] || a[0] != b[0] {
      if TextLess(a, b) { assert DiffersAt(a, b, 0); }
    } else {
      TextLessIs(a[1..], b[1..]);
      if k: nat :| DiffersAt(a[1..], b[1..], k) { assert DiffersAt(a, b, k + 1); }
      if k: nat :| DiffersAt(a, b, k) { assert DiffersAt(a[1..], b[1..], k - 1); }
    }
  }

  /** By email, then newest authentication first, then runtime id. */
  predicate Less(a: Bundle, b: Bundle) {
    TextLess(a.email, b.email)
    || (a.email == b.email &&
        (a.authTime > b.authTime || (a.authTime == b.authTime && TextLess(a.runtimeId, b.runtimeId))))
  }

  predicate NotAfter(a: Bundle, b: Bundle) { !Less(b, a) }

  lemma {:induction false} TextLessTotal(a: string, b: string)
    ensures TextLess(a, b) || a == b || TextLess(b, a)
    ensures !(TextLess(a, b) && TextLess(b, a))
    ensures TextLess(a, b) ==> a != b
  {
    if a != [] && b != [] && a[0] == b[0] {
      TextLessTotal(a[1..], b[1..]);
      assert a == [a[0]] + a[1..] && b == [b[0]] + b[1..];
    }
  }

  lemma {:induction false} TextLessTransitive(a: string, b: string, c: string)
    requires TextLess(a, b) && TextLess(b, c)
    ensures TextLess(a, c)
  {
    if a != [] && a[0] == b[0] == c[0] { TextLessTransitive(a[1..], b[1..], c[1..]); }
  }

  lemma NotAfterTransitive(a: Bundle, b: Bundle, c: Bundle)
    requires NotAfter(a, b) && NotAfter(b, c)
    ensures NotAfter(a, c)
  {
    TextLessTotal(a.email, b.email);
    TextLessTotal(b.email, c.email);
    TextLessTotal(a.email, c.email);
    TextLessTotal(a.runtimeId, b.runtimeId);
    TextLessTotal(b.runtimeId, c.runtimeId);
    TextLessTotal(a.runtimeId, c.runtimeId);
    if TextLess(a.email, b.email) && TextLess(b.email, c.email) { TextLessTransitive(a.email, b.email, c.email); }
    if TextLess(a.runtimeId, b.runtimeId) && TextLess(b.runtimeId, c.runtimeId) {
      TextLessTransitive(a.runtimeId, b.runtimeId, c.runtimeId);
    }
  }

  lemma NotAfterTotal(a: Bundle, b: Bundle)
    ensures NotAfter(a, b) || NotAfter(b, a)
    ensures NotAfter(a, b) && NotAfter(b, a) ==>
              a.email == b.email && a.authTime == b.authTime && a.runtimeId == b.runtimeId
  {
    TextLessTotal(a.email, b.email);
    TextLessTotal(a.runtimeId, b.runtimeId);
  }

  ghost predicate Sorted(s: seq<Bundle>) {
    forall i, j :: 0 <= i < j < |s| ==> NotAfter(s[i], s[j])
  }

  /** `sorted` is stable: a new last element goes after its equals. */
  function Insert(s: seq<Bundle>, x: Bundle): seq<Bundle> {
    if s == [] || NotAfter(s[|s| - 1], x) then s + [x] else Insert(s[..|s| - 1], x) + [s[|s| - 1]]
  }

  function Sort(s: seq<Bundle>): seq<Bundle> {
    if s == [] then [] else Insert(Sort(s[..|s| - 1]), s[|s| - 1])
  }

  lemma {:induction false} InsertAdds(s: seq<Bundle>, x: Bundle)
    ensures multiset(Insert(s, x)) == multiset(s) + multiset{x}
  {
    if s != [] && !NotAfter(s[|s| - 1], x) {
      assert s == s[..|s| - 1] + [s[|s| - 1]];
      InsertAdds(s[..|s| - 1], x);
    }
  }

  lemma MembersOfInsert(s: seq<Bundle>, x: Bundle, y: Bundle)
    ensures y in Insert(s, x) <==> y in s || y == x
  {
    InsertAdds(s, x);
    assert y in Insert(s, x) <==> y in multiset(Insert(s, x));
    assert y in s <==> y in multiset(s);
  }

  lemma SortedAppend(s: seq<Bundle>, last: Bundle)
    requires Sorted(s) && forall y :: y in s ==> NotAfter(y, last)
    ensures Sorted(s + [last])
  {
    forall i | 0 <= i < |s| ensures NotAfter(s[i], last) { assert s[i] in s; }
  }

  lemma SortedFront(front: seq<Bundle>, last: Bundle)
    requires Sorted(front + [last])
    ensures Sorted(front) && forall b :: b in front ==> NotAfter(b, last)
  {
    var s := front + [last];
    assert forall i :: 0 <= i < |front| ==> s[i] == front[i];
    forall b | b in front ensures NotAfter(b, last) {
      var i :| 0 <= i < |front| && front[i] == b;
      assert NotAfter(s[i], s[|front|]);
    }
  }

  lemma {:induction false} InsertKeeps(s: seq<Bundle>, x: Bundle)
    requires Sorted(s)
    ensures Sorted(Insert(s, x))
  {
    if s == [] {
    } else {
      var front, last := s[..|s| - 1], s[|s| - 1];
      assert s == front + [last];
      SortedFront(front, last);
      NotAfterTotal(x, last);
      if NotAfter(last, x) {
        forall y | y in s ensures NotAfter(y, x) {
          if y != last { NotAfterTransitive(y, last, x); }
        }
        SortedAppend(s, x);
      } else {
        InsertKeeps(front, x);
        forall y | y in Insert(front, x) ensures NotAfter(y, last) { MembersOfInsert(front, x, y); }
        SortedAppend(Insert(front, x), last);
      }
    }
  }

  lemma {:induction false} SortSorts(s: seq<Bundle>)
    ensures Sorted(Sort(s)) && multiset(Sort(s)) == multiset(s)
  {
    if s == [] {
    } else {
      assert s == s[..|s| - 1] + [s[|s| - 1]];
      SortSorts(s[..|s| - 1]);
      InsertKeeps(Sort(s[..|s| - 1]), s[|s| - 1]);
      InsertAdds(Sort(s[..|s| - 1]), s[|s| - 1]);
    }
  }

  lemma SortHasSameMembers(s: seq<Bundle>)
    ensures forall y :: y in Sort(s) <==> y in s
  {
    SortSorts(s);
    forall y ensures y in Sort(s) <==> y in s {
      assert y in Sort(s) <==> y in multiset(Sort(s));
      assert y in s <==> y in multiset(s);
    }
  }

  // ---------- First wins ----------

  function Scopes(s: seq<Bundle>): set<string> { set b | b in s :: b.scope }

  function FirstOfEach(s: seq<Bundle>): seq<Bundle> {
    if s == [] then []
    else
      var kept, last := FirstOfEach(s[..|s| - 1]), s[|s| - 1];
      if last.scope in Scopes(kept) then kept else kept + [last]
  }

  ghost predicate DistinctScopes(s: seq<Bundle>) {
    forall i, j :: 0 <= i < j < |s| ==> s[i].scope != s[j].scope
  }

  /** The bundle is in the list and no bundle of its scope comes before it in the order. */
  ghost predicate IsLeast(s: seq<Bundle>, b: Bundle) {
    b in s && forall c :: c in s && c.scope == b.scope ==> NotAfter(b, c)
  }

  lemma LeastExtends(front: seq<Bundle>, last: Bundle, b: Bundle)
    requires IsLeast(front, b) && NotAfter(b, last)
    ensures IsLeast(front + [last], b)
  {
  }

  lemma NewScopeIsLeast(front: seq<Bundle>, last: Bundle)
    requires last.scope !in Scopes(front)
    ensures IsLeast(front + [last], last)
  {
    NotAfterTotal(last, last);
    assert forall c :: c in front ==> c.scope in Scopes(front);
    assert forall c :: c in front + [last] ==> c in front || c == last;
  }

  lemma AppendKept(kept: seq<Bundle>, last: Bundle)
    requires DistinctScopes(kept) && Sorted(kept) && last.scope !in Scopes(kept)
    requires forall b :: b in kept ==> NotAfter(b, last)
    ensures DistinctScopes(kept + [last]) && Sorted(kept + [last])
  {
    forall i | 0 <= i < |kept| ensures kept[i].scope != last.scope && NotAfter(kept[i], last) {
      assert kept[i] in kept;
    }
  }

  lemma {:induction false} FirstsAreLeast(s: seq<Bundle>)
    requires Sorted(s)
    ensures DistinctScopes(FirstOfEach(s)) && Sorted(FirstOfEach(s))
    ensures Scopes(FirstOfEach(s)) == Scopes(s)
    ensures forall b :: b in FirstOfEach(s) ==> IsLeast(s, b)
  {
    if s == [] {
    } else {
      var front, last := s[..|s| - 1], s[|s| - 1];
      assert s == front + [last];
      SortedFront(front, last);
      FirstsAreLeast(front);
      var kept := FirstOfEach(front);
      forall b | b in kept ensures b in front && IsLeast(s, b) {
        assert IsLeast(front, b);
        LeastExtends(front, last, b);
      }
      assert Scopes(s) == Scopes(front) + {last.scope};
      if last.scope !in Scopes(kept) {
        NewScopeIsLeast(front, last);
        AppendKept(kept, last);
        assert Scopes(kept + [last]) == Scopes(kept) + {last.scope};
      }
    }
  }

  method DirectAccountHomeBundles(rows: seq<RuntimeRow>, requiredEmail: string) returns (result: seq<Bundle>)
    ensures result == FirstOfEach(Sort(Collected(rows, requiredEmail)))
  {
    var bundles: seq<Bundle> := [];
    var n := 0;
    while n < |rows|
      invariant 0 <= n <= |rows| && bundles == Collected(rows[..n], requiredEmail)
    {
      var row := rows[n];
      assert rows[..n + 1][..n] == rows[..n];
      n := n + 1;
      if !row.accountHome { continue; }
      if !row.poolMember { continue; }
      if requiredEmail != "" && row.email != requiredEmail { continue; }
      bundles := bundles + [Bundle(row.id, row.email, ScopeKey(row), row.authTime)];
    }
    assert rows[..n] == rows;
    var sortedBundles := Sort(bundles);
    var order: seq<Bundle> := [];             // the values of `deduped` in insertion order
    var deduped: map<string, Bundle> := map[];
    var k := 0;
    while k < |sortedBundles|
      invariant 0 <= k <= |sortedBundles| && order == FirstOfEach(sortedBundles[..k])
      invariant deduped.Keys == Scopes(order)
    {
      var bundle := sortedBundles[k];
      assert sortedBundles[..k + 1][..k] == sortedBundles[..k];
      if bundle.scope !in deduped {
        deduped := deduped[bundle.scope := bundle];
        order := order + [bundle];
      }
      k := k + 1;
    }
    assert sortedBundles[..k] == sortedBundles;
    result := order;
  }

  /** Exactly one bundle per quota scope survives: the least by email, newest authentication and runtime id;
      with distinct runtime ids there is no choice left. */
  lemma DedupKeepsTheLeast(rows: seq<RuntimeRow>, requiredEmail: string)
    ensures var all := Collected(rows, requiredEmail);
            var kept := FirstOfEach(Sort(all));
            && DistinctScopes(kept) && Scopes(kept) == Scopes(all) && Sorted(kept)
            && (forall b :: b in kept ==> IsLeast(all, b))
            && (forall b :: IsLeast(all, b) ==>
                  exists c :: c in kept && c.scope == b.scope && c.runtimeId == b.runtimeId)
  {
    var all := Collected(rows, requiredEmail);
    SortSorts(all);
    SortHasSameMembers(all);
    FirstsAreLeast(Sort(all));
    var kept := FirstOfEach(Sort(all));
    assert Scopes(Sort(all)) == Scopes(all);
    forall b | b in kept ensures IsLeast(all, b) { assert IsLeast(Sort(all), b); }
    forall b | IsLeast(all, b) ensures exists c :: c in kept && c.scope == b.scope && c.runtimeId == b.runtimeId {
      assert b.scope in Scopes(kept);
      var c :| c in kept && c.scope == b.scope;
      assert IsLeast(all, c);
      NotAfterTotal(b, c);
    }
  }

  /** The representative of a scope against any other home of it: an earlier email, or the same one and a newer
      authentication, or both the same and no later runtime id. */
  lemma RepresentativeIs(rows: seq<RuntimeRow>, requiredEmail: string, b: Bundle, c: Bundle)
    requires b in FirstOfEach(Sort(Collected(rows, requiredEmail)))
    requires c in Collected(rows, requiredEmail) && c.scope == b.scope
    ensures || ComesFirst(b.email, c.email)
            || (b.email == c.email && b.authTime > c.authTime)
            || (b.email == c.email && b.authTime == c.authTime
                && (b.runtimeId == c.runtimeId || ComesFirst(b.runtimeId, c.runtimeId)))
  {
    DedupKeepsTheLeast(rows, requiredEmail);
    assert IsLeast(Collected(rows, requiredEmail), b);
    TextLessTotal(b.email, c.email);
    TextLessTotal(b.runtimeId, c.runtimeId);
    TextLessIs(b.email, c.email);
    TextLessIs(b.runtimeId, c.runtimeId);
  }

  // ---------- The audit ----------

  datatype AuditStatus = Available | Blocked | Failed

  datatype AuditReport = AuditReport(status: AuditStatus, successfulIds: seq<string>, scopes: seq<string>, audited: nat)

  /** The audited homes: one per scope, cut off at the probe limit. */
  ghost function Audited(rows: seq<RuntimeRow>, requiredEmail: string, maxProbes: int): seq<Bundle> {
    var homes := FirstOfEach(Sort(Collected(rows, requiredEmail)));
    if |homes| < Max1(maxProbes) then homes else homes[..Max1(maxProbes)]
  }

  /** The first homes in order, as many as there are probes, and at least one probe. */
  lemma AuditedAreTheFirst(rows: seq<RuntimeRow>, requiredEmail: string, maxProbes: int)
    ensures var homes := FirstOfEach(Sort(Collected(rows, requiredEmail)));
            var audited := Audited(rows, requiredEmail, maxProbes);
            && audited <= homes
            && (|audited| == |homes| || |audited| == maxProbes || (|audited| == 1 && maxProbes < 1))
            && (|homes| >= 1 ==> |audited| >= 1) && (|audited| > 1 ==> |audited| <= maxProbes)
  {
  }

  ghost function HealthyScopes(bundles: seq<Bundle>, healthy: string -> bool): set<string> {
    set b | b in bundles && healthy(b.runtimeId) :: b.scope
  }

  lemma OneMoreProbed(bundles: seq<Bundle>, n: nat, healthy: string -> bool)
    requires DistinctScopes(bundles) && n < |bundles|
    ensures var b := bundles[n];
            && HealthyScopes(bundles[..n + 1], healthy)
               == HealthyScopes(bundles[..n], healthy) + (if healthy(b.runtimeId) then {b.scope} else {})
            && b.scope !in HealthyScopes(bundles[..n], healthy)
  {
    assert bundles[..n + 1] == bundles[..n] + [bundles[n]];
  }

  lemma {:induction false} ScopesAreNamed(rows: seq<RuntimeRow>, requiredEmail: string)
    ensures forall b :: b in Collected(rows, requiredEmail) ==> b.scope != ""
  {
    if rows == [] {
    } else {
      ScopesAreNamed(rows[..|rows| - 1], requiredEmail);
    }
  }

  ghost predicate Auditable(bundles: seq<Bundle>) {
    DistinctScopes(bundles) && forall b :: b in bundles ==> b.scope != ""
  }

  lemma HomesAreAuditable(all: seq<Bundle>)
    requires forall b :: b in all ==> b.scope != ""
    ensures Auditable(FirstOfEach(Sort(all)))
  {
    SortSorts(all);
    SortHasSameMembers(all);
    FirstsAreLeast(Sort(all));
    forall b | b in FirstOfEach(Sort(all)) ensures b.scope != "" { assert IsLeast(Sort(all), b); }
  }

  lemma CutIsAuditable(bundles: seq<Bundle>, n: nat)
    requires Auditable(bundles) && n <= |bundles|
    ensures Auditable(bundles[..n])
  {
  }

  lemma AuditedAreAuditable(rows: seq<RuntimeRow>, requiredEmail: string, maxProbes: int)
    ensures Auditable(Audited(rows, requiredEmail, maxProbes))
  {
    ScopesAreNamed(rows, requiredEmail);
    HomesAreAuditable(Collected(rows, requiredEmail));
    var homes := FirstOfEach(Sort(Collected(rows, requiredEmail)));
    if |homes| >= Max1(maxProbes) { CutIsAuditable(homes, Max1(maxProbes)); }
  }

  /** Probe each bundle once, counting successful runtimes and the scopes they answer for. */
  method ProbeEach(bundles: seq<Bundle>, healthy: string -> bool)
    returns (successfulIds: seq<string>, scopes: seq<string>)
    requires Auditable(bundles)
    ensures |successfulIds| == |scopes| == |HealthyScopes(bundles, healthy)|
    ensures forall scope :: scope in scopes <==> scope in HealthyScopes(bundles, healthy)
  {
    successfulIds, scopes := [], [];
    var scopeSet: set<string> := {};
    var n := 0;
    while n < |bundles|
      invariant 0 <= n <= |bundles|
      invariant scopeSet == HealthyScopes(bundles[..n], healthy)
      invariant |successfulIds| == |scopes| == |scopeSet|
      invariant forall scope :: scope in scopes <==> scope in scopeSet
    {
      var bundle := bundles[n];
      OneMoreProbed(bundles, n, healthy);
      assert bundle in bundles;
      if healthy(bundle.runtimeId) {
        successfulIds := successfulIds + [bundle.runtimeId];
        var scope := if bundle.scope != "" then bundle.scope else "runtime:" + bundle.runtimeId;
        if scope !in scopeSet {
          scopes := scopes + [scope];
          scopeSet := scopeSet + {scope};
        }
      }
      n := n + 1;
    }
    assert bundles[..n] == bundles;
  }

  /** Successes and successful scopes are equally many, and the audit is available exactly when enough of the
      audited scopes answer through their one representative. */
  method RunAudit(
    rows: seq<RuntimeRow>, requiredEmail: string, cliCompatible: bool, healthy: string -> bool,
    maxProbes: int, targetSuccesses: int)
    returns (r: AuditReport)
    ensures !cliCompatible ==> r == AuditReport(Blocked, [], [], 0)
    ensures cliCompatible ==>
              var found := HealthyScopes(Audited(rows, requiredEmail, maxProbes), healthy);
              && r.audited == |Audited(rows, requiredEmail, maxProbes)|
              && |r.successfulIds| == |r.scopes| == |found|
              && (forall scope :: scope in r.scopes <==> scope in found)
              && r.status == if |found| >= Max1(targetSuccesses) then Available else Failed
  {
    if !cliCompatible {
      return AuditReport(Blocked, [], [], 0);
    }
    var bundles := DirectAccountHomeBundles(rows, requiredEmail);
    if |bundles| >= Max1(maxProbes) { bundles := bundles[..Max1(maxProbes)]; }
    AuditedAreAuditable(rows, requiredEmail, maxProbes);
    var successfulIds, scopes := ProbeEach(bundles, healthy);
    r := AuditReport(if |scopes| >= Max1(targetSuccesses) then Available else Failed, successfulIds, scopes, |bundles|);
  }
}
