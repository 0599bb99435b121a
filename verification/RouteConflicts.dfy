/** Route conflict detection: routes grouped by method and normalized path, and every pair of a group
    that spans at least two files reported. Routes are told apart by their position in the list. */
module RouteConflicts {
  import opened Wrappers

  datatype Route = Route(capability: string, file: string, method_: string, path: string, line: nat)

  // ---------- normalize_path ----------

  /** The first '}' at or after `from`. */
  function FindClose(s: string, from: nat): (close: Option<nat>)
    ensures close.Some? ==> from <= close.value < |s| && s[close.value] == '}'
    ensures forall j :: from <= j < |s| && (close.Some? ==> j < close.value) ==> s[j] != '}'
    decreases |s| - from
  {
    if from >= |s| then None else if s[from] == '}' then Some(from) else FindClose(s, from + 1)
  }

  /** re.sub(r'\{[^}]+\}', '{*}', s): at least one character stands between the braces. */
  function Substituted(s: string): string
    decreases |s|
  {
    if s == [] then []
    else
      var close := FindClose(s, 1);
      if s[0] == '{' && close.Some? && close.value > 1 then "{*}" + Substituted(s[close.value + 1..])
      else [s[0]] + Substituted(s[1..])
  }

  function StripSlashes(s: string): string {
    if s != [] && s[|s| - 1] == '/' then StripSlashes(s[..|s| - 1]) else s
  }

  function NormalizePath(path: string): string { StripSlashes(Substituted(path)) }

  lemma {:induction false} NoCloseNoChange(s: string)
    requires forall j :: 0 <= j < |s| ==> s[j] != '}'
    ensures Substituted(s) == s
  {
    if s == [] {
    } else {
      NoCloseNoChange(s[1..]);
      assert FindClose(s, 1).None?;
    }
  }

  lemma MatchFirst(s: string, close: nat)
    requires s != [] && s[0] == '{' && 1 < close < |s| && s[close] == '}'
    requires forall j :: 1 <= j < close ==> s[j] != '}'
    ensures Substituted(s) == "{*}" + Substituted(s[close + 1..])
  {
    assert FindClose(s, 1) == Some(close);
  }

  lemma {:induction false} SubstitutedTwice(s: string)
    ensures Substituted(Substituted(s)) == Substituted(s)
    decreases |s|
  {
    if s == [] {
    } else {
      var close := FindClose(s, 1);
      if s[0] == '{' && close.Some? && close.value > 1 {
        var rest := Substituted(s[close.value + 1..]);
        SubstitutedTwice(s[close.value + 1..]);
        var t := "{*}" + rest;
        MatchFirst(t, 2);
        assert t[3..] == rest;
      } else {
        var rest, t := Substituted(s[1..]), Substituted(s);
        SubstitutedTwice(s[1..]);
        assert t == [s[0]] + rest && t[1..] == rest;
        if s[0] == '{' {
          if close.None? {
            NoCloseNoChange(s[1..]);
            assert FindClose(t, 1).None?;
          } else {
            assert s[1..][0] == '}' && t[1] == '}';
            assert FindClose(t, 1) == Some(1);
          }
        }
      }
    }
  }

  lemma FindCloseBeforeSlash(s: string, from: nat)
    requires from <= |s|
    ensures FindClose(s + ['/'], from) == FindClose(s, from)
    decreases |s| - from
  {
    if from < |s| { FindCloseBeforeSlash(s, from + 1); } else { assert FindClose(s + ['/'], from + 1).None?; }
  }

  lemma {:induction false} SubstitutedBeforeSlash(s: string)
    ensures Substituted(s + ['/']) == Substituted(s) + ['/']
    decreases |s|
  {
    var t := s + ['/'];
    if s == [] {
      assert t[1..] == [];
    } else {
      FindCloseBeforeSlash(s, 1);
      var close := FindClose(s, 1);
      if s[0] == '{' && close.Some? && close.value > 1 {
        assert t[close.value + 1..] == s[close.value + 1..] + ['/'];
        SubstitutedBeforeSlash(s[close.value + 1..]);
      } else {
        assert t[1..] == s[1..] + ['/'];
        SubstitutedBeforeSlash(s[1..]);
      }
    }
  }

  lemma {:induction false} StrippingStaysSettled(s: string)
    requires Substituted(s) == s
    ensures Substituted(StripSlashes(s)) == StripSlashes(s)
    ensures StripSlashes(StripSlashes(s)) == StripSlashes(s)
  {
    if s != [] && s[|s| - 1] == '/' {
      var front := s[..|s| - 1];
      assert s == front + ['/'];
      SubstitutedBeforeSlash(front);
      assert (Substituted(front) + ['/'])[..|Substituted(front)|] == Substituted(front);
      StrippingStaysSettled(front);
    }
  }

  /** Normalizing again changes nothing, so a normalized path is its own group key. */
  lemma NormalizePathIsIdempotent(path: string)
    ensures NormalizePath(NormalizePath(path)) == NormalizePath(path)
  {
    SubstitutedTwice(path);
    StrippingStaysSettled(Substituted(path));
  }

  // ---------- What normalizing does ----------

  ghost predicate IsName(name: string) { name != "" && '}' !in name }

  lemma FirstClose(s: string, from: nat, close: nat)
    requires from <= close < |s| && s[close] == '}'
    requires forall j :: from <= j < close ==> s[j] != '}'
    ensures FindClose(s, from) == Some(close)
  {
  }

  /** The text starts with a parameter whose closing brace is at n, followed by the rest. */
  ghost predicate StartsWithParameter(s: string, n: nat, rest: string) {
    1 < n < |s| && s[0] == '{' && s[n] == '}' && (forall j :: 1 <= j < n ==> s[j] != '}') && s[n + 1..] == rest
  }

  lemma ParameterStarts(name: string, rest: string)
    requires IsName(name)
    ensures StartsWithParameter("{" + name + "}" + rest, |name| + 1, rest)
  {
    var s := "{" + name + "}" + rest;
    forall j | 1 <= j < |name| + 1 ensures s[j] != '}' { assert s[j] == name[j - 1] && name[j - 1] in name; }
  }

  lemma ParameterFirst(name: string, rest: string)
    requires IsName(name)
    ensures Substituted("{" + name + "}" + rest) == "{*}" + Substituted(rest)
  {
    ParameterStarts(name, rest);
    MatchFirst("{" + name + "}" + rest, |name| + 1);
  }

  /** Text before the first brace stays, a parameter becomes the placeholder, and the rest is handled alike. */
  lemma {:induction false} ParameterBecomesPlaceholder(before: string, name: string, rest: string)
    requires '{' !in before && IsName(name)
    ensures Substituted(before + ("{" + name + "}" + rest)) == before + ("{*}" + Substituted(rest))
  {
    var tail := "{" + name + "}" + rest;
    if before == [] {
      assert before + tail == tail;
      ParameterFirst(name, rest);
      assert before + ("{*}" + Substituted(rest)) == "{*}" + Substituted(rest);
    } else {
      var s := before + tail;
      assert s[1..] == before[1..] + tail && s[0] == before[0] && before[0] in before;
      ParameterBecomesPlaceholder(before[1..], name, rest);
    }
  }

  /** A path without parameters stays as it is, up to its trailing slashes. */
  lemma {:induction false} NoBraceNoChange(s: string)
    requires '{' !in s
    ensures Substituted(s) == s
  {
    if s == [] {
    } else {
      assert s[0] in s;
      NoBraceNoChange(s[1..]);
    }
  }

  /** Exactly the trailing slashes are taken off. */
  lemma {:induction false} StripsExactlySlashes(s: string)
    ensures var r := StripSlashes(s);
            r <= s && (forall i :: |r| <= i < |s| ==> s[i] == '/') && (r != [] ==> r[|r| - 1] != '/')
  {
    if s != [] && s[|s| - 1] == '/' { StripsExactlySlashes(s[..|s| - 1]); }
  }

  /** A brace left open before a parameter is closed by the parameter's own. */
  lemma OpenUntil(before: string, a: string, n: nat, rest: string)
    requires before != [] && before[0] == '{' && (forall j :: 1 <= j < |before| ==> before[j] != '}')
    requires StartsWithParameter(a, n, rest)
    ensures Substituted(before + a) == "{*}" + Substituted(rest)
  {
    var s, close := before + a, |before| + n;
    forall j | 1 <= j < close ensures s[j] != '}' {
      if j > |before| { assert s[j] == a[j - |before|]; }
    }
    assert s[close] == a[n];
    MatchFirst(s, close);
    assert s[close + 1..] == a[n + 1..];
  }

  lemma MatchWithin(before: string, a: string, close: nat)
    requires before != [] && before[0] == '{' && 1 < close < |before| && before[close] == '}'
    requires forall j :: 1 <= j < close ==> before[j] != '}'
    ensures Substituted(before + a) == "{*}" + Substituted(before[close + 1..] + a)
  {
    MatchFirst(before + a, close);
    assert (before + a)[close + 1..] == before[close + 1..] + a;
  }

  lemma NoMatchFirst(before: string, a: string)
    requires before != [] && (before[0] != '{' || (|before| > 1 && before[1] == '}'))
    ensures Substituted(before + a) == [before[0]] + Substituted(before[1..] + a)
  {
    var s := before + a;
    assert s[1..] == before[1..] + a;
    if before[0] == '{' { FirstClose(s, 1, 1); }
  }

  lemma {:induction false} SubstitutedIgnoresNames(before: string, a: string, m: nat, b: string, n: nat, rest: string)
    requires StartsWithParameter(a, m, rest) && StartsWithParameter(b, n, rest)
    ensures Substituted(before + a) == Substituted(before + b)
    decreases |before|
  {
    if before == [] {
      assert before + a == a && before + b == b;
      MatchFirst(a, m);
      MatchFirst(b, n);
    } else if before[0] != '{' || (|before| > 1 && before[1] == '}') {
      NoMatchFirst(before, a);
      NoMatchFirst(before, b);
      SubstitutedIgnoresNames(before[1..], a, m, b, n, rest);
    } else {
      var close := FindClose(before, 1);
      if close.Some? {
        MatchWithin(before, a, close.value);
        MatchWithin(before, b, close.value);
        SubstitutedIgnoresNames(before[close.value + 1..], a, m, b, n, rest);
      } else {
        OpenUntil(before, a, m, rest);
        OpenUntil(before, b, n, rest);
      }
    }
  }

  /** The name of a parameter never matters, wherever it stands: renaming it normalizes to the same path. */
  lemma ParameterNamesAreIrrelevant(before: string, name: string, other: string, rest: string)
    requires IsName(name) && IsName(other)
    ensures NormalizePath(before + ("{" + name + "}" + rest)) == NormalizePath(before + ("{" + other + "}" + rest))
  {
    ParameterStarts(name, rest);
    ParameterStarts(other, rest);
    SubstitutedIgnoresNames(
      before, "{" + name + "}" + rest, |name| + 1, "{" + other + "}" + rest, |other| + 1, rest);
  }

  // ---------- find_conflicts ----------

  type Key = (string, string)

  function KeyOf(route: Route): Key { (route.method_, NormalizePath(route.path)) }

  /** The keys in order of first appearance. */
  function Keys(routes: seq<Route>): seq<Key> {
    if routes == [] then []
    else
      var before, key := Keys(routes[..|routes| - 1]), KeyOf(routes[|routes| - 1]);
      if key in before then before else before + [key]
  }

  /** The positions of a key's routes, ascending. */
  function Group(routes: seq<Route>, key: Key): seq<nat> {
    if routes == [] then []
    else
      var n := |routes| - 1;
      Group(routes[..n], key) + if KeyOf(routes[n]) == key then [n] else []
  }

  function Files(routes: seq<Route>, group: seq<nat>): set<string> {
    set k | 0 <= k < |group| && group[k] < |routes| :: routes[group[k]].file
  }

  /** The positions of the two routes of a reported conflict. */
  datatype Pair = Pair(first: nat, second: nat)

  /** The pairs of member i with the members after it, up to position n. */
  function Row(group: seq<nat>, i: nat, n: nat): seq<Pair>
    requires i < n <= |group|
  {
    if n == i + 1 then [] else Row(group, i, n - 1) + [Pair(group[i], group[n - 1])]
  }

  function Pairs(group: seq<nat>, n: nat): seq<Pair>
    requires n <= |group|
  {
    if n == 0 then [] else Pairs(group, n - 1) + Row(group, n - 1, |group|)
  }

  function GroupConflicts(routes: seq<Route>, group: seq<nat>): seq<Pair> {
    if |Files(routes, group)| > 1 then Pairs(group, |group|) else []
  }

  ghost predicate Increasing(group: seq<nat>) { forall a, b :: 0 <= a < b < |group| ==> group[a] < group[b] }

  lemma {:induction false} GroupIs(routes: seq<Route>, key: Key)
    ensures forall k :: 0 <= k < |Group(routes, key)| ==> Group(routes, key)[k] < |routes|
    ensures forall i :: i in Group(routes, key) <==> 0 <= i < |routes| && KeyOf(routes[i]) == key
    ensures Increasing(Group(routes, key))
  {
    if routes == [] {
    } else {
      GroupIs(routes[..|routes| - 1], key);
    }
  }

  /** The conflicts of the groups of some keys, in that order. */
  function ConflictsFor(routes: seq<Route>, keys: seq<Key>): seq<Pair> {
    if keys == [] then []
    else ConflictsFor(routes, keys[..|keys| - 1]) + GroupConflicts(routes, Group(routes, keys[|keys| - 1]))
  }

  function Conflicts(routes: seq<Route>): seq<Pair> { ConflictsFor(routes, Keys(routes)) }

  ghost predicate DistinctKeys(keys: seq<Key>) { forall a, b :: 0 <= a < b < |keys| ==> keys[a] != keys[b] }

  lemma {:induction false} KeysAre(routes: seq<Route>)
    ensures forall key :: key in Keys(routes) <==> exists i :: 0 <= i < |routes| && KeyOf(routes[i]) == key
    ensures DistinctKeys(Keys(routes))
  {
    if routes == [] {
    } else {
      var n := |routes| - 1;
      KeysAre(routes[..n]);
      forall key ensures key in Keys(routes) <==> exists i :: 0 <= i < |routes| && KeyOf(routes[i]) == key {
        if key in Keys(routes[..n]) {
          var i :| 0 <= i < n && KeyOf(routes[..n][i]) == key;
          assert KeyOf(routes[i]) == key;
        }
        if i :| 0 <= i < |routes| && KeyOf(routes[i]) == key {
          if i < n { assert KeyOf(routes[..n][i]) == key; }
        }
      }
    }
  }

  /** The map holds every key's group of the routes read so far. */
  ghost predicate Groups(routes: seq<Route>, order: seq<Key>, routeMap: map<Key, seq<nat>>) {
    && order == Keys(routes)
    && (forall key :: key in routeMap <==> key in order)
    && (forall key :: key in routeMap ==> routeMap[key] == Group(routes, key))
  }

  lemma {:induction false} NewKeyHasNoGroup(routes: seq<Route>, key: Key)
    requires key !in Keys(routes)
    ensures Group(routes, key) == []
  {
    if routes == [] {
    } else {
      NewKeyHasNoGroup(routes[..|routes| - 1], key);
    }
  }

  lemma OneMoreRoute(routes: seq<Route>, route: Route, order: seq<Key>, routeMap: map<Key, seq<nat>>)
    requires Groups(routes, order, routeMap)
    ensures var key := KeyOf(route);
            if key in routeMap then Groups(routes + [route], order, routeMap[key := routeMap[key] + [|routes|]])
            else Groups(routes + [route], order + [key], routeMap[key := [|routes|]])
  {
    var all, key := routes + [route], KeyOf(route);
    assert all[..|routes|] == routes;
    if key !in routeMap { NewKeyHasNoGroup(routes, key); }
  }

  /** The grouping pass; the map keeps its keys in insertion order. */
  method GroupRoutes(routes: seq<Route>) returns (order: seq<Key>, routeMap: map<Key, seq<nat>>)
    ensures Groups(routes, order, routeMap)
  {
    order, routeMap := [], map[];
    var n := 0;
    while n < |routes|
      invariant 0 <= n <= |routes| && Groups(routes[..n], order, routeMap)
    {
      var key := KeyOf(routes[n]);
      OneMoreRoute(routes[..n], routes[n], order, routeMap);
      assert routes[..n + 1] == routes[..n] + [routes[n]];
      if key !in routeMap {
        order := order + [key];
        routeMap := routeMap[key := []];
      }
      routeMap := routeMap[key := routeMap[key] + [n]];
      n := n + 1;
    }
    assert routes[..n] == routes;
  }

  method GroupPairs(group: seq<nat>) returns (pairs: seq<Pair>)
    ensures pairs == Pairs(group, |group|)
  {
    pairs := [];
    var i := 0;
    while i < |group|
      invariant 0 <= i <= |group| && pairs == Pairs(group, i)
    {
      var j := i + 1;
      while j < |group|
        invariant i < j <= |group| && pairs == Pairs(group, i) + Row(group, i, j)
      {
        pairs := pairs + [Pair(group[i], group[j])];
        j := j + 1;
      }
      i := i + 1;
    }
  }

  lemma FewMembersFewFiles(routes: seq<Route>, group: seq<nat>)
    ensures |group| <= 1 ==> |Files(routes, group)| <= 1
  {
    if group == [] {
      assert Files(routes, group) == {};
    } else if |group| == 1 {
      assert Files(routes, group) == if group[0] < |routes| then {routes[group[0]].file} else {};
    }
  }

  /** The reporting pass over the groups. */
  method ReportGroups(routes: seq<Route>, order: seq<Key>, routeMap: map<Key, seq<nat>>) returns (conflicts: seq<Pair>)
    requires forall key :: key in order ==> key in routeMap && routeMap[key] == Group(routes, key)
    ensures conflicts == ConflictsFor(routes, order)
  {
    conflicts := [];
    var k := 0;
    while k < |order|
      invariant 0 <= k <= |order| && conflicts == ConflictsFor(routes, order[..k])
    {
      var key := order[k];
      assert key in order;
      var group := routeMap[key];
      assert order[..k + 1][..k] == order[..k];
      FewMembersFewFiles(routes, group);
      if |group| > 1 && |Files(routes, group)| > 1 {
        var pairs := GroupPairs(group);
        conflicts := conflicts + pairs;
      }
      k := k + 1;
    }
    assert order[..k] == order;
  }

  method FindConflicts(routes: seq<Route>) returns (conflicts: seq<Pair>)
    ensures conflicts == Conflicts(routes)
  {
    var order, routeMap := GroupRoutes(routes);
    conflicts := ReportGroups(routes, order, routeMap);
  }

  // ---------- What is reported ----------

  ghost predicate Spans(routes: seq<Route>, key: Key) {
    exists a, b :: 0 <= a < |routes| && 0 <= b < |routes| && KeyOf(routes[a]) == key == KeyOf(routes[b])
                   && routes[a].file != routes[b].file
  }

  /** The quadratic scan's criterion: a pair of same-key routes, in a group with two files. */
  ghost predicate IsConflict(routes: seq<Route>, p: Pair) {
    && p.first < p.second < |routes| && KeyOf(routes[p.first]) == KeyOf(routes[p.second])
    && Spans(routes, KeyOf(routes[p.first]))
  }

  lemma TwoElements(s: set<string>, x: string, y: string)
    requires x in s && y in s && x != y
    ensures |s| > 1
  {
    assert |s - {x}| > 0 by { assert y in s - {x}; }
  }

  lemma SpansIs(routes: seq<Route>, key: Key)
    ensures |Files(routes, Group(routes, key))| > 1 <==> Spans(routes, key)
  {
    GroupIs(routes, key);
    var group := Group(routes, key);
    var files := Files(routes, group);
    if Spans(routes, key) {
      var a, b :| 0 <= a < |routes| && 0 <= b < |routes| && KeyOf(routes[a]) == key == KeyOf(routes[b])
                  && routes[a].file != routes[b].file;
      assert a in group && b in group;
      assert {routes[a].file, routes[b].file} <= files;
      TwoElements(files, routes[a].file, routes[b].file);
    } else if group != [] {
      forall k | 0 <= k < |group| ensures routes[group[k]].file == routes[group[0]].file {
        assert group[k] in group && group[0] in group;
      }
      assert files == {routes[group[0]].file};
    } else {
      assert files == {};
    }
  }

  lemma {:induction false} RowIs(group: seq<nat>, i: nat, n: nat)
    requires i < n <= |group|
    ensures |Row(group, i, n)| == n - 1 - i
    ensures forall k :: 0 <= k < n - 1 - i ==> Row(group, i, n)[k] == Pair(group[i], group[i + 1 + k])
  {
    if n > i + 1 { RowIs(group, i, n - 1); }
  }

  ghost predicate NoDuplicates(pairs: seq<Pair>) { forall a, b :: 0 <= a < b < |pairs| ==> pairs[a] != pairs[b] }

  lemma RowSource(group: seq<nat>, i: nat, p: Pair) returns (j: nat)
    requires i < |group| && p in Row(group, i, |group|)
    ensures i < j < |group| && p == Pair(group[i], group[j])
  {
    RowIs(group, i, |group|);
    var k :| 0 <= k < |group| - 1 - i && Row(group, i, |group|)[k] == p;
    j := i + 1 + k;
  }

  /** Every pair in the first n rows is one of two members, the first among the first n. */
  lemma {:induction false} PairSource(group: seq<nat>, n: nat, p: Pair) returns (i: nat, j: nat)
    requires n <= |group| && p in Pairs(group, n)
    ensures i < n && i < j < |group| && p == Pair(group[i], group[j])
  {
    if p in Pairs(group, n - 1) {
      i, j := PairSource(group, n - 1, p);
    } else {
      i := n - 1;
      j := RowSource(group, i, p);
    }
  }

  /** The first n rows hold every such pair. */
  lemma {:induction false} PairsHold(group: seq<nat>, n: nat, i: nat, j: nat)
    requires i < n <= |group| && i < j < |group|
    ensures Pair(group[i], group[j]) in Pairs(group, n)
  {
    if i < n - 1 {
      PairsHold(group, n - 1, i, j);
    } else {
      RowIs(group, i, |group|);
      assert Row(group, i, |group|)[j - i - 1] == Pair(group[i], group[j]);
    }
  }

  lemma RowsAreDisjoint(group: seq<nat>, n: nat, p: Pair)
    requires Increasing(group) && 0 < n <= |group| && p in Pairs(group, n - 1)
    ensures p !in Row(group, n - 1, |group|)
  {
    var i, _ := PairSource(group, n - 1, p);
    assert group[i] < group[n - 1];
    if p in Row(group, n - 1, |group|) { var _ := RowSource(group, n - 1, p); }
  }

  lemma RowIsDistinct(group: seq<nat>, n: nat)
    requires Increasing(group) && 0 < n <= |group|
    ensures NoDuplicates(Row(group, n - 1, |group|))
  {
    RowIs(group, n - 1, |group|);
  }

  lemma DistinctConcat(a: seq<Pair>, b: seq<Pair>)
    requires NoDuplicates(a) && NoDuplicates(b) && forall p: Pair :: p in a ==> p !in b
    ensures NoDuplicates(a + b)
  {
    forall i, j | 0 <= i < |a| && 0 <= j < |b| ensures a[i] != b[j] {
      assert a[i] in a && b[j] in b;
    }
  }

  lemma {:induction false} PairsAreDistinct(group: seq<nat>, n: nat)
    requires Increasing(group) && n <= |group|
    ensures NoDuplicates(Pairs(group, n))
  {
    if n == 0 {
    } else {
      PairsAreDistinct(group, n - 1);
      RowIsDistinct(group, n);
      var before, row := Pairs(group, n - 1), Row(group, n - 1, |group|);
      forall p: Pair | p in before ensures p !in row { RowsAreDisjoint(group, n, p); }
      DistinctConcat(before, row);
    }
  }

  /** Twice the number of pairs in the first n rows of a group of g. */
  function TwiceRows(g: nat, n: nat): int {
    if n == 0 then 0 else TwiceRows(g, n - 1) + 2 * (g - n)
  }

  lemma {:induction false} TwiceRowsIs(g: nat, n: nat)
    ensures TwiceRows(g, n) == n * (2 * g - n - 1)
  {
    if n == 0 {
    } else {
      TwiceRowsIs(g, n - 1);
      var m := 2 * g - n;
      assert n * (m - 1) == n * m - n;
      assert (n - 1) * m == n * m - m;
    }
  }

  lemma RowCount(group: seq<nat>, n: nat)
    requires 0 < n <= |group|
    ensures |Pairs(group, n)| == |Pairs(group, n - 1)| + (|group| - n)
  {
    RowIs(group, n - 1, |group|);
  }

  lemma {:induction false} PairsCount(group: seq<nat>, n: nat)
    requires n <= |group|
    ensures 2 * |Pairs(group, n)| == TwiceRows(|group|, n)
  {
    if n == 0 {
    } else {
      PairsCount(group, n - 1);
      RowCount(group, n);
    }
  }

  ghost predicate HasConflict(routes: seq<Route>, key: Key, p: Pair) {
    IsConflict(routes, p) && KeyOf(routes[p.first]) == key
  }

  lemma ConflictInGroup(routes: seq<Route>, key: Key, p: Pair)
    requires HasConflict(routes, key, p)
    ensures p in Pairs(Group(routes, key), |Group(routes, key)|)
  {
    var group := Group(routes, key);
    GroupIs(routes, key);
    assert p.first in group && p.second in group;
    var i :| 0 <= i < |group| && group[i] == p.first;
    var j :| 0 <= j < |group| && group[j] == p.second;
    assert Increasing(group) && i != j && !(j < i);
    PairsHold(group, |group|, i, j);
  }

  lemma PairIsConflict(routes: seq<Route>, key: Key, p: Pair)
    requires Spans(routes, key) && p in Pairs(Group(routes, key), |Group(routes, key)|)
    ensures HasConflict(routes, key, p)
  {
    var group := Group(routes, key);
    GroupIs(routes, key);
    var i, j := PairSource(group, |group|, p);
    assert group[i] in group && group[j] in group;
  }

  /** One group: its conflicts are the conflicting pairs with that key. */
  lemma GroupConflictsAre(routes: seq<Route>, key: Key, p: Pair)
    ensures p in GroupConflicts(routes, Group(routes, key)) <==> HasConflict(routes, key, p)
  {
    SpansIs(routes, key);
    if HasConflict(routes, key, p) { ConflictInGroup(routes, key, p); }
    if Spans(routes, key) && p in GroupConflicts(routes, Group(routes, key)) { PairIsConflict(routes, key, p); }
  }

  ghost function TwicePairsOf(routes: seq<Route>, key: Key): int {
    var g := |Group(routes, key)|;
    if Spans(routes, key) then g * (g - 1) else 0
  }

  /** g(g-1)/2 conflicts for a group of g that spans two files, none otherwise. */
  lemma GroupConflictsCount(routes: seq<Route>, key: Key)
    ensures 2 * |GroupConflicts(routes, Group(routes, key))| == TwicePairsOf(routes, key)
  {
    SpansIs(routes, key);
    var group := Group(routes, key);
    PairsCount(group, |group|);
    TwiceRowsIs(|group|, |group|);
  }

  /** Sum of g(g-1) over the keys whose group spans two files. */
  ghost function TwicePairs(routes: seq<Route>, keys: seq<Key>): int {
    if keys == [] then 0
    else TwicePairs(routes, keys[..|keys| - 1]) + TwicePairsOf(routes, keys[|keys| - 1])
  }

  lemma {:induction false} ConflictsForAre(routes: seq<Route>, keys: seq<Key>, p: Pair)
    ensures p in ConflictsFor(routes, keys) <==> IsConflict(routes, p) && KeyOf(routes[p.first]) in keys
  {
    if keys == [] {
    } else {
      var front, key := keys[..|keys| - 1], keys[|keys| - 1];
      ConflictsForAre(routes, front, p);
      GroupConflictsAre(routes, key, p);
      assert p in ConflictsFor(routes, keys)
        <==> p in ConflictsFor(routes, front) || p in GroupConflicts(routes, Group(routes, key));
      assert keys == front + [key];
    }
  }

  lemma {:induction false} ConflictsAreDistinct(routes: seq<Route>, keys: seq<Key>)
    requires DistinctKeys(keys)
    ensures NoDuplicates(ConflictsFor(routes, keys))
  {
    if keys == [] {
    } else {
      var front, key := keys[..|keys| - 1], keys[|keys| - 1];
      var group := Group(routes, key);
      ConflictsAreDistinct(routes, front);
      GroupIs(routes, key);
      PairsAreDistinct(group, |group|);
      forall p: Pair | p in ConflictsFor(routes, front) ensures p !in GroupConflicts(routes, group) {
        ConflictsForAre(routes, front, p);
        GroupConflictsAre(routes, key, p);
      }
      DistinctConcat(ConflictsFor(routes, front), GroupConflicts(routes, group));
    }
  }

  lemma {:induction false} ConflictsCount(routes: seq<Route>, keys: seq<Key>)
    ensures 2 * |ConflictsFor(routes, keys)| == TwicePairs(routes, keys)
  {
    if keys == [] {
    } else {
      ConflictsCount(routes, keys[..|keys| - 1]);
      GroupConflictsCount(routes, keys[|keys| - 1]);
    }
  }

  /** Some route with the same method and normalized path stands in another file. */
  ghost predicate HasOtherFile(routes: seq<Route>, a: nat)
    requires a < |routes|
  {
    exists b: nat :: b < |routes| && routes[b].method_ == routes[a].method_
                     && NormalizePath(routes[b].path) == NormalizePath(routes[a].path)
                     && routes[b].file != routes[a].file
  }

  lemma SpansFromMember(routes: seq<Route>, a: nat)
    requires a < |routes|
    ensures Spans(routes, KeyOf(routes[a])) <==> HasOtherFile(routes, a)
  {
    var key := KeyOf(routes[a]);
    if Spans(routes, key) {
      var b, c :| 0 <= b < |routes| && 0 <= c < |routes| && KeyOf(routes[b]) == key == KeyOf(routes[c])
                  && routes[b].file != routes[c].file;
      assert routes[b].file != routes[a].file || routes[c].file != routes[a].file;
    }
    if b: nat :| b < |routes| && routes[b].method_ == routes[a].method_
                 && NormalizePath(routes[b].path) == NormalizePath(routes[a].path)
                 && routes[b].file != routes[a].file {
      assert KeyOf(routes[b]) == key;
    }
  }

  lemma ConflictsAre(routes: seq<Route>)
    ensures forall p: Pair :: p in Conflicts(routes) <==> IsConflict(routes, p)
  {
    KeysAre(routes);
    forall p: Pair ensures p in Conflicts(routes) <==> IsConflict(routes, p) {
      ConflictsForAre(routes, Keys(routes), p);
    }
  }

  /** Two routes the quadratic scan pairs up. */
  ghost predicate Clash(routes: seq<Route>, p: Pair) {
    && p.first < p.second < |routes|
    && routes[p.first].method_ == routes[p.second].method_
    && NormalizePath(routes[p.first].path) == NormalizePath(routes[p.second].path)
    && HasOtherFile(routes, p.first)
  }

  /** Grouping finds exactly the pairs of the quadratic scan, each once, g(g-1)/2 per group that spans files. */
  lemma GroupingEqualsQuadraticScan(routes: seq<Route>)
    ensures forall p: Pair :: p in Conflicts(routes) <==> Clash(routes, p)
    ensures NoDuplicates(Conflicts(routes))
    ensures 2 * |Conflicts(routes)| == TwicePairs(routes, Keys(routes))
  {
    KeysAre(routes);
    ConflictsAreDistinct(routes, Keys(routes));
    ConflictsCount(routes, Keys(routes));
    ConflictsAre(routes);
    forall p: Pair ensures IsConflict(routes, p) <==> Clash(routes, p) {
      if p.first < |routes| { SpansFromMember(routes, p.first); }
    }
  }

  /** Routes with the same method and normalized path always share a file. */
  ghost predicate SameKeySameFile(routes: seq<Route>) {
    forall a, b :: 0 <= a < |routes| && 0 <= b < |routes| && KeyOf(routes[a]) == KeyOf(routes[b]) ==>
      routes[a].file == routes[b].file
  }

  lemma DifferentFilesConflict(routes: seq<Route>, a: nat, b: nat)
    requires a < |routes| && b < |routes| && KeyOf(routes[a]) == KeyOf(routes[b]) && routes[a].file != routes[b].file
    ensures Conflicts(routes) != []
  {
    var p: Pair := if a < b then Pair(a, b) else Pair(b, a);
    assert Spans(routes, KeyOf(routes[a]));
    assert IsConflict(routes, p);
    ConflictsAre(routes);
    assert p in Conflicts(routes);
  }

  lemma ConflictMeansDifferentFiles(routes: seq<Route>)
    requires Conflicts(routes) != []
    ensures !SameKeySameFile(routes)
  {
    ConflictsAre(routes);
    var p := Conflicts(routes)[0];
    assert p in Conflicts(routes);
    assert Spans(routes, KeyOf(routes[p.first]));
  }

  /** Nothing is reported exactly then. */
  lemma NoConflictIffSameFile(routes: seq<Route>)
    ensures Conflicts(routes) == [] <==> SameKeySameFile(routes)
  {
    if !SameKeySameFile(routes) {
      var a, b :| 0 <= a < |routes| && 0 <= b < |routes| && KeyOf(routes[a]) == KeyOf(routes[b])
                  && routes[a].file != routes[b].file;
      DifferentFilesConflict(routes, a, b);
    }
    if Conflicts(routes) != [] { ConflictMeansDifferentFiles(routes); }
  }
}
