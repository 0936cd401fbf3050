/** Finding vault values in a fragment: all overlapping occurrences, sorted and swept,
    are the picks of a leftmost-longest scan. */
module Sweep {

  datatype Span = Span(start: nat, end: nat)

  /** A non-empty vault value stands at `i..j`. */
  predicate Occurs(values: seq<string>, s: string, i: nat, j: nat) {
    i < j <= |s| && s[i..j] in values
  }

  // ---------- the scan ----------

  /** End of the longest value at `i` that ends by `j`, or `i` when there is none. */
  function LongestBy(values: seq<string>, s: string, i: nat, j: nat): (r: nat)
    requires i <= j <= |s|
    ensures i <= r <= j && (r > i ==> Occurs(values, s, i, r))
    ensures forall k | r < k <= j :: !Occurs(values, s, i, k)
    decreases j
  {
    if j == i then i
    else if s[i..j] in values then j
    else LongestBy(values, s, i, j - 1)
  }

  /** Leftmost first, longest at each start, never inside a previous pick. */
  function Scan(values: seq<string>, s: string, i: nat): seq<Span>
    requires i <= |s|
    decreases |s| - i
  {
    if i == |s| then []
    else
      var j := LongestBy(values, s, i, |s|);
      if j == i then Scan(values, s, i + 1) else [Span(i, j)] + Scan(values, s, j)
  }

  // ---------- the sweep ----------

  predicate Before(a: Span, b: Span) { a.start < b.start || (a.start == b.start && a.end >= b.end) }

  predicate Sorted(ms: seq<Span>) { forall i, j | 0 <= i < j < |ms| :: Before(ms[i], ms[j]) }

  /** A match is picked when it starts no earlier than the last pick ended. */
  function Picks(ms: seq<Span>, last: int): seq<Span>
    decreases |ms|
  {
    if ms == [] then []
    else if ms[0].start >= last then [ms[0]] + Picks(ms[1..], ms[0].end)
    else Picks(ms[1..], last)
  }

  /** `ms` lists exactly the occurrences, in any multiplicity. */
  ghost predicate Lists(ms: seq<Span>, values: seq<string>, s: string) {
    forall i, j :: Span(i, j) in ms <==> Occurs(values, s, i, j)
  }

  /** Of the occurrences from `i` on, `ms` misses none and adds none. */
  ghost predicate ListsFrom(ms: seq<Span>, values: seq<string>, s: string, i: nat) {
    (forall m | m in ms :: Occurs(values, s, m.start, m.end))
    && (forall a, b | i <= a && Occurs(values, s, a, b) :: Span(a, b) in ms)
  }

  lemma {:induction false} ScanSkips(values: seq<string>, s: string, i: nat, k: nat)
    requires i <= k <= |s|
    requires forall a, b | i <= a < k :: !Occurs(values, s, a, b)
    ensures Scan(values, s, i) == Scan(values, s, k)
    decreases k - i
  {
    if i < k {
      var j := LongestBy(values, s, i, |s|);
      assert j == i;
      ScanSkips(values, s, i + 1, k);
    }
  }

  lemma {:induction false} SweepFrom(ms: seq<Span>, values: seq<string>, s: string, i: nat, last: int)
    requires Sorted(ms) && i <= |s| && ListsFrom(ms, values, s, i)
    requires last == i || (last == -1 && i == 0)
    ensures Picks(ms, last) == Scan(values, s, i)
    decreases |ms|
  {
    if ms == [] {
      ScanSkips(values, s, i, |s|);
    } else {
      var m := ms[0];
      assert Occurs(values, s, m.start, m.end);
      assert forall n | n in ms[1..] :: n in ms && Before(m, n);
      if m.start >= last {
        forall a, b | i <= a && Occurs(values, s, a, b) ensures m.start <= a {
          assert Span(a, b) in ms;
        }
        ScanSkips(values, s, i, m.start);
        FirstIsLongest(ms, values, s, i);
        SweepFrom(ms[1..], values, s, m.end, m.end);
      } else {
        SweepFrom(ms[1..], values, s, i, last);
      }
    }
  }

  lemma FirstIsLongest(ms: seq<Span>, values: seq<string>, s: string, i: nat)
    requires ms != [] && Sorted(ms) && ListsFrom(ms, values, s, i) && i <= ms[0].start < |s|
    ensures LongestBy(values, s, ms[0].start, |s|) == ms[0].end
  {
    var m := ms[0];
    var j := LongestBy(values, s, m.start, |s|);
    assert Occurs(values, s, m.start, m.end);
    assert Occurs(values, s, m.start, j);
    assert Span(m.start, j) in ms;
    var rest := ms[1..];
    assert ms == [m] + rest;
    assert Span(m.start, j) == m || Span(m.start, j) in rest;
  }

  /** The sweep over any sorted list of exactly all occurrences, whatever produced it, is
      the leftmost-longest scan. */
  lemma SweepIsScan(ms: seq<Span>, values: seq<string>, s: string)
    requires Sorted(ms) && Lists(ms, values, s)
    ensures Picks(ms, -1) == Scan(values, s, 0)
  {
    forall m | m in ms ensures Occurs(values, s, m.start, m.end) {
      assert m == Span(m.start, m.end);
    }
    SweepFrom(ms, values, s, 0, -1);
  }

  // ---------- what the picks are ----------

  /** The picks lie in order, apart from each other, at or behind `i`, and on values. */
  predicate InOrder(ps: seq<Span>, values: seq<string>, s: string, i: nat)
    decreases |ps|
  {
    i <= |s|
    && (ps == [] || (i <= ps[0].start && Occurs(values, s, ps[0].start, ps[0].end)
                     && InOrder(ps[1..], values, s, ps[0].end)))
  }

  /** No value starts between the picks: none in `i..` before the first one, and so on. */
  ghost predicate GapsFree(ps: seq<Span>, values: seq<string>, s: string, i: nat)
    decreases |ps|
  {
    if ps == [] then forall a, b | i <= a :: !Occurs(values, s, a, b)
    else
      (forall a, b | i <= a < ps[0].start :: !Occurs(values, s, a, b))
      && GapsFree(ps[1..], values, s, ps[0].end)
  }

  lemma {:induction false} ScanIs(values: seq<string>, s: string, i: nat)
    requires i <= |s|
    ensures InOrder(Scan(values, s, i), values, s, i)
    ensures GapsFree(Scan(values, s, i), values, s, i)
    decreases |s| - i
  {
    if i < |s| {
      var j := LongestBy(values, s, i, |s|);
      if j == i {
        ScanIs(values, s, i + 1);
        ScanBack(Scan(values, s, i + 1), values, s, i);
      } else {
        ScanIs(values, s, j);
        assert ([Span(i, j)] + Scan(values, s, j))[1..] == Scan(values, s, j);
      }
    }
  }

  lemma ScanBack(ps: seq<Span>, values: seq<string>, s: string, i: nat)
    requires i < |s| && InOrder(ps, values, s, i + 1) && GapsFree(ps, values, s, i + 1)
    requires forall b :: !Occurs(values, s, i, b)
    ensures InOrder(ps, values, s, i) && GapsFree(ps, values, s, i)
  {}

  // ---------- sorting ----------

  function Insert(m: Span, ms: seq<Span>): (r: seq<Span>)
    ensures forall x :: x in r <==> x == m || x in ms
    decreases |ms|
  {
    if ms == [] || Before(m, ms[0]) then [m] + ms
    else
      assert ms == [ms[0]] + ms[1..];
      [ms[0]] + Insert(m, ms[1..])
  }

  /** Sorting by start, longest first. */
  function Sort(ms: seq<Span>): (r: seq<Span>)
    ensures forall x :: x in r <==> x in ms
    decreases |ms|
  {
    if ms == [] then []
    else
      assert ms == [ms[0]] + ms[1..];
      Insert(ms[0], Sort(ms[1..]))
  }

  lemma {:induction false} InsertSorts(m: Span, ms: seq<Span>)
    requires Sorted(ms)
    ensures Sorted(Insert(m, ms))
    decreases |ms|
  {
    if ms != [] && !Before(m, ms[0]) {
      InsertSorts(m, ms[1..]);
      assert forall x | x in ms[1..] :: Before(ms[0], x);
    } else {
      assert ms != [] ==> forall x | x in ms :: x == ms[0] || Before(ms[0], x);
    }
  }

  lemma {:induction false} SortSorts(ms: seq<Span>)
    ensures Sorted(Sort(ms))
    decreases |ms|
  {
    if ms != [] {
      SortSorts(ms[1..]);
      InsertSorts(ms[0], Sort(ms[1..]));
    }
  }

  // ---------- the matches, one value at a time ----------

  lemma SortKeeps(ms: seq<Span>, values: seq<string>, s: string)
    ensures Lists(ms, values, s) ==> Lists(Sort(ms), values, s)
  {}

  predicate StandsAt(s: string, v: string, k: nat) { k + |v| <= |s| && s[k..k + |v|] == v }

  /** Position of the first occurrence of `v` at or behind `from`, or -1. */
  method Find(s: string, v: string, from: nat) returns (r: int)
    ensures r == -1 || (from <= r && StandsAt(s, v, r))
    ensures forall k: nat | from <= k && (r == -1 || k < r) :: !StandsAt(s, v, k)
  {
    var i := from;
    while i + |v| <= |s|
      invariant from <= i
      invariant forall k: nat | from <= k < i :: !StandsAt(s, v, k)
      decreases |s| - i
    {
      if s[i..i + |v|] == v {
        return i;
      }
      i := i + 1;
    }
    return -1;
  }

  /** The span is an occurrence of `v` that starts before `i`; a negative `i` is no bound. */
  predicate FoundBy(s: string, v: string, m: Span, i: int) {
    StandsAt(s, v, m.start) && m.end == m.start + |v| && (i < 0 || m.start < i)
  }

  /** All overlapping occurrences of one value. */
  method MatchesOf(s: string, v: string) returns (ms: seq<Span>)
    requires v != ""
    ensures forall m :: m in ms <==> FoundBy(s, v, m, -1)
  {
    ms := [];
    var i := Find(s, v, 0);
    while i >= 0
      invariant i >= -1 && (i >= 0 ==> StandsAt(s, v, i))
      invariant forall m :: m in ms <==> FoundBy(s, v, m, i)
      decreases if i < 0 then 0 else |s| + 1 - i
    {
      ms := ms + [Span(i, i + |v|)];
      i := Find(s, v, i + 1);
    }
  }

  /** All overlapping occurrences of all values, found one value at a time. */
  method AllMatches(values: seq<string>, s: string) returns (ms: seq<Span>)
    ensures Lists(ms, values, s)
  {
    ms := [];
    var n := 0;
    while n < |values|
      invariant 0 <= n <= |values|
      invariant Lists(ms, values[..n], s)
    {
      var found: seq<Span> := [];
      if values[n] != "" {
        found := MatchesOf(s, values[n]);
      }
      OneValueMore(ms, found, values, n, s);
      ms := ms + found;
      n := n + 1;
    }
    assert values[..n] == values;
  }

  lemma OneValueMore(ms: seq<Span>, found: seq<Span>, values: seq<string>, n: nat, s: string)
    requires n < |values| && Lists(ms, values[..n], s)
    requires forall m :: m in found <==> values[n] != "" && FoundBy(s, values[n], m, -1)
    ensures Lists(ms + found, values[..n + 1], s)
  {
    assert values[..n + 1] == values[..n] + [values[n]];
    forall a: nat, b: nat ensures Span(a, b) in ms + found <==> Occurs(values[..n + 1], s, a, b) {
      assert Span(a, b) in ms <==> Occurs(values[..n], s, a, b);
    }
  }

  /** The greedy sweep: a match is taken when it starts no earlier than the last one ended. */
  method SweepMatches(ms: seq<Span>) returns (picked: seq<Span>)
    ensures picked == Picks(ms, -1)
  {
    picked := [];
    var last: int := -1;
    var i := 0;
    while i < |ms|
      invariant 0 <= i <= |ms|
      invariant picked + Picks(ms[i..], last) == Picks(ms, -1)
    {
      var m := ms[i];
      assert ms[i..][0] == m && ms[i..][1..] == ms[i + 1..];
      if m.start >= last {
        picked := picked + [m];
        last := m.end;
      }
      i := i + 1;
    }
  }
}
