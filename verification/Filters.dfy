/** Choosing lines and cells, in order: what an ingest accepts, what a rollback keeps, what
    a purge takes out and what is protected are all filters of one list, and what is proved
    of them rests on a few facts about filters: they split over sums, and a filter that lets
    through all that a second one accepts does not show behind the second. */
module Filters {
  import opened Restore

  /** The strings that `keep` accepts. */
  function Filter(keep: string -> bool, s: seq<string>): (r: seq<string>)
    ensures forall x :: x in r <==> x in s && keep(x)
    ensures |r| <= |s| && (|r| == |s| ==> r == s) && (Distinct(s) ==> Distinct(r))
    decreases |s|
  {
    if s == [] then []
    else
      var n := |s| - 1;
      var r := Filter(keep, s[..n]);
      assert s == s[..n] + [s[n]];
      if keep(s[n]) then r + [s[n]] else r
  }

  lemma FilterSnoc(keep: string -> bool, s: seq<string>, x: string)
    ensures Filter(keep, s + [x]) == Filter(keep, s) + if keep(x) then [x] else []
  {
    assert (s + [x])[..|s|] == s;
  }

  lemma {:induction false} FilterSum(keep: string -> bool, a: seq<string>, b: seq<string>)
    ensures Filter(keep, a + b) == Filter(keep, a) + Filter(keep, b)
    decreases |b|
  {
    hide Filter;
    if b == [] {
      assert a + b == a;
      FilterNone(keep, b);
      assert Filter(keep, a) + [] == Filter(keep, a);
    } else {
      var n := |b| - 1;
      var init, x := b[..n], b[n];
      FilterSum(keep, a, init);
      FilterSnoc(keep, init, x);
      FilterSnoc(keep, a + init, x);
      assert init + [x] == b && a + init + [x] == a + b;
      SumThree(Filter(keep, a), Filter(keep, init), if keep(x) then [x] else []);
    }
  }

  lemma SumThree(a: seq<string>, b: seq<string>, c: seq<string>)
    ensures a + b + c == a + (b + c)
  {}

  lemma {:induction false} FilterAll(keep: string -> bool, s: seq<string>)
    requires forall x | x in s :: keep(x)
    ensures Filter(keep, s) == s
    decreases |s|
  {
    hide Filter;
    if s == [] {
      FilterNone(keep, s);
    } else {
      var n := |s| - 1;
      FilterAll(keep, s[..n]);
      FilterSnoc(keep, s[..n], s[n]);
      assert s == s[..n] + [s[n]];
    }
  }

  lemma {:induction false} FilterNone(keep: string -> bool, s: seq<string>)
    requires forall x | x in s :: !keep(x)
    ensures Filter(keep, s) == []
    decreases |s|
  {
    if s != [] {
      FilterNone(keep, s[..|s| - 1]);
    }
  }

  lemma {:induction false} FilterSame(a: string -> bool, b: string -> bool, s: seq<string>)
    requires forall x | x in s :: a(x) == b(x)
    ensures Filter(a, s) == Filter(b, s)
    decreases |s|
  {
    if s != [] {
      FilterSame(a, b, s[..|s| - 1]);
    }
  }

  /** What a filter accepts is still there behind one that lets all of that through. */
  lemma {:induction false} FilterTwice(keep: string -> bool, first: string -> bool, s: seq<string>)
    requires forall x | x in s && keep(x) :: first(x)
    ensures Filter(keep, Filter(first, s)) == Filter(keep, s)
    decreases |s|
  {
    hide Filter;
    if s == [] {
      FilterNone(first, s);
      FilterNone(keep, s);
    } else {
      var n := |s| - 1;
      var init, x := s[..n], s[n];
      assert s == init + [x];
      FilterTwice(keep, first, init);
      FilterSnoc(first, init, x);
      FilterSnoc(keep, init, x);
      if first(x) {
        FilterSnoc(keep, Filter(first, init), x);
      } else {
        assert Filter(first, init) + [] == Filter(first, init);
      }
    }
  }
}
