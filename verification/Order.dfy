/** Code-point order of strings, as `sorted` compares them: the order itself, sorting a list by
    insertion, and the one sorted list of the members of a set. Imported cells, persisted cells
    and the families that the last check blanks are all listed in this order, and nothing here
    knows what the strings stand for. */
module Order {
  import opened Restore

  predicate LexLe(a: string, b: string)
    decreases |a|
  {
    a == "" || (b != "" && (a[0] < b[0] || (a[0] == b[0] && LexLe(a[1..], b[1..]))))
  }

  lemma {:induction false} LexTotal(a: string, b: string)
    ensures LexLe(a, b) || LexLe(b, a)
    decreases |a|
  {
    if a != "" && b != "" && a[0] == b[0] {
      LexTotal(a[1..], b[1..]);
    }
  }

  lemma {:induction false} LexTransitive(a: string, b: string, c: string)
    requires LexLe(a, b) && LexLe(b, c)
    ensures LexLe(a, c)
    decreases |a|
  {
    if a != "" && a[0] == b[0] && b[0] == c[0] {
      LexTransitive(a[1..], b[1..], c[1..]);
    }
  }

  lemma {:induction false} LexSame(a: string, b: string)
    requires LexLe(a, b) && LexLe(b, a)
    ensures a == b
    decreases |a|
  {
    if a != "" {
      LexSame(a[1..], b[1..]);
      assert a == [a[0]] + a[1..] && b == [b[0]] + b[1..];
    }
  }

  // ---------- lists ----------

  function InsertLex(v: string, vs: seq<string>): (r: seq<string>)
    ensures forall x :: x in r <==> x == v || x in vs
    ensures Distinct(vs) && v !in vs ==> Distinct(r)
    decreases |vs|
  {
    if vs == [] || LexLe(v, vs[0]) then [v] + vs
    else
      assert vs == [vs[0]] + vs[1..];
      var r := InsertLex(v, vs[1..]);
      assert Distinct(vs) ==> Distinct(vs[1..]) && vs[0] !in vs[1..];
      assert Distinct(r) && vs[0] !in r ==> Distinct([vs[0]] + r);
      [vs[0]] + r
  }

  function SortLex(vs: seq<string>): (r: seq<string>)
    ensures forall x :: x in r <==> x in vs
    ensures Distinct(vs) ==> Distinct(r)
    decreases |vs|
  {
    if vs == [] then []
    else
      assert vs == [vs[0]] + vs[1..];
      InsertLex(vs[0], SortLex(vs[1..]))
  }

  lemma LoneList(l: seq<string>, x: string)
    requires Distinct(l) && x in l && forall v | v in l :: v == x
    ensures l == [x]
  {
    assert |l| > 1 ==> l[0] != l[1];
    forall k | 0 <= k < |l| ensures l[k] == x {
      assert l[k] in l;
    }
  }

  // ---------- sets ----------

  predicate IsLeast(m: string, s: set<string>) { m in s && forall x | x in s :: LexLe(m, x) }

  lemma {:induction false} LeastExists(s: set<string>)
    requires s != {}
    ensures exists m :: IsLeast(m, s)
    decreases |s|
  {
    var x :| x in s;
    var rest := s - {x};
    LexTotal(x, x);
    if rest == {} {
      assert s == {x};
      assert IsLeast(x, s);
    } else {
      LeastExists(rest);
      var m :| IsLeast(m, rest);
      LexTotal(x, m);
      if LexLe(m, x) {
        assert IsLeast(m, s);
      } else {
        forall y | y in s ensures LexLe(x, y) {
          if y != x {
            LexTransitive(x, m, y);
          }
        }
        assert IsLeast(x, s);
      }
    }
  }

  lemma LeastIsOne(s: set<string>)
    ensures forall m, n | IsLeast(m, s) && IsLeast(n, s) :: m == n
  {
    forall m, n | IsLeast(m, s) && IsLeast(n, s) ensures m == n {
      LexSame(m, n);
    }
  }

  /** The members, each once, in code-point order. */
  function Listing(s: set<string>): (l: seq<string>)
    ensures Distinct(l) && forall x :: x in l <==> x in s
    decreases |s|
  {
    if s == {} then []
    else
      LeastExists(s);
      LeastIsOne(s);
      var m :| IsLeast(m, s);
      [m] + Listing(s - {m})
  }

  lemma ListingFirst(s: set<string>)
    requires s != {}
    ensures var l := Listing(s);
            l != [] && IsLeast(l[0], s) && l[1..] == Listing(s - {l[0]})
  {
    hide LexLe, IsLeast, Distinct;
    LeastExists(s);
  }

  lemma ListingStarts(s: set<string>, x: string)
    requires x in s
    ensures LexLe(Listing(s)[0], x)
  {
    hide LexLe, Distinct;
    ListingFirst(s);
  }

  lemma {:induction false} ListingAscends(s: set<string>)
    ensures var l := Listing(s);
            forall i, j | 0 <= i < j < |l| :: LexLe(l[i], l[j])
    decreases |s|
  {
    hide LexLe, Distinct, IsLeast;
    if s != {} {
      var l := Listing(s);
      ListingFirst(s);
      LeastIsIn(l[0], s);
      hide Listing;
      ListingAscends(s - {l[0]});
      forall i, j | 0 <= i < j < |l| ensures LexLe(l[i], l[j]) {
        if i > 0 {
          assert l[1..][i - 1] == l[i] && l[1..][j - 1] == l[j];
        } else {
          assert l[j] in l;
          ListingStarts(s, l[j]);
        }
      }
    }
  }

  lemma LeastIsIn(m: string, s: set<string>)
    requires IsLeast(m, s)
    ensures m in s
  {}
}
