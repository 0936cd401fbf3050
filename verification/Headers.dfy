/** Column headers of a table: their names, lowercase letters, digits and lone underscores
    cut to sixteen characters, and the tag families made of them for typed columns. Whether a
    family can be read back by the restore is decided by the first and the last character of
    the name. */
module Headers {
  import opened Text
  import opened Vault

  predicate IsWordChar(c: char) { IsDigit(c) || 'a' <= c <= 'z' }

  /** Lower-case letters, digits, and underscores that stand alone. */
  predicate IsName(n: string) {
    (forall i | 0 <= i < |n| :: IsWordChar(n[i]) || n[i] == '_')
    && forall i | 0 <= i < |n| - 1 :: !(n[i] == '_' && n[i + 1] == '_')
  }

  /** Every run of other characters becomes one underscore; `gap` says that one was just
      written. */
  function Collapse(s: string, gap: bool): (r: string)
    ensures IsName(r) && (gap && r != "" ==> r[0] != '_')
    decreases |s|
  {
    if s == "" then ""
    else if IsWordChar(s[0]) then [s[0]] + Collapse(s[1..], false)
    else if gap then Collapse(s[1..], true)
    else "_" + Collapse(s[1..], true)
  }

  function TrimLeft(s: string): (r: string)
    ensures |r| <= |s| && r == s[|s| - |r|..] && (r != "" ==> r[0] != '_')
    decreases |s|
  {
    if s != "" && s[0] == '_' then TrimLeft(s[1..]) else s
  }

  function TrimRight(s: string): (r: string)
    ensures r <= s && (r != "" ==> r[|r| - 1] != '_')
    decreases |s|
  {
    if s != "" && s[|s| - 1] == '_' then TrimRight(s[..|s| - 1]) else s
  }

  lemma PartIsName(s: string, i: nat, j: nat)
    requires IsName(s) && i <= j <= |s|
    ensures IsName(s[i..j]) && s[i..|s|] == s[i..] && s[0..j] == s[..j]
  {
    assert forall k | 0 <= k < j - i :: s[i..j][k] == s[i + k];
  }

  const HEADER_MAX := 16

  function Shortened(r: string): string { if |r| > HEADER_MAX then r[..HEADER_MAX] else r }

  lemma TrimmedIsName(s: string)
    requires IsName(s)
    ensures var n := Shortened(TrimRight(TrimLeft(s))); IsName(n) && |n| <= HEADER_MAX
  {
    hide IsName, TrimLeft, TrimRight;
    var l := TrimLeft(s);
    var r := TrimRight(l);
    PartIsName(s, |s| - |l|, |s|);
    PartIsName(l, 0, |r|);
    PartIsName(r, 0, |Shortened(r)|);
  }

  /** The name of a column; `lower` is the library's case folding. */
  function NormHeader(lower: string -> string, h: string): (n: string)
    ensures IsName(n) && |n| <= HEADER_MAX
  {
    var s := Collapse(lower(Strip(h)), false);
    TrimmedIsName(s);
    Shortened(TrimRight(TrimLeft(s)))
  }

  function UpperChar(c: char): (d: char)
    requires IsWordChar(c) || c == '_'
    ensures IsFamilyChar(d) && (d == '_' <==> c == '_') && (IsUpper(d) <==> 'a' <= c <= 'z')
  {
    if 'a' <= c <= 'z' then c - 'a' + 'A' else c
  }

  /** The family of a column's whole-cell tags. */
  function HeaderFamily(name: string): string
    requires IsName(name)
  {
    seq(|name|, i requires 0 <= i < |name| => UpperChar(name[i])) + "_"
  }

  /** It is a family that restoring can read exactly when the name starts with a letter and
      does not end at an underscore, as a name cut to sixteen characters can. */
  lemma HeaderFamilyIff(name: string)
    requires IsName(name) && 0 < |name| <= HEADER_MAX
    ensures IsPrefix(HeaderFamily(name)) <==> 'a' <= name[0] <= 'z' && name[|name| - 1] != '_'
  {
    var f := HeaderFamily(name);
    assert forall k | 0 <= k < |name| :: f[k] == UpperChar(name[k]);
    assert f[|name| - 1] == UpperChar(name[|name| - 1]) && f[|name|] == '_';
  }

  // ---------- what a name is made of ----------

  lemma {:induction false} NameCollapses(n: string, gap: bool)
    requires IsName(n) && (gap && n != "" ==> n[0] != '_')
    ensures Collapse(n, gap) == n
    decreases |n|
  {
    if n != "" {
      assert forall i | 0 <= i < |n[1..]| :: n[1..][i] == n[i + 1];
      NameCollapses(n[1..], n[0] == '_');
      assert [n[0]] + n[1..] == n;
    }
  }

  lemma CollapseStep(s: string, gap: bool)
    requires s != ""
    ensures Collapse(s, gap) == (if IsWordChar(s[0]) then [s[0]] else if gap then "" else "_")
                                + Collapse(s[1..], !IsWordChar(s[0]))
  {
    hide IsWordChar, IsName;
  }

  lemma {:induction false} CollapseJoins(a: string, b: string, gap: bool)
    requires a != ""
    ensures Collapse(a + b, gap) == Collapse(a, gap) + Collapse(b, !IsWordChar(a[|a| - 1]))
    decreases |a|
  {
    hide Collapse, IsWordChar, IsName;
    assert (a + b)[1..] == a[1..] + b && (a + b)[0] == a[0];
    CollapseStep(a + b, gap);
    CollapseStep(a, gap);
    var first := if IsWordChar(a[0]) then [a[0]] else if gap then "" else "_";
    if |a| == 1 {
      assert a[1..] == "" && a[1..] + b == b;
      NothingCollapses(!IsWordChar(a[0]));
      assert first + "" == first;
    } else {
      CollapseJoins(a[1..], b, !IsWordChar(a[0]));
      SumAssoc(first, Collapse(a[1..], !IsWordChar(a[0])), Collapse(b, !IsWordChar(a[|a| - 1])));
    }
  }

  lemma NothingCollapses(gap: bool)
    ensures Collapse("", gap) == ""
  {}

  lemma {:induction false} GapCollapses(g: string, gap: bool)
    requires g != "" && forall i | 0 <= i < |g| :: !IsWordChar(g[i])
    ensures Collapse(g, gap) == if gap then "" else "_"
    decreases |g|
  {
    if |g| > 1 {
      GapCollapses(g[1..], true);
    }
  }

  predicate NoWord(g: string) { forall i | 0 <= i < |g| :: !IsWordChar(g[i]) }

  /** Starts and ends with a letter or digit. */
  predicate Closed(n: string) { IsName(n) && n != "" && n[0] != '_' && n[|n| - 1] != '_' }

  lemma {:induction false} EdgesCollapse(g: string, n: string, e: string)
    requires NoWord(g) && NoWord(e) && Closed(n)
    ensures Collapse(g + n + e, false) == (if g == "" then "" else "_") + n + (if e == "" then "" else "_")
  {
    hide Collapse;
    assert g + n + e == g + (n + e) && e + "" == e;
    NameCollapses(n, g != "");
    CollapseJoins(n, e, g != "");
    EdgeCollapses(e, false);
    if g == "" {
      assert "" + (n + e) == n + e;
    } else {
      CollapseJoins(g, n + e, false);
      GapCollapses(g, false);
      assert "_" + (n + Collapse(e, false)) == "_" + n + Collapse(e, false);
    }
  }

  lemma EdgeCollapses(e: string, gap: bool)
    requires NoWord(e)
    ensures Collapse(e, gap) == if e == "" || gap then "" else "_"
  {
    if e != "" {
      GapCollapses(e, gap);
    }
  }

  lemma TrimsEdges(n: string, before: bool, behind: bool)
    requires Closed(n)
    ensures TrimRight(TrimLeft((if before then "_" else "") + n + (if behind then "_" else ""))) == n
  {
    hide IsName, TrimLeft, TrimRight;
    var r := n + if behind then "_" else "";
    var s := (if before then "_" else "") + n + (if behind then "_" else "");
    assert if before then s == "_" + r else s == r;
    assert r[0] == n[0];
    TrimLeftStep(r, before);
    TrimRightStep(n, behind);
  }

  lemma TrimLeftStep(r: string, before: bool)
    requires r != "" && r[0] != '_'
    ensures TrimLeft(if before then "_" + r else r) == r
  {
    if before {
      assert ("_" + r)[1..] == r;
    }
  }

  lemma TrimRightStep(n: string, behind: bool)
    requires n != "" && n[|n| - 1] != '_'
    ensures TrimRight(n + if behind then "_" else "") == n
  {
    if behind {
      assert (n + "_")[..|n|] == n;
    } else {
      assert n + "" == n;
    }
  }

  /** What stands around a name is dropped; the name is kept, up to sixteen characters. */
  lemma {:induction false} NameStays(lower: string -> string, h: string, g: string, n: string, e: string)
    requires lower(Strip(h)) == g + n + e && NoWord(g) && NoWord(e) && Closed(n)
    ensures NormHeader(lower, h) == if |n| > 16 then n[..16] else n
  {
    hide Collapse, Strip, TrimLeft, TrimRight;
    EdgesCollapse(g, n, e);
    TrimsEdges(n, g != "", e != "");
  }

  /** Two names with anything else between them are joined by one underscore. */
  lemma {:induction false} WordsJoin(lower: string -> string, h: string, a: string, g: string, b: string)
    requires lower(Strip(h)) == a + g + b && g != "" && |a| + 1 + |b| <= 16
    requires Closed(a) && Closed(b) && NoWord(g)
    ensures NormHeader(lower, h) == a + "_" + b
  {
    hide Collapse, Strip, TrimLeft, TrimRight;
    assert a + g + b == a + (g + b);
    CollapseJoins(a, g + b, false);
    CollapseJoins(g, b, false);
    GapCollapses(g, false);
    NameCollapses(a, false);
    NameCollapses(b, true);
    var r := a + ("_" + b);
    assert r == a + "_" + b && r[0] == a[0] && r[|r| - 1] == b[|b| - 1];
    TrimsNothing(r);
  }

  lemma TrimsNothing(r: string)
    requires r == "" || (r[0] != '_' && r[|r| - 1] != '_')
    ensures TrimLeft(r) == r && TrimRight(r) == r
  {}
}
