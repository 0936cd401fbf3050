/** The last step of sanitizing: with the tags blanked out, no vault value may be left. */
module NoLeak {
  import opened Text
  import opened Restore
  import opened Simultaneous
  import opened TagStore
  import opened Sweep
  import opened LeakCheck
  import opened Shapes
  import opened Order
  import opened Sanitize
  import opened RoundTrip
  import opened Repeats

  // ---------- what is left between the blanks ----------

  predicate HasBlank(w: string) { ' ' in w }

  predicate InLits(d: Doc, w: string) { Contains(d.lit, w) || (d.Seg? && InLits(d.rest, w)) }

  /** Every tag is of a listed family, with eight to twenty-four hex digits. */
  predicate Blankable(fams: seq<string>, d: Doc) {
    d.Seg? ==>
      FamPart(d.atom.tag) in fams && AllHex(CorePart(d.atom.tag)) && 8 <= |CorePart(d.atom.tag)| <= 24
      && Blankable(fams, d.rest)
  }

  function DropLit(d: Doc, k: nat): Doc
    requires k <= |d.lit|
  {
    d.(lit := d.lit[k..])
  }

  lemma DropLitIs(d: Doc, k: nat)
    requires k <= |d.lit|
    ensures Render(DropLit(d, k)) == Render(d)[k..]
  {
    if d.Seg? {
      assert (d.lit + (d.atom.tag + Render(d.rest)))[k..] == d.lit[k..] + (d.atom.tag + Render(d.rest));
    }
  }

  lemma ContainsDrop(l: string, k: nat, w: string)
    requires k <= |l| && Contains(l[k..], w)
    ensures Contains(l, w)
  {
    var i: nat :| i <= |l[k..]| && StandsAt(l[k..], w, i);
    assert l[k + i..k + i + |w|] == l[k..][i..i + |w|];
    assert StandsAt(l, w, k + i);
  }

  /** Families of which none, where it starts or ends in another, goes on in it with eight hex
      digits: so in particular families that keep apart, and families that end in each other. */
  predicate BlanksWhole(fams: seq<string>) {
    (forall f | f in fams :: IsFamily(f))
    && forall f, g, p: nat | f in fams && g in fams && p < |f| < p + |g| && f[p..] <= g :: HexRun(g[|f| - p..], 8) < 8
  }

  lemma DisjointedBlanks(fams: seq<string>)
    requires Disjointed(fams)
    ensures BlanksWhole(fams)
  {
    forall f, g, p: nat | f in fams && g in fams && p < |f| < p + |g| && f[p..] <= g
      ensures HexRun(g[|f| - p..], 8) < 8
    {
      assert Apart(f, g);
      if p > 0 {
        assert !CanBegin(f, p, g);
      } else {
        assert f[0..] == f;
      }
    }
  }

  lemma CoreAndMore(core: string, y: string, max: nat)
    requires AllHex(core) && |core| >= 8
    ensures HexRun(core + y, max) == if max <= |core| then max else |core| + HexRun(y, max - |core|)
  {
    var s := core + y;
    assert forall i | 0 <= i < |core| :: s[i] == core[i];
    if max <= |core| {
      HexRunIs(s, max, max);
    } else {
      var n := HexRun(y, max - |core|);
      assert forall i | 0 <= i < n :: s[|core| + i] == y[i] && y[..n][i] == y[i];
      assert s[..|core| + n] == core + y[..n];
      assert n < |y| ==> s[|core| + n] == y[n];
      HexRunIs(s, max, |core| + n);
    }
  }

  lemma TagIsThere(fam: string, core: string, y: string)
    requires AllHex(core) && |core| >= 8
    ensures HasTag(fam, fam + core + y)
  {
    var s := fam + core + y;
    assert s[..|fam|] == fam && s[|fam|..] == core + y;
    CoreAndMore(core, y, 8);
  }

  /** A blank from the start of a text does not end in a tag: it goes over all of it. */
  lemma BlankEndsAtTag(fams: seq<string>, f: string, s: string, g: string, core: string, b: nat)
    requires BlanksWhole(fams) && f in fams && g in fams && HasTag(f, s)
    requires StandsAt(s, g + core, b) && AllHex(core) && 8 <= |core| <= BLANK_MAX
    requires b < |f| + HexRun(s[|f|..], BLANK_MAX)
    ensures b + |g + core| <= |f| + HexRun(s[|f|..], BLANK_MAX)
  {
    hide HexRun, StandsAt, BlanksWhole;
    var e, n := |f|, |f| + HexRun(s[|f|..], BLANK_MAX);
    BlankChars(f, s);
    TagChars(s, g, core, b);
    Underscores(fams, f, g);
    assert s[b] == g[0] && !IsHex(s[b]);
    if b < e < b + |g| {
      EndsInFamily(f, s, g, b);
      GoesOn(fams, f, g, b);
      assert false;
    }
  }

  lemma Underscores(fams: seq<string>, f: string, g: string)
    requires BlanksWhole(fams) && f in fams && g in fams
    ensures f[|f| - 1] == '_' && IsUpper(g[0]) && g[|g| - 1] == '_' && f != "" && g != ""
  {}

  lemma BlankChars(f: string, s: string)
    requires HasTag(f, s)
    ensures var n := |f| + HexRun(s[|f|..], BLANK_MAX);
            |f| + 8 <= n <= |s| && (forall k | 0 <= k < |f| :: s[k] == f[k]) && (forall k | |f| <= k < n :: IsHex(s[k]))
            && (n < |f| + BLANK_MAX && n < |s| ==> !IsHex(s[n]))
  {
    var r := s[|f|..];
    var n := HexRun(r, BLANK_MAX);
    assert s[..|f|] == f;
    assert forall k | 0 <= k < n :: r[..n][k] == r[k] == s[|f| + k];
    assert n < |r| ==> r[n] == s[|f| + n];
    var m := HexRun(r, 8);
    assert forall k | 0 <= k < m :: r[..m][k] == r[k];
  }

  lemma TagChars(s: string, g: string, core: string, b: nat)
    requires StandsAt(s, g + core, b) && AllHex(core)
    ensures b + |g| + |core| <= |s|
    ensures forall k | 0 <= k < |g| :: s[b + k] == g[k]
    ensures forall k | b + |g| <= k < b + |g| + |core| :: IsHex(s[k])
  {
    var t := g + core;
    assert forall k | 0 <= k < |t| :: s[b..b + |t|][k] == t[k] && s[b..b + |t|][k] == s[b + k];
    assert forall k | 0 <= k < |core| :: t[|g| + k] == core[k];
  }

  lemma EndsInFamily(f: string, s: string, g: string, b: nat)
    requires b < |f| < b + |g| && |f| + 8 <= |s| && g[|g| - 1] == '_'
    requires forall k | 0 <= k < |f| :: s[k] == f[k]
    requires forall k | |f| <= k < |f| + 8 :: IsHex(s[k])
    requires b + |g| <= |s| && forall k | 0 <= k < |g| :: s[b + k] == g[k]
    ensures f[b..] <= g && HexRun(g[|f| - b..], 8) == 8
  {
    var e := |f|;
    assert s[b + |g| - 1] == '_';
    assert forall k | 0 <= k < e - b :: f[b..][k] == f[b + k] == s[b + k] == g[k];
    assert f[b..] == g[..e - b];
    var r := g[e - b..];
    assert forall k | 0 <= k < |r| :: r[k] == g[e - b + k] == s[e + k];
    HexRunIs(r, 8, 8);
  }

  lemma GoesOn(fams: seq<string>, f: string, g: string, p: nat)
    requires BlanksWhole(fams) && f in fams && g in fams && p < |f| < p + |g| && f[p..] <= g
    ensures HexRun(g[|f| - p..], 8) < 8
  {}

  lemma {:induction false} DropLitInLits(d: Doc, k: nat, w: string)
    requires k <= |d.lit| && InLits(DropLit(d, k), w)
    ensures InLits(d, w)
  {
    if Contains(d.lit[k..], w) {
      ContainsDrop(d.lit, k, w);
    }
  }

  /** Position `n` of the rendering lies in no tag. */
  predicate Between(d: Doc, n: int) {
    n <= |d.lit| || (d.Seg? && |d.lit| + |d.atom.tag| <= n && Between(d.rest, n - |d.lit| - |d.atom.tag|))
  }

  /** A blank from the start ends between tags. */
  lemma {:induction false} BlankEnds(fams: seq<string>, f: string, s: string, d: Doc, pos: nat)
    requires BlanksWhole(fams) && f in fams && HasTag(f, s) && Blankable(fams, d)
    requires pos <= |s| && s[pos..] == Render(d)
    ensures Between(d, |f| + HexRun(s[|f|..], BLANK_MAX) - pos)
    decreases d
  {
    hide HexRun, BlanksWhole, FamPart, CorePart;
    BlankChars(f, s);
    var n := |f| + HexRun(s[|f|..], BLANK_MAX);
    hide HasTag;
    assert d.End? ==> |Render(d)| == |d.lit|;
    if n - pos > |d.lit| && d.Seg? {
      var tag := d.atom.tag;
      TagOfParts(tag);
      var b := pos + |d.lit|;
      StandsInTail(s, pos, d);
      BlankEndsAtTag(fams, f, s, FamPart(tag), CorePart(tag), b);
      BlankEnds(fams, f, s, d.rest, b + |tag|);
    }
  }

  lemma StandsInTail(s: string, pos: nat, d: Doc)
    requires d.Seg? && pos <= |s| && s[pos..] == Render(d)
    ensures var b := pos + |d.lit|;
            StandsAt(s, d.atom.tag, b) && b + |d.atom.tag| <= |s| && s[b + |d.atom.tag|..] == Render(d.rest)
  {
    var b, w := pos + |d.lit|, d.lit + (d.atom.tag + Render(d.rest));
    assert s[b..b + |d.atom.tag|] == w[|d.lit|..|d.lit| + |d.atom.tag|] == d.atom.tag;
    assert s[b + |d.atom.tag|..] == w[|d.lit| + |d.atom.tag|..] == Render(d.rest);
  }

  /** The document from there on. */
  lemma {:induction false} DropDoc(fams: seq<string>, d: Doc, n: nat) returns (d2: Doc)
    requires Blankable(fams, d) && Between(d, n) && n <= |Render(d)|
    ensures Render(d2) == Render(d)[n..] && Blankable(fams, d2) && forall w :: InLits(d2, w) ==> InLits(d, w)
    ensures n <= |d.lit| ==> d2.lit == d.lit[n..]
    decreases d
  {
    hide FamPart, CorePart, Contains;
    if n <= |d.lit| {
      d2 := DropLit(d, n);
      DropLitIs(d, n);
      forall w | InLits(d2, w) ensures InLits(d, w) {
        DropLitInLits(d, n, w);
      }
    } else {
      var b := |d.lit| + |d.atom.tag|;
      d2 := DropDoc(fams, d.rest, n - b);
      BehindTag(d, n);
    }
  }

  lemma BehindTag(d: Doc, n: nat)
    requires d.Seg? && |d.lit| + |d.atom.tag| <= n <= |Render(d)|
    ensures Render(d)[n..] == Render(d.rest)[n - |d.lit| - |d.atom.tag|..]
  {}

  /** The document behind one step of the blanking. */
  lemma {:induction false} NextDoc(fams: seq<string>, d: Doc) returns (d2: Doc)
    requires BlanksWhole(fams) && Blankable(fams, d) && Render(d) != ""
    ensures Blankable(fams, d2) && forall w :: InLits(d2, w) ==> InLits(d, w)
    ensures var n := BlankLen(fams, Render(d));
            Render(d2) == Render(d)[if n > 0 then n else 1..]
            && (n == 0 ==> d.lit != "" && d2.lit == d.lit[1..])
  {
    hide FamPart, CorePart, InLits, BlanksWhole, Contains, HexRun, HasTag;
    var s := Render(d);
    var n := BlankLen(fams, s);
    var i := FirstFam(fams, s);
    if i < |fams| {
      BlankChars(fams[i], s);
      assert s[0..] == s;
      BlankEnds(fams, fams[i], s, d, 0);
      d2 := DropDoc(fams, d, n);
    } else {
      if d.lit == "" {
        HeadIsTag(fams, d);
        assert false;
      }
      d2 := DropDoc(fams, d, 1);
    }
  }

  lemma HeadIsTag(fams: seq<string>, d: Doc)
    requires Blankable(fams, d) && d.lit == "" && Render(d) != ""
    ensures FirstFam(fams, Render(d)) < |fams|
  {
    hide HexRun, HasTag, FamPart, CorePart;
    var fam, core := FamPart(d.atom.tag), CorePart(d.atom.tag);
    TagOfParts(d.atom.tag);
    TagIsThere(fam, core, Render(d.rest));
    assert Render(d) == fam + core + Render(d.rest);
  }

  lemma TagOfParts(tag: string)
    ensures FamPart(tag) + CorePart(tag) == tag
  {}

  /** Between the blanks there is nothing but pieces of literals; what stands before the
      first blank is how the first literal starts. */
  lemma {:induction false} OnlyLits(fams: seq<string>, d: Doc, i: nat, j: nat)
    requires BlanksWhole(fams) && Blankable(fams, d) && i <= j <= |Blanked(fams, Render(d))|
    requires !HasBlank(Blanked(fams, Render(d))[i..j])
    ensures InLits(d, Blanked(fams, Render(d))[i..j])
    ensures i == 0 ==> Blanked(fams, Render(d))[..j] <= d.lit
    decreases |Render(d)|
  {
    hide BlankLen, BlanksWhole, Blankable, InLits, Contains;
    var b := Blanked(fams, Render(d));
    if i == j {
      PrefixInLits(d, b[i..j]);
    } else {
      var n := BlankLen(fams, Render(d));
      var d2 := NextDoc(fams, d);
      var b2 := Blanked(fams, Render(d2));
      var x := if n > 0 then " " else d.lit[..1];
      assert b == x + b2;
      hide Blanked;
      if i > 0 {
        Behind(x, b2, i, j);
        OnlyLits(fams, d2, i - 1, j - 1);
      } else {
        WithFirst(x, b2, j);
        OnlyLits(fams, d2, 0, j - 1);
        assert d.lit[..1] + d.lit[1..] == d.lit;
        PrefixInLits(d, b[..j]);
      }
    }
  }

  lemma Behind(x: string, b: string, i: nat, j: nat)
    requires |x| == 1 && 1 <= i <= j <= 1 + |b|
    ensures (x + b)[i..j] == b[i - 1..j - 1]
  {}

  lemma WithFirst(x: string, b: string, j: nat)
    requires |x| == 1 && 1 <= j <= 1 + |b|
    ensures (x + b)[0..j] == (x + b)[..j] == x + b[..j - 1] && b[..j - 1] == b[0..j - 1]
    ensures !HasBlank((x + b)[0..j]) ==> !HasBlank(x) && !HasBlank(b[0..j - 1])
  {
    assert (x + b)[0..j] == x + b[0..j - 1];
  }

  lemma PrefixInLits(d: Doc, w: string)
    requires w <= d.lit
    ensures InLits(d, w)
  {
    assert StandsAt(d.lit, w, 0);
  }

  lemma {:induction false} NotInLits(d: Doc, values: seq<string>, v: string)
    requires LitsFree(d, values) && v in values && v != ""
    ensures !InLits(d, v)
    decreases d
  {
    if Contains(d.lit, v) {
      var i: nat :| i <= |d.lit| && StandsAt(d.lit, v, i);
      assert Occurs(values, d.lit, i, i + |v|);
    }
    if d.Seg? {
      NotInLits(d.rest, values, v);
    }
  }

  // ---------- when the check refuses a text that leaks nothing ----------

  /** Every tag is a well-formed family with eight to twenty-four hex digits. */
  predicate WideTags(d: Doc) {
    d.Seg? ==>
      IsFamily(FamPart(d.atom.tag)) && AllHex(CorePart(d.atom.tag)) && 8 <= |CorePart(d.atom.tag)| <= 24
      && WideTags(d.rest)
  }

  /** The families whose tags are blanked when the last check looks at the output. */
  function Fams(st: Store): seq<string> { Listing(CheckFams(st)) }

  lemma {:induction false} TagsAreBlankable(st: Store, d: Doc)
    requires Coherent(st) && AtomsHold(st, d) && WideTags(d)
    ensures Blankable(Fams(st), d)
    decreases d
  {
    hide Coherent, Families, Listing;
    if d.Seg? {
      FamilyRemembered(st, d.atom.tag);
      assert FamPart(d.atom.tag) in FamilyOf(d.atom.tag);
      TagsAreBlankable(st, d.rest);
    }
  }

  /** What the last check asks, of the document before it. */
  lemma CheckedIs(st: Store, s: string, prefix: string)
    requires Draft(st, s, prefix).Done?
    ensures var w := Draft(st, s, prefix);
            SanitizeText(st, s, prefix).Done? <==> !Leaks(Fams(w.st), w.st.values, Render(w.doc))
  {
    hide Draft, Leaks, Listing;
    var w := Draft(st, s, prefix);
    assert CheckFams(GetFams(w.st)) == CheckFams(w.st);
  }

  /** Between the tags of a sanitized text nothing is left, so when there is a family besides
      the default one the check can only refuse it for a value with a blank in it: one that the
      blank put in for a tag completes. */
  lemma {:induction false} RefusedOnlyForBlanks(st: Store, s: string, prefix: string, v: string)
    requires Coherent(st) && Draft(st, s, prefix).Done? && ExtraFree(Draft(st, s, prefix).st)
    requires var w := Draft(st, s, prefix);
             WideTags(w.doc) && BlanksWhole(Fams(w.st)) && |Fams(w.st)| > 1
             && v in st.values && v != "" && Contains(Searched(Fams(w.st), Render(w.doc)), v)
    ensures HasBlank(v)
  {
    hide Draft, Coherent, Blanked, BlanksWhole, InLits, Fams;
    DraftIsGood(st, s, prefix);
    var w := Draft(st, s, prefix);
    TagsAreBlankable(w.st, w.doc);
    var b := Blanked(Fams(w.st), Render(w.doc));
    var i: nat :| i <= |b| && StandsAt(b, v, i);
    if !HasBlank(v) {
      OnlyLits(Fams(w.st), w.doc, i, i + |v|);
      NotInLits(w.doc, st.values, v);
    }
  }

  // ---------- while there is only the default family ----------

  /** `w` reads like a default-family tag from its character `p` on. */
  predicate ReadsLikeTag(w: string, p: nat)
    requires p <= 4
  {
    Compatible(PWD[p..], w) && forall i | 4 - p <= i < 12 - p && i < |w| :: IsHex(w[i])
  }

  /** The value can take characters of a default-family tag: one starts in it, or it starts in
      one, in the family or in the core. */
  predicate MayTouch(v: string) {
    (exists k | 0 <= k < |v| :: ReadsLikeTag(v[k..], 0))
    || (exists p: nat | 1 <= p <= 3 :: ReadsLikeTag(v, p))
    || (v != "" && IsHex(v[0]))
  }

  /** A value that stands over a tag can. */
  lemma OverTag(s: string, v: string, i: nat, core: string, a: nat)
    requires v != "" && StandsAt(s, v, i) && StandsAt(s, PWD + core, a) && AllHex(core) && |core| >= 8
    requires i < a + 4 + |core| && a < i + |v|
    ensures MayTouch(v)
  {
    hide ReadsLikeTag, StandsAt;
    SameChars(s, v, i, PWD + core, a);
    if i <= a {
      SameAsTag(v[a - i..], core, 0);
    } else if i - a <= 3 {
      SameAsTag(v, core, i - a);
    } else {
      assert v[0] == (PWD + core)[i - a] == core[i - a - 4];
    }
  }

  lemma SameChars(s: string, v: string, i: nat, w: string, a: nat)
    requires StandsAt(s, v, i) && StandsAt(s, w, a)
    ensures forall x | 0 <= x < |v| && 0 <= i + x - a < |w| :: v[x] == w[i + x - a]
  {
    forall x | 0 <= x < |v| && 0 <= i + x - a < |w| ensures v[x] == w[i + x - a] {
      assert s[i..i + |v|][x] == s[i + x] == s[a..a + |w|][i + x - a];
    }
  }

  lemma SameAsTag(w: string, core: string, p: nat)
    requires p <= 4 && AllHex(core) && |core| >= 8
    requires forall x | 0 <= x < |w| && p + x < 4 + |core| :: w[x] == (PWD + core)[p + x]
    ensures ReadsLikeTag(w, p)
  {
    var t := PWD[p..];
    assert forall x | 0 <= x < |t| :: t[x] == PWD[p + x] == (PWD + core)[p + x];
    assert forall x | 4 <= x < 4 + |core| :: (PWD + core)[x] == core[x - 4];
    if |t| <= |w| {
      assert t == w[..|t|];
    } else {
      assert w == t[..|w|];
    }
  }

  lemma TagStands(d: Doc)
    requires d.Seg?
    ensures StandsAt(Render(d), d.atom.tag, |d.lit|)
  {
    assert Render(d)[|d.lit|..|d.lit| + |d.atom.tag|] == d.atom.tag;
  }

  lemma StandsBehind(d: Doc, w: string, a: nat)
    requires d.Seg? && StandsAt(Render(d.rest), w, a)
    ensures StandsAt(Render(d), w, |d.lit| + |d.atom.tag| + a)
  {
    var x := d.lit + d.atom.tag;
    SumAssoc(d.lit, d.atom.tag, Render(d.rest));
    SliceOfSum(x, Render(d.rest), |x| + a, |x| + a + |w|);
  }

  /** A tag that a value touches stands somewhere in the output. */
  lemma {:induction false} TouchedTag(d: Doc, i: int, j: int) returns (a: nat, core: string)
    requires Touches(d, i, j) && Blankable([PWD], d)
    ensures StandsAt(Render(d), PWD + core, a) && AllHex(core) && |core| >= 8 && i < a + 4 + |core| && a < j
    decreases d
  {
    hide FamPart, CorePart, Render, StandsAt, AllHex;
    var b := |d.lit| + |d.atom.tag|;
    TagOfParts(d.atom.tag);
    if i < b && |d.lit| < j {
      a, core := |d.lit|, CorePart(d.atom.tag);
      TagStands(d);
    } else {
      a, core := TouchedTag(d.rest, i - b, j - b);
      StandsBehind(d, PWD + core, a);
      a := a + b;
    }
  }

  lemma OneFamily(st: Store)
    ensures forall f :: f in Fams(st) <==> f in CheckFams(st)
    ensures CheckFams(st) == {PWD} ==> Fams(st) == [PWD]
    ensures CheckFams(st) != {PWD} ==> |Fams(st)| > 1
  {
    hide Listing;
    var l := Fams(st);
    assert PWD in l;
    if CheckFams(st) == {PWD} {
      LoneList(l, PWD);
    } else {
      var f :| f in CheckFams(st) && f != PWD;
      assert f in l;
    }
  }

  /** While there is no family but the default one, tags are searched too: only a value that
      can take characters of a default-family tag can be found. */
  lemma {:induction false} AloneOnlyForTouching(st: Store, s: string, prefix: string, v: string)
    requires Coherent(st) && Draft(st, s, prefix).Done? && ExtraFree(Draft(st, s, prefix).st)
    requires var w := Draft(st, s, prefix);
             WideTags(w.doc) && CheckFams(w.st) == {PWD}
             && v in st.values && v != "" && Contains(Searched(Fams(w.st), Render(w.doc)), v)
    ensures MayTouch(v)
  {
    hide Draft, Coherent, Touches, Fams, MayTouch, WideTags;
    DraftIsGood(st, s, prefix);
    var w := Draft(st, s, prefix);
    OneFamily(w.st);
    TagsAreBlankable(w.st, w.doc);
    var out := Render(w.doc);
    var i: nat :| i <= |out| && StandsAt(out, v, i);
    assert out[i..i + |v|] == v;
    Covered(w.doc, st.values, i, i + |v|);
    var a, core := TouchedTag(w.doc, i, i + |v|);
    OverTag(out, v, i, core, a);
  }

  /** The value may be found although it stands nowhere between the tags: it can take
      characters of a default-family tag while that is the only family, or it has a blank once
      there are others. */
  predicate AtRisk(fams: set<string>, v: string) { if fams == {PWD} then MayTouch(v) else HasBlank(v) }

  /** A vault without such values never has a text refused by the check. */
  lemma {:induction false} NeverRefused(st: Store, s: string, prefix: string)
    requires Coherent(st) && Draft(st, s, prefix).Done? && ExtraFree(Draft(st, s, prefix).st)
    requires var w := Draft(st, s, prefix);
             WideTags(w.doc) && BlanksWhole(Fams(w.st))
             && forall v | v in st.values && |v| >= 4 :: !AtRisk(CheckFams(w.st), v)
    ensures SanitizeText(st, s, prefix).Done?
  {
    hide SanitizeText, Draft, Coherent, Searched, BlanksWhole, WideTags, ExtraFree, HasBlank, MayTouch, Contains;
    hide Fams;
    DraftIsGood(st, s, prefix);
    CheckedIs(st, s, prefix);
    var w := Draft(st, s, prefix);
    OneFamily(w.st);
    forall v | v in st.values && |v| >= 4
      ensures !Contains(Searched(Fams(w.st), Render(w.doc)), v)
    {
      if Contains(Searched(Fams(w.st), Render(w.doc)), v) {
        if CheckFams(w.st) == {PWD} {
          AloneOnlyForTouching(st, s, prefix, v);
        } else {
          RefusedOnlyForBlanks(st, s, prefix, v);
        }
      }
    }
  }

  // ---------- texts that are refused ----------

  /** A text whose tags are all known, and with nothing to replace: it is put out as it is, or
      refused, by what the last check finds in it. */
  lemma {:induction false} KnownTextIff(st: Store, d: Doc, prefix: string)
    requires Separated(d) && ShapelessLits(d) && NoTagIsValue(d, st.values)
    requires LitsFree(d, st.values) && Known(TablesOf(st), d)
    ensures var w := SanitizeText(st, Render(d), prefix);
            (w.Done? <==> !Leaks(Fams(st), st.values, Render(d)))
            && (w.Done? ==> Render(w.doc) == Render(d) && Changes(w.doc) == 0) && Alike(w.st, st)
  {
    hide Process, Segment, Separated, ShapelessLits, NoTagIsValue, LitsFree, Leaks, Listing;
    var a := GetFams(st);
    SanitizeAlike(st, a, Render(d), prefix);
    SegmentsDoc(st.values, d);
    KnownSame(TablesOf(st), Tables(a.tags, map[]), d);
    ProcessKeeps(a, d, a.tags, prefix);
    KeptIs(d);
    assert CheckFams(GetFams(a)) == CheckFams(st);
  }

  lemma {:induction false} KnownSame(t: Tables, u: Tables, d: Doc)
    requires t.tags == u.tags && Known(t, d)
    ensures Known(u, d)
    decreases d
  {
    if d.Seg? {
      KnownSame(t, u, d.rest);
    }
  }

  predicate FoundIn(values: seq<string>, s: string) {
    exists v | v in values :: |v| >= 4 && Contains(s, v)
  }

  /** Of the listed families the first with a tag at the head is the tag's own. */
  predicate ReadAs(fams: seq<string>, fam: string, core: string, y: string) {
    var i := FirstFam(fams, fam + core + y);
    i < |fams| && fams[i] == fam
  }

  /** One known tag in a text without anything else to protect or to replace. With the default
      family alone the call is refused exactly when a longer value stands in the text, so in or
      over the tag; with others exactly when one stands in the text with a blank for the tag. */
  lemma {:induction false} OneTagIff(st: Store, x: string, fam: string, core: string, y: string, prefix: string)
    requires IsTag(fam, core) && fam + core in st.tags && fam + core !in st.values && Follows(core, y)
    requires Shapeless(x) && Shapeless(y) && NoValue(st.values, x) && NoValue(st.values, y)
    requires x == "" || !IsFamilyChar(x[|x| - 1])
    requires ReadAs(Fams(st), fam, core, y)
    requires forall i | 0 <= i < |x| :: FirstFam(Fams(st), x[i..] + (fam + core + y)) == |Fams(st)|
    requires forall i | 0 <= i < |y| :: FirstFam(Fams(st), y[i..] + "") == |Fams(st)|
    ensures SanitizeText(st, x + (fam + core + y), prefix).Failed?
       <==> FoundIn(st.values, if CheckFams(st) == {PWD} then x + (fam + core + y) else x + (" " + y))
  {
    hide ReadAs, FirstFam, Shapeless, NoValue, SanitizeText, Fams, Contains;
    var d := Seg(x, Atom(fam + core, fam + core, true), End(y));
    OneTagDoc(st, x, fam, core, y);
    KnownTextIff(st, d, prefix);
    OneFamily(st);
    BlankedOne(Fams(st), x, fam, core, y);
  }

  lemma OneTagDoc(st: Store, x: string, fam: string, core: string, y: string)
    requires IsTag(fam, core) && fam + core in st.tags && fam + core !in st.values && Follows(core, y)
    requires Shapeless(x) && Shapeless(y) && NoValue(st.values, x) && NoValue(st.values, y)
    requires x == "" || !IsFamilyChar(x[|x| - 1])
    ensures var d := Seg(x, Atom(fam + core, fam + core, true), End(y));
            Render(d) == x + (fam + core + y) && Separated(d) && ShapelessLits(d) && NoTagIsValue(d, st.values)
            && LitsFree(d, st.values) && Known(TablesOf(st), d)
  {
    hide Shapeless, NoValue;
    FamilyEndIs(fam, core);
    assert FamPart(fam + core) == fam && CorePart(fam + core) == core;
  }

  lemma {:induction false} BlankedOne(fams: seq<string>, x: string, fam: string, core: string, y: string)
    requires ReadAs(fams, fam, core, y) && IsTag(fam, core) && (y == "" || !IsHex(y[0]))
    requires forall i | 0 <= i < |x| :: FirstFam(fams, x[i..] + (fam + core + y)) == |fams|
    requires forall i | 0 <= i < |y| :: FirstFam(fams, y[i..] + "") == |fams|
    ensures Blanked(fams, x + (fam + core + y)) == x + (" " + y)
  {
    hide FirstFam;
    var t := fam + core + y;
    BlankCopies(fams, x, t);
    assert t[..|fam|] == fam && t[|fam|..] == core + y && t[|fam| + |core|..] == y;
    CoreAndMore(core, y, BLANK_MAX);
    BlankCopies(fams, y, "");
    assert y + "" == y;
    assert HexRun(y, BLANK_MAX - |core|) == 0;
  }

  lemma {:induction false} BlankCopies(fams: seq<string>, w: string, y: string)
    requires forall i | 0 <= i < |w| :: FirstFam(fams, w[i..] + y) == |fams|
    ensures Blanked(fams, w + y) == w + Blanked(fams, y)
    decreases |w|
  {
    hide FirstFam, Blanked;
    if w == "" {
      assert w + y == y && w + Blanked(fams, y) == Blanked(fams, y);
    } else {
      assert w[0..] == w;
      assert FirstFam(fams, w[0..] + y) == |fams|;
      BlankCopiesOne(fams, w, y);
      forall i | 0 <= i < |w[1..]| ensures FirstFam(fams, w[1..][i..] + y) == |fams| {
        assert w[1..][i..] == w[i + 1..];
      }
      BlankCopies(fams, w[1..], y);
      SumAssoc(w[..1], w[1..], Blanked(fams, y));
      assert w[..1] + w[1..] == w;
    }
  }

  lemma BlankCopiesOne(fams: seq<string>, w: string, y: string)
    requires w != "" && FirstFam(fams, w + y) == |fams|
    ensures Blanked(fams, w + y) == w[..1] + Blanked(fams, w[1..] + y)
  {
    DropSum(w, y, 1);
  }
}
