/** The round trip of ordinary texts: conditions that can be read off the text and the state
    before the call. */
module PlainTexts {
  import opened Text
  import opened Restore
  import opened TagStore
  import opened StoreRuns
  import opened Sweep
  import opened Shapes
  import opened LeakCheck
  import opened Sanitize
  import opened RoundTrip
  import opened Cells
  import opened Repeats
  import opened RowsBack
  import opened Retags

  // ---------- the text ----------

  /** Nothing in the text looks like a tag, of whatever family. */
  predicate ShapeFree(s: string) {
    forall i | 0 <= i < |s| :: RawLen(s[i..]) == 0 && TokenAt(s[i..]).None?
  }

  /** No family character in front of a picked value, no family character and no hex digit
      behind it, and no two picks that touch. */
  predicate Bounded(s: string, ps: seq<Span>)
    decreases |ps|
  {
    ps == [] || (
      var a, b := ps[0].start, ps[0].end;
      a <= b <= |s|
      && (a > 0 ==> !IsFamilyChar(s[a - 1]))
      && (b < |s| ==> !IsFamilyChar(s[b]) && !IsHex(s[b]))
      && (|ps| > 1 ==> b < ps[1].start)
      && Bounded(s, ps[1..]))
  }

  // ---------- the state ----------

  /** The value has a tag already that it will be given, and that can be read back: its
      whole-cell tag, or a default one. */
  predicate OwnTag(st: Store, v: string, prefix: string) {
    if v in st.extra then WholeTag(st.extra[v]) && st.extra[v] in st.tags && st.tags[st.extra[v]] == v
    else FamilyFor(st, v, prefix) == PWD && (Holds(st, v, 4) || Holds(st, v, 6))
  }

  /** The shortest tag of the family that the value will be given. */
  function NewTag(st: Store, v: string, prefix: string): string { FamilyFor(st, v, prefix) + Core(st, v, 4) }

  /** Or it will be minted one of another family, and the shortest is free or its own. */
  predicate MintsTag(st: Store, v: string, prefix: string) {
    v !in st.extra && FamilyFor(st, v, prefix) != PWD && IsFamily(FamilyFor(st, v, prefix))
    && Free(st, NewTag(st, v, prefix), v)
  }

  /** Every value has a readable tag or will be minted one, and no two values, and no value and
      a whole cell, would be minted the same. */
  ghost predicate Taggable(st: Store, prefix: string) {
    (forall v | v in st.values && v != "" :: OwnTag(st, v, prefix) || MintsTag(st, v, prefix))
    && (forall v | v in st.values && MintsTag(st, v, prefix) :: Unshared(st, v, prefix))
    && ExtraFree(st)
  }

  ghost predicate Unshared(st: Store, v: string, prefix: string) {
    (forall u | u in st.values && u != v && MintsTag(st, u, prefix) :: NewTag(st, u, prefix) != NewTag(st, v, prefix))
    && (forall u | u in st.extra :: st.extra[u] != NewTag(st, v, prefix))
  }

  /** The foreign tokens will be given readable tags, of their own and of no value or whole cell. */
  ghost predicate Retaggable(st: Store, toks: set<string>, prefix: string) {
    (toks != {} ==> IsFamily(OrDefault(prefix)))
    && (forall tok | tok in toks :: OneFree(st, tok, prefix) && Unclaimed(st, tok, toks, prefix))
  }

  ghost predicate Unclaimed(st: Store, tok: string, toks: set<string>, prefix: string) {
    (forall u | u in toks && u != tok :: NewToken(st, u, prefix) != NewToken(st, tok, prefix))
    && Harmless(st, NewToken(st, tok, prefix), tok, prefix)
  }

  /** The tag is there already, or no other value would be minted it and no whole cell has it. */
  ghost predicate Harmless(st: Store, tag: string, v: string, prefix: string) {
    tag in st.tags
    || ((forall u | u in st.values && u != v && MintsTag(st, u, prefix) :: NewTag(st, u, prefix) != tag)
        && (forall u | u in st.extra :: st.extra[u] != tag))
  }

  lemma SameNewTags(a: Store, b: Store, prefix: string)
    requires SameKeys(a, b) && SameCells(a, b)
    ensures forall u :: NewTag(b, u, prefix) == NewTag(a, u, prefix)
    ensures forall u :: FamilyFor(b, u, prefix) == FamilyFor(a, u, prefix)
    ensures forall u, n: Width :: Core(b, u, n) == Core(a, u, n)
  {}

  /** What is minted for one value or token leaves the others as they were. */
  lemma {:induction false} TaggableStays(a: Store, b: Store, tag: string, v: string, prefix: string)
    requires Taggable(a, prefix) && AddsAtMost(a, b, tag, v) && Harmless(a, tag, v, prefix)
    ensures Taggable(b, prefix)
  {
    hide WholeTag, IsFamily;
    SameNewTags(a, b, prefix);
    hide NewTag, FamilyFor;
    forall u | u in b.values && u != "" ensures OwnTag(b, u, prefix) || MintsTag(b, u, prefix) {
      MintsStays(a, b, tag, v, u, prefix);
    }
    forall u | u in b.values && MintsTag(b, u, prefix) ensures Unshared(b, u, prefix) {
      MintedBefore(a, b, u, prefix);
      assert Unshared(a, u, prefix);
      forall w | w in b.values && w != u && MintsTag(b, w, prefix)
        ensures NewTag(b, w, prefix) != NewTag(b, u, prefix)
      {
        MintedBefore(a, b, w, prefix);
      }
    }
    forall u | u in b.extra ensures Free(b, b.extra[u], u) {
      assert Free(a, a.extra[u], u);
    }
  }

  lemma MintedBefore(a: Store, b: Store, u: string, prefix: string)
    requires SameKeys(a, b) && SameCells(a, b) && (forall k | k in a.tags :: k in b.tags && b.tags[k] == a.tags[k])
    requires MintsTag(b, u, prefix)
    ensures MintsTag(a, u, prefix)
  {
    hide IsFamily;
    SameNewTags(a, b, prefix);
  }

  lemma MintsStays(a: Store, b: Store, tag: string, v: string, u: string, prefix: string)
    requires Taggable(a, prefix) && u in a.values && u != "" && AddsAtMost(a, b, tag, v)
    requires Harmless(a, tag, v, prefix)
    ensures OwnTag(b, u, prefix) || MintsTag(b, u, prefix)
  {
    hide WholeTag, IsFamily;
    SameNewTags(a, b, prefix);
    if OwnTag(a, u, prefix) {
      assert OwnTag(b, u, prefix);
    } else {
      assert MintsTag(a, u, prefix);
    }
  }

  /** The tokens too. */
  lemma {:induction false} RetaggableStays(a: Store, b: Store, tag: string, v: string, toks: set<string>,
                                           prefix: string)
    requires Retaggable(a, toks, prefix) && AddsAtMost(a, b, tag, v)
    requires tag in a.tags || forall u | u in toks && u != v :: NewToken(a, u, prefix) != tag
    ensures Retaggable(b, toks, prefix)
  {
    hide NewToken, OneFree, IsFamily, NewTag, MintsTag;
    forall tok | tok in toks
      ensures OneFree(b, tok, prefix) && NewToken(b, tok, prefix) == NewToken(a, tok, prefix)
    {
      NewTokenStays(a, b, tag, v, tok, prefix);
    }
    forall tok | tok in toks ensures Unclaimed(b, tok, toks, prefix) {
      assert Unclaimed(a, tok, toks, prefix);
      HarmlessStays(a, b, tag, v, NewToken(a, tok, prefix), tok, prefix);
    }
  }

  lemma HarmlessStays(a: Store, b: Store, tag: string, v: string, k: string, tok: string, prefix: string)
    requires Harmless(a, k, tok, prefix) && AddsAtMost(a, b, tag, v)
    ensures Harmless(b, k, tok, prefix)
  {
    hide NewTag, MintsTag;
    SameNewTags(a, b, prefix);
    if k !in b.tags {
      forall u | u in b.values && u != tok && MintsTag(b, u, prefix) ensures NewTag(b, u, prefix) != k {
        MintedBefore(a, b, u, prefix);
      }
    }
  }

  /** What a value is given next: a tag of its own, or the one it would be minted. */
  ghost predicate Given(a: Store, b: Store, tag: string, v: string, prefix: string) {
    AddsAtMost(a, b, tag, v) && (tag in a.tags || (MintsTag(a, v, prefix) && tag == NewTag(a, v, prefix)))
  }

  lemma GivenKeeps(a: Store, b: Store, tag: string, v: string, toks: set<string>, prefix: string)
    requires Taggable(a, prefix) && v in a.values && Given(a, b, tag, v, prefix)
    ensures Taggable(b, prefix)
    ensures Retaggable(a, toks, prefix) && v !in toks ==> Retaggable(b, toks, prefix)
  {
    hide NewToken, OneFree, IsFamily, NewTag, MintsTag, OwnTag, Retaggable;
    if tag !in a.tags {
      assert Unshared(a, v, prefix);
    }
    TaggableStays(a, b, tag, v, prefix);
    if Retaggable(a, toks, prefix) && v !in toks {
      if tag !in a.tags {
        TokensApart(a, tag, v, toks, prefix);
      }
      RetaggableStays(a, b, tag, v, toks, prefix);
    }
  }

  lemma TokensApart(a: Store, tag: string, v: string, toks: set<string>, prefix: string)
    requires Retaggable(a, toks, prefix) && v in a.values && v !in toks && tag !in a.tags
    requires MintsTag(a, v, prefix) && tag == NewTag(a, v, prefix)
    ensures forall u | u in toks :: NewToken(a, u, prefix) != tag
  {
    hide NewToken, OneFree, IsFamily, NewTag, MintsTag;
    forall u | u in toks ensures NewToken(a, u, prefix) != tag {
      assert Unclaimed(a, u, toks, prefix);
    }
  }

  /** A foreign token is given a tag that can be read, and the others keep what they have. */
  lemma {:induction false} TokenIsReadable(st: Store, tok: string, toks: set<string>, prefix: string)
    requires Coherent(st) && Taggable(st, prefix) && Retaggable(st, toks, prefix) && tok in toks
    ensures var m := Retag(st, tok, prefix);
            m.tag.Some? && WholeTag(m.tag.value) && Taggable(m.st, prefix) && Retaggable(m.st, toks, prefix)
            && Coherent(m.st) && Later(st, m.st)
  {
    hide WholeTag, Retag, Taggable, Coherent, NewToken, OneFree, IsFamily;
    RetagReadableIff(st, tok, prefix);
    RetagAddsAtMost(st, tok, prefix);
    var m := Retag(st, tok, prefix);
    assert Unclaimed(st, tok, toks, prefix);
    TaggableStays(st, m.st, m.tag.value, tok, prefix);
    RetaggableStays(st, m.st, m.tag.value, tok, toks, prefix);
  }

  /** Such a value is given a tag that can be read, and the others keep what they have. */
  lemma {:induction false} TagIsReadable(st: Store, v: string, prefix: string)
    requires Coherent(st) && Taggable(st, prefix) && v in st.values && v != ""
    ensures var m := TagValue(st, v, prefix);
            m.tag.Some? && WholeTag(m.tag.value) && Given(st, m.st, m.tag.value, v, prefix)
            && Coherent(m.st) && Later(st, m.st)
  {
    hide WholeTag, Holds, Taggable, Coherent;
    TagValueHolds(st, v, prefix);
    TagValueKeepsCells(st, v, prefix);
    TaggableMeans(st, v, prefix);
    var m := TagValue(st, v, prefix);
    if v in st.extra {
      assert AddsAtMost(st, m.st, st.extra[v], v);
    } else if OwnTag(st, v, prefix) {
      var n: Width := if Holds(st, v, 4) then 4 else 6;
      RegisteredSome(st, v);
      RegisteredKeeps(st, v, LOAD_WIDTHS);
      DefaultIsWhole(Core(st, v, n));
      var tag := PWD + Core(st, v, n);
      assert tag in st.tags by { assert Holds(st, v, n); HoldsIn(st, v, n); }
    } else {
      FirstIsMinted(st, v, prefix);
      MintedIsWhole(FamilyFor(st, v, prefix), Core(st, v, 4));
    }
  }

  lemma HoldsIn(st: Store, v: string, n: Width)
    requires Holds(st, v, n)
    ensures PWD + Core(st, v, n) in st.tags
  {}

  lemma TaggableMeans(st: Store, v: string, prefix: string)
    requires Taggable(st, prefix) && v in st.values && v != ""
    ensures OwnTag(st, v, prefix) || MintsTag(st, v, prefix)
  {
    hide OwnTag, MintsTag;
  }

  lemma FirstIsMinted(st: Store, v: string, prefix: string)
    requires MintsTag(st, v, prefix)
    ensures var m := TagValue(st, v, prefix);
            m.tag == Some(NewTag(st, v, prefix)) && AddsAtMost(st, m.st, NewTag(st, v, prefix), v)
  {
    hide IsFamily;
    TagValueKeepsCells(st, v, prefix);
    assert MINT_WIDTHS[0] == 4;
  }

  lemma MintedIsWhole(fam: string, core: string)
    requires IsFamily(fam) && AllHex(core) && |core| == 8
    ensures WholeTag(fam + core)
  {
    PartsOfTagAre(fam, core);
  }

  lemma DefaultIsWhole(core: string)
    requires AllHex(core) && 8 <= |core| <= 12
    ensures WholeTag(PWD + core)
  {
    assert IsTag(PWD, core);
    PartsOfTagAre(PWD, core);
  }

  // ---------- the document ----------

  /** What starts no token in a text starts none when the text is cut off. */
  lemma {:induction false} CutToken(l: string, y: string)
    requires TokenAt(l).Some?
    ensures TokenAt(l + y).Some?
  {
    var k := TokenAt(l).value.core;
    TokenIs(l, FamilyRun(l));
    FamilyRunIs(l);
    FamilyRunIs(l + y);
    assert FamilyUpTo(l + y, FamilyRun(l)) by { assert forall i | 0 <= i < |l| :: (l + y)[i] == l[i]; }
    DropSum(l, y, k);
    LongerRun(l[k..], y);
    assert (l + y)[k - 1] == l[k - 1];
    hide FamilyRun, HexRun, TokenFrom;
    LongestTokenWins(l + y, FamilyRun(l + y), k);
  }

  lemma {:induction false} TokenIs(s: string, e: nat)
    requires e <= |s| && TokenFrom(s, e).Some?
    ensures var k := TokenFrom(s, e).value.core; 0 < k <= e && s[k - 1] == '_' && HexRun(s[k..], 12) >= 8
    decreases e
  {
    hide HexRun;
    if !(s[e - 1] == '_' && HexRun(s[e..], 12) >= 8) {
      TokenIs(s, e - 1);
    }
  }

  lemma LongerRun(s: string, y: string)
    requires HexRun(s, 12) >= 8
    ensures HexRun(s + y, 12) >= 8
  {
    var n := HexRun(s, 12);
    assert forall i | 0 <= i < 8 :: s[..n][i] == s[i] && (s + y)[i] == s[i];
    HexRunIs(s + y, 8, 8);
    HexRunBounds(s + y);
  }

  lemma {:induction false} PieceIsQuiet(t: Tables, s: string, i: nat, k: nat)
    requires ShapeFree(s) && i <= k <= |s|
    ensures Quiet(t, s[i..k])
  {
    hide TokenAt, RawLen;
    var l := s[i..k];
    forall j | 0 <= j < |l| ensures QuietAt(t, l[j..]) {
      assert s[i + j..] == l[j..] + s[k..];
      if TokenAt(l[j..]).Some? {
        CutToken(l[j..], s[k..]);
      }
    }
  }

  /** The document can be read back, and all its tags are new. */
  predicate Reads(t: Tables, d: Doc) { Separated(d) && QuietLits(t, d) && Fresh(d) }

  function LastLit(d: Doc): string { if d.End? then d.lit else LastLit(d.rest) }

  /** Where the text behind the last pick starts. */
  function EndOf(i: nat, ps: seq<Span>): int { if ps == [] then i else ps[|ps| - 1].end }

  lemma EndOfRest(i: nat, ps: seq<Span>)
    requires ps != []
    ensures forall b: nat | b == ps[0].end :: EndOf(b, ps[1..]) == EndOf(i, ps)
  {}

  lemma {:induction false} EndIsInside(ps: seq<Span>, values: seq<string>, s: string, i: nat)
    requires InOrder(ps, values, s, i) && i <= |s|
    ensures i <= EndOf(i, ps) <= |s|
    decreases |ps|
  {
    if ps != [] {
      EndIsInside(ps[1..], values, s, ps[0].end);
      EndOfRest(i, ps);
    }
  }

  /** A state from which texts with these foreign tokens can go through. */
  ghost predicate Ready(st: Store, toks: set<string>, prefix: string) {
    Coherent(st) && Taggable(st, prefix) && Retaggable(st, toks, prefix) && forall v | v in st.values :: v !in toks
  }

  lemma ReadyAfterValue(st: Store, v: string, toks: set<string>, prefix: string)
    requires Ready(st, toks, prefix) && v in st.values && v != ""
    ensures var m := TagValue(st, v, prefix);
            m.tag.Some? && WholeTag(m.tag.value) && Ready(m.st, toks, prefix) && m.st.values == st.values
  {
    hide TagValue, Taggable, Coherent, Retaggable, WholeTag;
    TagIsReadable(st, v, prefix);
    var m := TagValue(st, v, prefix);
    GivenKeeps(st, m.st, m.tag.value, v, toks, prefix);
  }

  /** The document of such a text can be read back with any tables. */
  lemma {:induction false} ReplaceReads(st: Store, s: string, i: nat, ps: seq<Span>, prefix: string, t: Tables,
                                        toks: set<string>)
    requires Ready(st, toks, prefix) && ShapeFree(s) && i <= |s|
    requires InOrder(ps, st.values, s, i) && Bounded(s, ps)
    ensures var w := Replace(st, s, i, ps, prefix);
            w.Done? && Ready(w.st, toks, prefix) && Reads(t, w.doc) && w.st.values == st.values
            && w.doc.lit == s[i..if ps == [] then |s| else ps[0].start] && (ps == [] <==> w.doc.End?)
            && 0 <= EndOf(i, ps) <= |s| && LastLit(w.doc) == s[EndOf(i, ps)..]
    decreases |ps|
  {
    hide TagValue, ShapeFree, Ready, Quiet, WholeTag, Reads, IsFamilyChar, IsHex, Render;
    EndIsInside(ps, st.values, s, i);
    if ps == [] {
      PieceIsQuiet(t, s, i, |s|);
      assert s[i..|s|] == s[i..];
      EndReads(t, s[i..]);
    } else {
      var a, b := ps[0].start, ps[0].end;
      var v := s[a..b];
      var m := TagValue(st, v, prefix);
      ReadyAfterValue(st, v, toks, prefix);
      TagValueKeepsVault(st, v, prefix);
      ReplaceReads(m.st, s, b, ps[1..], prefix, t, toks);
      PieceIsQuiet(t, s, i, a);
      var w := Replace(m.st, s, b, ps[1..], prefix);
      NextBounded(s, b, if |ps| > 1 then ps[1].start else |s|, w.doc);
      TagReads(t, s, i, a, m.tag.value, v, w.doc);
      EndOfRest(i, ps);
    }
  }

  lemma NextBounded(s: string, b: nat, k: nat, d: Doc)
    requires b <= k <= |s| && d.lit == s[b..k] && (b < |s| ==> b < k && !IsFamilyChar(s[b]) && !IsHex(s[b]))
    requires k == |s| ==> d.End? || b < k
    ensures Render(d) == "" || (!IsFamilyChar(Render(d)[0]) && !IsHex(Render(d)[0]))
  {
    if b < k {
      assert Render(d)[0] == d.lit[0] == s[b];
    }
  }

  lemma NothingReads(t: Tables)
    ensures Reads(t, End(""))
  {}

  lemma EndReads(t: Tables, l: string)
    requires Quiet(t, l)
    ensures Reads(t, End(l))
  {
    hide Quiet;
  }

  lemma TagReads(t: Tables, s: string, i: nat, a: nat, tag: string, v: string, d: Doc)
    requires i <= a <= |s| && WholeTag(tag) && Reads(t, d) && Quiet(t, s[i..a]) && (a > 0 ==> !IsFamilyChar(s[a - 1]))
    requires Render(d) == "" || (!IsFamilyChar(Render(d)[0]) && !IsHex(Render(d)[0]))
    ensures Reads(t, Seg(s[i..a], Atom(tag, v, false), d))
  {
    hide IsTag, Separated, Quiet, IsFamilyChar, IsHex, Render;
    assert i < a ==> s[i..a][|s[i..a]| - 1] == s[a - 1];
    SeparatedSeg(s[i..a], Atom(tag, v, false), d);
  }

  lemma SeparatedSeg(l: string, a: Atom, d: Doc)
    requires IsTag(FamPart(a.tag), CorePart(a.tag)) && (l == "" || !IsFamilyChar(l[|l| - 1])) && Separated(d)
    requires Render(d) == "" || (!IsFamilyChar(Render(d)[0]) && !IsHex(Render(d)[0]))
    ensures Separated(Seg(l, a, d))
  {
    hide IsTag, IsFamilyChar, IsHex, Render;
    assert Follows(CorePart(a.tag), Render(d));
  }

  // ---------- texts with foreign tokens ----------

  /** A fragment in front of a token: it ends in no family character and in no value. */
  predicate Closes(values: seq<string>, g: string) {
    g == "" || (!IsFamilyChar(g[|g| - 1]) && EndOf(0, Scan(values, g, 0)) < |g|)
  }

  /** A fragment behind a token: a character that is part of no shape and of no value. */
  predicate Opens(values: seq<string>, g: string) {
    Neutral(g) && (Scan(values, g, 0) != [] ==> 0 < Scan(values, g, 0)[0].start)
  }

  /** An ordinary text, cut at the tag-shaped tokens in it: nothing else looks like a tag, the values are
      clear of shapes, and so are the tokens, none of which is a value. */
  predicate Ordinary(values: seq<string>, c: Cuts, first: bool) {
    ShapeFree(c.gap) && Bounded(c.gap, Scan(values, c.gap, 0))
    && (!first ==> Opens(values, c.gap))
    && (c.Cut? ==>
          (first || c.gap != "") && Closes(values, c.gap)
          && c.token != "" && RawLen(c.token) == |c.token| && c.token !in values
          && Ordinary(values, c.rest, false))
  }

  function Tokens(c: Cuts): set<string> { if c.Last? then {} else {c.token} + Tokens(c.rest) }

  /** How many values and tokens there are to replace. */
  function Picked(values: seq<string>, c: Cuts): nat {
    |Scan(values, c.gap, 0)| + (if c.Last? then 0 else 1 + Picked(values, c.rest))
  }

  lemma {:induction false} TokenStarts(tok: string)
    requires tok != "" && RawLen(tok) == |tok|
    ensures IsUpper(tok[0])
  {}

  lemma {:induction false} WholeOpens(values: seq<string>, c: Cuts)
    requires Ordinary(values, c, false)
    ensures Neutral(Whole(c))
  {
    hide ShapeFree, Bounded, RawLen;
  }

  /** The cuts are the ones the search for protected spans makes. */
  lemma {:induction false} SegmentsCuts(values: seq<string>, c: Cuts, first: bool)
    requires Ordinary(values, c, first)
    ensures Segment(values, Whole(c)) == c
    decreases c
  {
    hide RawLen, TokenAt, Bounded, IsHex, IsFamilyChar, Segment, Scan;
    match c
    case Last(g) =>
      SegmentCopies(values, g, "");
      assert g + "" == g;
      SegmentNothing(values, g);
    case Cut(g, tok, rest) =>
      var y := tok + Whole(rest);
      SegmentsCuts(values, rest, false);
      WholeOpens(values, rest);
      TokenSeals(g, tok, Whole(rest));
      SegmentCopies(values, g, y);
      SegmentsToken(values, tok, Whole(rest));
      assert g + "" == g;
  }

  lemma SegmentNothing(values: seq<string>, g: string)
    ensures Prepend(g, Segment(values, "")) == Last(g)
  {
    assert g + "" == g;
  }

  lemma TokenSeals(g: string, tok: string, y: string)
    requires tok != "" && RawLen(tok) == |tok| && (g == "" || !IsFamilyChar(g[|g| - 1]))
    ensures Sealed(g, tok + y)
  {
    hide RawLen;
    TokenStarts(tok);
    assert (tok + y)[0] == tok[0];
  }

  lemma {:induction false} SegmentsToken(values: seq<string>, tok: string, y: string)
    requires tok != "" && RawLen(tok) == |tok| && tok !in values && Neutral(y)
    ensures Segment(values, tok + y) == Cut("", tok, Segment(values, y))
  {
    hide RawLen, Neutral;
    NeutralRaw(tok, y);
    DropSum(tok, y, |tok|);
    assert tok[..|tok|] == tok && tok[|tok|..] + y == y;
  }

  lemma {:induction false} LastLitIsThere(d: Doc)
    requires LastLit(d) != ""
    ensures Render(d) != ""
    decreases d
  {
    if d.Seg? {
      LastLitIsThere(d.rest);
    }
  }

  /** Two documents that can be read back, and between them a tag that stands clear of both. */
  lemma {:induction false} AppendReads(t: Tables, d: Doc, a: Atom, r: Doc)
    requires Reads(t, d) && Reads(t, r) && WholeTag(a.tag) && !a.live && Neutral(Render(r))
    requires LastLit(d) == "" ==> d.End?
    requires LastLit(d) == "" || !IsFamilyChar(LastLit(d)[|LastLit(d)| - 1])
    ensures Reads(t, Append(d, a, r))
    decreases d
  {
    hide IsTag, IsFamilyChar, IsHex, Quiet, Render, FamPart, CorePart;
    if d.End? {
      NeutralFollows(CorePart(a.tag), Render(r));
    } else {
      AppendReads(t, d.rest, a, r);
      LastLitIsThere(d.rest);
      AppendIs(d.rest, a, r);
      SameHead(CorePart(d.atom.tag), Render(d.rest), a.tag + Render(r));
    }
  }

  lemma NeutralFollows(core: string, y: string)
    requires Neutral(y)
    ensures Follows(core, y)
  {}

  lemma SameHead(core: string, x: string, y: string)
    requires x != "" && Follows(core, x)
    ensures Follows(core, x + y)
  {}

  lemma LitOpens(d: Doc, y: string)
    requires d.lit != "" || d.End?
    ensures Neutral(d.lit) ==> Neutral(Render(d))
  {}

  lemma {:induction false} AppendOpens(d: Doc, a: Atom, r: Doc)
    requires Neutral(Render(d)) && Render(d) != ""
    ensures Neutral(Render(Append(d, a, r)))
  {
    hide IsHex, IsFamilyChar, Render, Append;
    AppendIs(d, a, r);
  }

  /** A fragment: it goes through, and its document can be read back. */
  lemma {:induction false} GapReads(st: Store, g: string, prefix: string, t: Tables, toks: set<string>)
    requires Ready(st, toks, prefix) && ShapeFree(g) && Bounded(g, Scan(st.values, g, 0))
    ensures var w := Gap(st, g, prefix);
            var ps := Scan(st.values, g, 0);
            w.Done? && Ready(w.st, toks, prefix) && Reads(t, w.doc) && w.st.values == st.values
            && Changes(w.doc) == |ps| && (g == "" ==> ps == []) && (ps != [] ==> ps[0].start <= |g|)
            && w.doc.lit == g[..if ps == [] then |g| else ps[0].start]
            && (ps == [] <==> w.doc.End?) && 0 <= EndOf(0, ps) <= |g| && LastLit(w.doc) == g[EndOf(0, ps)..]
  {
    hide ShapeFree, Bounded, Replace, Reads, Ready, Scan, Quiet;
    if g == "" {
      EmptyReplace(st, prefix);
      NothingReads(t);
    } else {
      ScanIs(st.values, g, 0);
      var ps := Scan(st.values, g, 0);
      ReplaceReads(st, g, 0, ps, prefix, t, toks);
      ReplaceCounts(st, g, 0, ps, prefix);
      ReadyAlike(Replace(st, g, 0, ps, prefix).st, toks, prefix);
    }
  }

  lemma ReadyAlike(st: Store, toks: set<string>, prefix: string)
    requires Ready(st, toks, prefix)
    ensures Ready(GetFams(st), toks, prefix)
  {
    hide Taggable, Retaggable;
    TaggableAlike(st, GetFams(st), prefix);
    RetaggableAlike(st, GetFams(st), toks, prefix);
  }

  lemma TaggableAlike(a: Store, b: Store, prefix: string)
    requires Taggable(a, prefix) && SameKeys(a, b) && SameCells(a, b) && a.tags == b.tags
    ensures Taggable(b, prefix)
  {
    forall v ensures OwnTag(b, v, prefix) == OwnTag(a, v, prefix) && MintsTag(b, v, prefix) == MintsTag(a, v, prefix) {
      SameTagged(a, b, v, prefix);
    }
    SameNewTags(a, b, prefix);
    hide NewTag, OwnTag, MintsTag;
    forall v | v in b.values && MintsTag(b, v, prefix) ensures Unshared(b, v, prefix) {
      assert Unshared(a, v, prefix);
    }
  }

  lemma SameTagged(a: Store, b: Store, v: string, prefix: string)
    requires SameKeys(a, b) && SameCells(a, b) && a.tags == b.tags
    ensures OwnTag(b, v, prefix) == OwnTag(a, v, prefix) && MintsTag(b, v, prefix) == MintsTag(a, v, prefix)
  {
    hide WholeTag, IsFamily;
    assert forall n: Width :: Core(b, v, n) == Core(a, v, n);
  }

  lemma RetaggableAlike(a: Store, b: Store, toks: set<string>, prefix: string)
    requires Retaggable(a, toks, prefix) && SameKeys(a, b) && SameCells(a, b) && a.tags == b.tags
    ensures Retaggable(b, toks, prefix)
  {
    hide WholeTag, IsFamily, FamilyFor;
    SameNewTags(a, b, prefix);
    hide NewTag;
    forall tok | tok in toks ensures OneFree(b, tok, prefix) && NewToken(b, tok, prefix) == NewToken(a, tok, prefix) {
      SameTokens(a, b, tok, prefix);
    }
    forall tok | tok in toks ensures Unclaimed(b, tok, toks, prefix) {
      assert Unclaimed(a, tok, toks, prefix);
    }
  }

  lemma SameTokens(a: Store, b: Store, tok: string, prefix: string)
    requires SameKeys(a, b) && a.tags == b.tags
    ensures OneFree(b, tok, prefix) == OneFree(a, tok, prefix) && NewToken(b, tok, prefix) == NewToken(a, tok, prefix)
  {
    assert forall n: Width :: Core(b, tok, n) == Core(a, tok, n);
  }

  /** Cut by cut: it goes through, and its document can be read back. */
  lemma {:induction false} ProcessReads(st: Store, c: Cuts, first: bool, known: map<string, string>, prefix: string,
                                        t: Tables, toks: set<string>)
    requires Ready(st, toks, prefix) && Ordinary(st.values, c, first) && Tokens(c) <= toks
    requires forall tok | tok in toks :: tok !in known
    ensures var w := Process(st, c, known, prefix);
            w.Done? && Ready(w.st, toks, prefix) && Reads(t, w.doc) && Changes(w.doc) == Picked(st.values, c)
            && (!first ==> Neutral(Render(w.doc)))
    decreases c
  {
    hide Gap, Ready, Reads, ShapeFree, Bounded, RawLen, Scan, Retag, WholeTag, Render, IsHex, IsFamilyChar;
    var g := c.gap;
    GapReads(st, g, prefix, t, toks);
    var w := Gap(st, g, prefix);
    GapOpens(st.values, g, w.doc, first);
    if c.Cut? {
      var m := Retag(w.st, c.token, prefix);
      ReadyAfterToken(w.st, c.token, toks, prefix);
      ProcessReads(m.st, c.rest, false, known, prefix, t, toks);
      var x := Process(m.st, c.rest, known, prefix);
      var a := Atom(m.tag.value, c.token, false);
      GapCloses(st.values, g, w.doc);
      AppendReads(t, w.doc, a, x.doc);
      AppendIs(w.doc, a, x.doc);
      if !first {
        AppendOpens(w.doc, a, x.doc);
      }
    }
  }

  lemma ReadyAfterToken(st: Store, tok: string, toks: set<string>, prefix: string)
    requires Ready(st, toks, prefix) && tok in toks
    ensures var m := Retag(st, tok, prefix);
            m.tag.Some? && WholeTag(m.tag.value) && Ready(m.st, toks, prefix) && m.st.values == st.values
  {
    hide Retag, Taggable, Coherent, Retaggable, WholeTag;
    TokenIsReadable(st, tok, toks, prefix);
  }

  lemma GapOpens(values: seq<string>, g: string, d: Doc, first: bool)
    requires var ps := Scan(values, g, 0);
             (ps != [] ==> ps[0].start <= |g|)
             && d.lit == g[..if ps == [] then |g| else ps[0].start] && (ps == [] <==> d.End?)
    ensures !first && Opens(values, g) ==> Neutral(Render(d)) && (g != "" ==> Render(d) != "")
  {
    hide Scan, IsHex, IsFamilyChar;
  }

  lemma GapCloses(values: seq<string>, g: string, d: Doc)
    requires Closes(values, g) && 0 <= EndOf(0, Scan(values, g, 0)) <= |g|
    requires LastLit(d) == g[EndOf(0, Scan(values, g, 0))..] && (g == "" ==> d.End?)
    ensures LastLit(d) == "" ==> d.End?
    ensures LastLit(d) == "" || !IsFamilyChar(LastLit(d)[|LastLit(d)| - 1])
  {
    hide Scan, EndOf, IsFamilyChar;
  }

  /** An ordinary text, foreign tokens included, from a state in which every value has a readable tag or will
      be minted one, and every token will be given one: it goes through unless the last check refuses it, and
      restores exactly, then and at any later time, with as many restorations as there were values and tokens. */
  lemma {:induction false} PlainRoundTrip(st: Store, c: Cuts, prefix: string, t: Tables)
    requires Coherent(st) && Taggable(st, prefix) && Retaggable(st, Tokens(c), prefix)
    requires Ordinary(st.values, c, true) && forall tok | tok in Tokens(c) :: tok !in st.tags
    requires var d := Draft(st, Whole(c), prefix);
             forall k | k in d.st.tags :: k in t.tags && t.tags[k] == d.st.tags[k]
    ensures var s := Whole(c);
            var d := Draft(st, s, prefix);
            d.Done? && Source(d.doc) == s && RestoreAll(t, Render(d.doc)) == Output(s, Changes(d.doc))
            && Changes(d.doc) == Picked(st.values, c) && LitsFree(d.doc, st.values)
            && (var w := SanitizeText(st, s, prefix);
                (w.Done? <==> !Refuses(d.st, Render(d.doc))) && (w.Done? ==> w.doc == d.doc))
  {
    hide Ordinary, Process, RestoreAll, Reads, Taggable, Retaggable, Refuses, Coherent, Segment;
    SegmentsCuts(st.values, c, true);
    TokensAreForeign(st.values, c, true);
    ProcessReads(st, c, true, st.tags, prefix, t, Tokens(c));
    DraftIsGood(st, Whole(c), prefix);
    var d := Draft(st, Whole(c), prefix);
    RefusesAlike(d.st, GetFams(d.st), Render(d.doc));
    TaggableFree(d.st, prefix);
    KnownLater(d.st, t, d.doc);
    DocReads(t, d.doc);
  }

  lemma {:induction false} TokensAreForeign(values: seq<string>, c: Cuts, first: bool)
    requires Ordinary(values, c, first)
    ensures forall v | v in values :: v !in Tokens(c)
    decreases c
  {
    hide ShapeFree, Bounded, RawLen, Scan, Opens, Closes;
    if c.Cut? {
      TokensAreForeign(values, c.rest, false);
    }
  }

  lemma TaggableFree(st: Store, prefix: string)
    requires Taggable(st, prefix)
    ensures ExtraFree(st)
  {}

  lemma {:induction false} DocReads(t: Tables, d: Doc)
    requires Reads(t, d) && Known(t, d)
    ensures RestoreAll(t, Render(d)) == Output(Source(d), Changes(d))
  {
    RestoresDoc(t, d);
    FreshExpands(t, d);
  }

  lemma EmptyReplace(st: Store, prefix: string)
    ensures Scan(st.values, "", 0) == [] && Replace(st, "", 0, [], prefix) == Done(st, End(""))
  {}

  lemma {:induction false} ReplaceCounts(st: Store, s: string, i: nat, ps: seq<Span>, prefix: string)
    requires InOrder(ps, st.values, s, i) && Replace(st, s, i, ps, prefix).Done?
    ensures Changes(Replace(st, s, i, ps, prefix).doc) == |ps|
    decreases |ps|
  {
    hide TagValue;
    if ps != [] {
      var v := s[ps[0].start..ps[0].end];
      TagValueKeepsVault(st, v, prefix);
      ReplaceCounts(TagValue(st, v, prefix).st, s, ps[0].end, ps[1..], prefix);
    }
  }
}
