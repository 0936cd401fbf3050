/** Restoring what was sanitized: coverage, the round trip, and idempotence. */
module RoundTrip {
  import opened Text
  import opened Restore
  import opened TagStore
  import opened Sweep
  import opened Shapes
  import opened LeakCheck
  import opened Sanitize

  // ---------- coverage ----------

  /** Some tag of the document has a character in `i..j` of its rendering. */
  predicate Touches(d: Doc, i: int, j: int) {
    d.Seg? && (
      var a, b := |d.lit|, |d.lit| + |d.atom.tag|;
      (i < b && a < j) || Touches(d.rest, i - b, j - b))
  }

  /** Every occurrence of a vault value in the output overlaps a tag. */
  lemma {:induction false} Covered(d: Doc, values: seq<string>, i: nat, j: nat)
    requires LitsFree(d, values) && TagsNonEmpty(d) && Occurs(values, Render(d), i, j)
    ensures Touches(d, i, j)
    decreases d
  {
    if d.Seg? {
      var b := |d.lit| + |d.atom.tag|;
      if i >= b {
        SliceOfSum(d.lit + d.atom.tag, Render(d.rest), i, j);
        SumAssoc(d.lit, d.atom.tag, Render(d.rest));
        Covered(d.rest, values, i - b, j - b);
      } else {
        NotInside(values, d.lit, d.atom.tag + Render(d.rest), i, j);
      }
    }
  }

  lemma NotInside(values: seq<string>, l: string, y: string, i: nat, j: nat)
    requires NoValue(values, l) && Occurs(values, l + y, i, j)
    ensures j > |l|
  {
    if j <= |l| {
      OccursLeft(values, l, y, i, j);
      assert false;
    }
  }

  lemma OccursLeft(values: seq<string>, l: string, y: string, i: nat, j: nat)
    requires Occurs(values, l + y, i, j) && j <= |l|
    ensures Occurs(values, l, i, j)
  {
    assert (l + y)[i..j] == l[i..j];
  }

  lemma SliceOfSum(a: string, b: string, i: nat, j: nat)
    requires |a| <= i <= j <= |a| + |b|
    ensures (a + b)[i..j] == b[i - |a|..j - |a|]
  {}

  /** Coverage for every text and every vault, whatever overlaps or nests and whatever is
      kept, replaced or retagged: no value survives outside the tags. */
  lemma SanitizeCovers(st: Store, s: string, prefix: string, i: nat, j: nat)
    requires Coherent(st)
    requires SanitizeText(st, s, prefix).Done?
    requires Occurs(st.values, Render(SanitizeText(st, s, prefix).doc), i, j)
    ensures Touches(SanitizeText(st, s, prefix).doc, i, j)
  {
    SanitizeIsGood(st, s, prefix);
    Covered(SanitizeText(st, s, prefix).doc, st.values, i, j);
  }

  // ---------- restoring all families ----------

  /** How far one step of the scan goes, and what it contributes. */
  function AllStride(s: string): (k: nat)
    requires s != ""
    ensures 0 < k <= |s|
  {
    match TokenAt(s)
    case None => 1
    case Some(tok) => tok.end
  }

  function AllHead(t: Tables, s: string): Output
    requires s != ""
  {
    match TokenAt(s)
    case None => Output(s[..1], 0)
    case Some(tok) =>
      match Resolve(t, s[..tok.core], s[tok.core..tok.end])
      case Some(v) => Output(v, 1)
      case None => Output(s[..tok.end], 0)
  }

  /** The single-scan restore across all families: text and count. */
  function RestoreAll(t: Tables, s: string): Output
    decreases |s|
  {
    if s == "" then Output("", 0)
    else Join(AllHead(t, s), RestoreAll(t, s[AllStride(s)..]))
  }

  /** The same scan with its report: unknown tags whose family the session has seen. */
  function RestoreAllReport(t: Tables, families: set<string>, s: string): Restored
    decreases |s|
  {
    if s == "" then Restored("", 0, [])
    else Then(ReportHead(t, families, s), RestoreAllReport(t, families, s[AllStride(s)..]))
  }

  function ReportHead(t: Tables, families: set<string>, s: string): Restored
    requires s != ""
  {
    match TokenAt(s)
    case None => Restored(s[..1], 0, [])
    case Some(tok) =>
      match Resolve(t, s[..tok.core], s[tok.core..tok.end])
      case Some(v) => Restored(v, 1, [])
      case None => Restored(s[..tok.end], 0, if s[..tok.core] in families then [s[..tok.end]] else [])
  }

  lemma {:induction false} ReportIsRestore(t: Tables, families: set<string>, s: string)
    ensures Out(RestoreAllReport(t, families, s)) == RestoreAll(t, s)
    decreases |s|
  {
    hide TokenAt;
    if s != "" {
      ReportIsRestore(t, families, s[AllStride(s)..]);
    }
  }

  /** Nothing in a literal fragment reads as a tag that the tables can restore. */
  predicate Quiet(t: Tables, l: string) {
    forall i | 0 <= i < |l| :: QuietAt(t, l[i..])
  }

  predicate QuietAt(t: Tables, s: string) {
    match TokenAt(s)
    case None => true
    case Some(tok) => Resolve(t, s[..tok.core], s[tok.core..tok.end]).None?
  }

  lemma QuietSuffix(t: Tables, l: string, k: nat)
    requires Quiet(t, l) && k <= |l|
    ensures Quiet(t, l[k..])
  {
    forall i | 0 <= i < |l[k..]| ensures QuietAt(t, l[k..][i..]) {
      assert l[k..][i..] == l[k + i..];
    }
  }

  lemma AllUnfolds(t: Tables, s: string)
    requires s != ""
    ensures RestoreAll(t, s) == Join(AllHead(t, s), RestoreAll(t, s[AllStride(s)..]))
  {}

  /** A quiet, sealed literal is copied step by step. */
  lemma QuietHead(t: Tables, l: string, y: string)
    requires l != "" && Quiet(t, l) && Sealed(l, y)
    ensures AllStride(l + y) == AllStride(l)
    ensures AllHead(t, l + y) == Output(l[..AllStride(l)], 0)
  {
    SealedShapes(l, y);
    assert QuietAt(t, l[0..]);
    assert l[0..] == l;
    var k := AllStride(l);
    DropSum(l, y, k);
    if TokenAt(l).Some? {
      var tok := TokenAt(l).value;
      DropSum(l, y, tok.core);
      assert (l + y)[tok.core..tok.end] == l[tok.core..tok.end];
    }
  }

  lemma {:induction false} QuietCopies(t: Tables, l: string, y: string)
    requires Quiet(t, l) && Sealed(l, y)
    ensures RestoreAll(t, l + y) == Join(Output(l, 0), RestoreAll(t, y))
    decreases |l|
  {
    if l == "" {
      assert l + y == y;
    } else {
      hide TokenAt, AllHead;
      var k := AllStride(l);
      QuietHead(t, l, y);
      QuietSuffix(t, l, k);
      SealedSuffix(l, y, k);
      QuietCopies(t, l[k..], y);
      AllUnfolds(t, l + y);
      DropSum(l, y, k);
      CopyJoins(l, k, RestoreAll(t, y));
    }
  }

  lemma SealedSuffix(l: string, y: string, k: nat)
    requires Sealed(l, y) && k <= |l|
    ensures Sealed(l[k..], y)
  {}

  lemma CopyJoins(l: string, k: nat, r: Output)
    requires k <= |l|
    ensures Join(Output(l[..k], 0), Join(Output(l[k..], 0), r)) == Join(Output(l, 0), r)
  {
    assert l[..k] + (l[k..] + r.text) == l + r.text;
  }

  /** One tag, read and looked up. */
  lemma {:induction false} TagRestores(t: Tables, fam: string, core: string, y: string)
    requires IsTag(fam, core) && Follows(core, y) && Resolve(t, fam, core).Some?
    ensures RestoreAll(t, fam + core + y) == Join(Output(Resolve(t, fam, core).value, 1), RestoreAll(t, y))
  {
    var s := fam + core + y;
    TagIsToken(fam, core, y);
    TagParts(fam, core, y);
    AllUnfolds(t, s);
  }

  lemma TagParts(fam: string, core: string, y: string)
    ensures var s := fam + core + y;
            s[..|fam|] == fam && s[|fam|..|fam| + |core|] == core && s[|fam| + |core|..] == y
  {}

  // ---------- documents that can be read back ----------

  function FamPart(tag: string): string { tag[..FamilyEnd(tag)] }

  function CorePart(tag: string): string { tag[FamilyEnd(tag)..] }

  /** Every tag has a well-formed family and eight to twelve hex digits, no literal ends
      in a family character in front of a tag, and what follows a tag cannot be read as
      part of it. */
  predicate Separated(d: Doc) {
    d.Seg? ==>
      IsTag(FamPart(d.atom.tag), CorePart(d.atom.tag))
      && (d.lit == "" || !IsFamilyChar(d.lit[|d.lit| - 1]))
      && Follows(CorePart(d.atom.tag), Render(d.rest))
      && Separated(d.rest)
  }

  predicate QuietLits(t: Tables, d: Doc) {
    Quiet(t, d.lit) && (d.Seg? ==> QuietLits(t, d.rest))
  }

  /** The text with its live tags replaced by what they stand for, and how many tags the
      document has. */
  function Expand(t: Tables, d: Doc): Output {
    match d
    case End(l) => Output(l, 0)
    case Seg(l, a, r) =>
      var v := if a.live && a.tag in t.tags then t.tags[a.tag] else a.orig;
      Join(Output(l, 0), Join(Output(v, 1), Expand(t, r)))
  }

  /** The tables know every tag of the document. */
  ghost predicate Known(t: Tables, d: Doc) {
    d.Seg? ==> d.atom.tag in t.tags && (!d.atom.live ==> t.tags[d.atom.tag] == d.atom.orig) && Known(t, d.rest)
  }

  /** Tables of this state or of a later one in its epoch. */
  ghost predicate Reaches(st: Store, t: Tables) {
    ExtraFree(st) && forall k | k in st.tags :: k in t.tags && t.tags[k] == st.tags[k]
  }

  lemma ReachesBack(a: Store, b: Store, t: Tables)
    requires Later(a, b) && Reaches(b, t)
    ensures Reaches(a, t)
  {
    ExtraFreeBack(a, b);
  }

  lemma RestoresTag(t: Tables, tag: string, y: string)
    requires IsTag(FamPart(tag), CorePart(tag)) && Follows(CorePart(tag), y) && tag in t.tags
    ensures RestoreAll(t, tag + y) == Join(Output(t.tags[tag], 1), RestoreAll(t, y))
  {
    var fam, core := FamPart(tag), CorePart(tag);
    assert fam + core == tag;
    TagRestores(t, fam, core, y);
  }

  lemma TagSealsLit(lit: string, tag: string, y: string)
    requires IsTag(FamPart(tag), CorePart(tag)) && (lit == "" || !IsFamilyChar(lit[|lit| - 1]))
    ensures Sealed(lit, tag + y)
  {
    assert (tag + y)[0] == FamPart(tag)[0];
  }

  lemma {:induction false} RestoresDoc(t: Tables, d: Doc)
    requires Separated(d) && QuietLits(t, d) && Known(t, d)
    ensures RestoreAll(t, Render(d)) == Expand(t, d)
    decreases d
  {
    match d
    case End(l) =>
      QuietCopies(t, l, "");
      assert l + "" == l;
    case Seg(l, a, r) =>
      RestoresDoc(t, r);
      TagSealsLit(l, a.tag, Render(r));
      QuietCopies(t, l, a.tag + Render(r));
      RestoresTag(t, a.tag, Render(r));
  }

  lemma {:induction false} KnownLater(a: Store, t: Tables, d: Doc)
    requires AtomsHold(a, d) && forall k | k in a.tags :: k in t.tags && t.tags[k] == a.tags[k]
    ensures Known(t, d)
    decreases d
  {
    if d.Seg? {
      KnownLater(a, t, d.rest);
    }
  }

  /** No tag of the document was there before. */
  predicate Fresh(d: Doc) { d.Seg? ==> !d.atom.live && Fresh(d.rest) }

  lemma {:induction false} FreshExpands(t: Tables, d: Doc)
    requires Fresh(d)
    ensures Expand(t, d) == Output(Source(d), Changes(d))
    decreases d
  {
    if d.Seg? {
      FreshExpands(t, d.rest);
    }
  }

  /** Restoring a sanitized text, with the tables as they are then or at any later time of
      the session, gives the text with its live tags expanded; one that had none comes
      back exactly, with as many restorations as there were replacements. */
  lemma RoundTrip(st: Store, s: string, prefix: string, t: Tables)
    requires Coherent(st) && SanitizeText(st, s, prefix).Done?
    requires var w := SanitizeText(st, s, prefix);
             ExtraFree(w.st) && (forall k | k in w.st.tags :: k in t.tags && t.tags[k] == w.st.tags[k])
             && Separated(w.doc) && QuietLits(t, w.doc)
    ensures var d := SanitizeText(st, s, prefix).doc;
            RestoreAll(t, Render(d)) == Expand(t, d)
            && (Fresh(d) ==> RestoreAll(t, Render(d)) == Output(s, Changes(d)))
  {
    SanitizeIsGood(st, s, prefix);
    var w := SanitizeText(st, s, prefix);
    KnownLater(w.st, t, w.doc);
    RestoresDoc(t, w.doc);
    if Fresh(w.doc) {
      FreshExpands(t, w.doc);
    }
  }

  // ---------- sanitizing again ----------

  /** Nothing in a literal fragment looks like a tag. */
  predicate Shapeless(l: string) { forall i | 0 <= i < |l| :: RawLen(l[i..]) == 0 }

  predicate ShapelessLits(d: Doc) { Shapeless(d.lit) && (d.Seg? ==> ShapelessLits(d.rest)) }

  /** The cuts at the tags of a document. */
  function CutsOf(d: Doc): Cuts {
    match d
    case End(l) => Last(l)
    case Seg(l, a, r) => Cut(l, a.tag, CutsOf(r))
  }

  lemma {:induction false} SegmentCopies(values: seq<string>, l: string, y: string)
    requires Shapeless(l) && Sealed(l, y)
    ensures Segment(values, l + y) == Prepend(l, Segment(values, y))
    decreases |l|
  {
    if l == "" {
      assert l + y == y;
      PrependNothing(Segment(values, y));
    } else {
      assert RawLen(l[0..]) == 0;
      assert l[0..] == l;
      SealedShapes(l, y);
      forall i | 0 <= i < |l[1..]| ensures RawLen(l[1..][i..]) == 0 {
        assert l[1..][i..] == l[i + 1..];
      }
      SegmentCopies(values, l[1..], y);
      DropSum(l, y, 1);
      PrependTwice(l, Segment(values, y));
    }
  }

  lemma PrependNothing(c: Cuts)
    ensures Prepend("", c) == c
  {
    assert "" + c.gap == c.gap;
  }

  lemma PrependTwice(l: string, c: Cuts)
    requires l != ""
    ensures Prepend(l[..1], Prepend(l[1..], c)) == Prepend(l, c)
  {
    assert l[..1] + (l[1..] + c.gap) == l + c.gap;
  }

  lemma {:induction false} SegmentsTag(values: seq<string>, tag: string, y: string)
    requires IsTag(FamPart(tag), CorePart(tag)) && Follows(CorePart(tag), y) && tag !in values
    ensures Segment(values, tag + y) == Cut("", tag, Segment(values, y))
  {
    var fam, core := FamPart(tag), CorePart(tag);
    assert fam + core == tag;
    TagIsRaw(fam, core, y);
    TagParts(fam, core, y);
    DropSum(tag, y, |tag|);
    assert tag[..|tag|] == tag;
  }

  predicate NoTagIsValue(d: Doc, values: seq<string>) {
    d.Seg? ==> d.atom.tag !in values && NoTagIsValue(d.rest, values)
  }

  lemma {:induction false} SegmentsDoc(values: seq<string>, d: Doc)
    requires Separated(d) && ShapelessLits(d) && NoTagIsValue(d, values)
    ensures Segment(values, Render(d)) == CutsOf(d)
    decreases d
  {
    match d
    case End(l) =>
      SegmentCopies(values, l, "");
      assert l + "" == l;
    case Seg(l, a, r) =>
      SegmentsDoc(values, r);
      TagSealsLit(l, a.tag, Render(r));
      SegmentCopies(values, l, a.tag + Render(r));
      SegmentsTag(values, a.tag, Render(r));
      assert l + "" == l;
  }

  /** The same output, with every tag kept. */
  function Kept(d: Doc): Doc {
    match d
    case End(l) => End(l)
    case Seg(l, a, r) => Seg(l, Atom(a.tag, a.tag, true), Kept(r))
  }

  lemma GapOfNothing(st: Store, l: string, prefix: string)
    requires NoValue(st.values, l) && st.fams.Some?
    ensures Gap(st, l, prefix) == Done(st, End(l))
  {
    ScanSkips(st.values, l, 0, |l|);
    assert l[0..] == l;
  }

  lemma {:induction false} ProcessKeeps(st: Store, d: Doc, known: map<string, string>, prefix: string)
    requires LitsFree(d, st.values) && Known(Tables(known, map[]), d) && st.fams.Some?
    ensures Process(st, CutsOf(d), known, prefix) == Done(st, Kept(d))
    decreases d
  {
    hide Gap;
    match d
    case End(l) => GapOfNothing(st, l, prefix);
    case Seg(l, a, r) =>
      GapOfNothing(st, l, prefix);
      ProcessKeeps(st, r, known, prefix);
  }

  lemma {:induction false} KeptIs(d: Doc)
    ensures Render(Kept(d)) == Render(d) && Changes(Kept(d)) == 0
    decreases d
  {
    if d.Seg? {
      KeptIs(d.rest);
    }
  }

  /** A call that went through leaves the families cached, and its output passes the last
      check in the state it leaves. */
  lemma PassedIs(st: Store, s: string, prefix: string)
    requires SanitizeText(st, s, prefix).Done?
    ensures var w := SanitizeText(st, s, prefix);
            w.st.fams.Some? && !Refuses(w.st, Render(w.doc))
            && Draft(st, s, prefix).Done? && Draft(st, s, prefix).doc == w.doc
            && w.st == GetFams(Draft(st, s, prefix).st)
  {
    hide Draft, Refuses;
  }

  /** Sanitizing the output again changes nothing: same text, count zero, same state. */
  lemma Idempotent(st: Store, s: string, prefix: string, again: string)
    requires Coherent(st) && SanitizeText(st, s, prefix).Done?
    requires var w := SanitizeText(st, s, prefix);
             ExtraFree(w.st) && Separated(w.doc) && ShapelessLits(w.doc) && NoTagIsValue(w.doc, st.values)
    ensures var w := SanitizeText(st, s, prefix);
            var w2 := SanitizeText(w.st, Render(w.doc), again);
            w2.Done? && Render(w2.doc) == Render(w.doc) && Changes(w2.doc) == 0 && w2.st == w.st
  {
    hide Refuses, Process, Segment, Separated, ShapelessLits, NoTagIsValue;
    SanitizeIsGood(st, s, prefix);
    PassedIs(st, s, prefix);
    var w := SanitizeText(st, s, prefix);
    SegmentsDoc(w.st.values, w.doc);
    KnownLater(w.st, Tables(w.st.tags, map[]), w.doc);
    ProcessKeeps(w.st, w.doc, w.st.tags, again);
    KeptIs(w.doc);
  }
}
