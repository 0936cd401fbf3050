/** From a sanitized text back through an explicit family list, and through a stream. */
module EndToEnd {
  import opened Text
  import opened Restore
  import opened Simultaneous
  import opened Stretches
  import opened Stream
  import opened TagStore
  import opened Shapes
  import opened Sanitize
  import opened RoundTrip

  predicate TagFreeLits(fams: seq<string>, d: Doc) {
    TagFree(fams, d.lit) && (d.Seg? ==> TagFreeLits(fams, d.rest))
  }

  /** Every tag of the document is of a listed family. */
  predicate Listed(fams: seq<string>, d: Doc) {
    d.Seg? ==> FamPart(d.atom.tag) in fams && Listed(fams, d.rest)
  }

  /** A tag that starts in a sealed literal lies in it. */
  lemma SealedHasTag(f: string, w: string, y: string)
    requires IsFamily(f) && w != "" && Sealed(w, y) && HasTag(f, w + y)
    ensures HasTag(f, w)
  {
    var s := w + y;
    if y == "" {
      assert s == w;
    } else {
      assert s[..|f|] == f;
      assert forall k | 0 <= k < |f| :: IsFamilyChar(s[..|f|][k]) && s[..|f|][k] == s[k];
      assert s[|w| - 1] == w[|w| - 1] && !IsFamilyChar(s[|w| - 1]);
      SealedRun(w, y, |f|, 8);
      assert w[..|f|] == f;
    }
  }

  lemma SealedTail(l: string, y: string, i: nat)
    requires Sealed(l, y) && i < |l|
    ensures Sealed(l[i..], y)
  {}

  lemma {:induction false} TagFreeCopies(t: Tables, fams: seq<string>, l: string, y: string)
    requires TagFree(fams, l) && Sealed(l, y) && forall f | f in fams :: IsFamily(f)
    ensures Many(t, fams, l + y) == Join(Output(l, 0), Many(t, fams, y))
  {
    hide Sealed, HasTag, IsFamily;
    forall i | 0 <= i < |l| ensures FirstFam(fams, l[i..] + y) == |fams| {
      assert FirstFam(fams, l[i..]) == |fams|;
      SealedTail(l, y, i);
      forall f | f in fams ensures !HasTag(f, l[i..] + y) {
        if HasTag(f, l[i..] + y) {
          SealedHasTag(f, l[i..], y);
          assert false;
        }
      }
    }
    ManySkips(t, fams, l, y);
  }

  /** A listed tag, read by the simultaneous scan. */
  lemma ManyReadsTag(t: Tables, fams: seq<string>, tag: string, y: string)
    requires Disjointed(fams) && FamPart(tag) in fams && tag in t.tags
    requires IsTag(FamPart(tag), CorePart(tag)) && Follows(CorePart(tag), y)
    ensures Many(t, fams, tag + y) == Join(Output(t.tags[tag], 1), Many(t, fams, y))
  {
    var fam, core := FamPart(tag), CorePart(tag);
    var s := tag + y;
    TagIsRead(fam, core, y);
    assert fam + core == tag;
    var i :| 0 <= i < |fams| && fams[i] == fam;
    ReadFirst(fams, i, s);
    TagParts(fam, core, y);
    ManyTag(t, fams, s, i, |tag|);
  }

  lemma TagIsRead(fam: string, core: string, y: string)
    requires IsTag(fam, core) && Follows(core, y)
    ensures TagLen(fam, fam + core + y) == |fam| + |core|
  {
    var s := fam + core + y;
    assert s[..|fam|] == fam;
    assert forall k | |fam| <= k < |fam| + |core| :: s[k] == core[k - |fam|];
    assert y != "" ==> s[|fam| + |core|] == y[0];
    TagLenIs(fam, s, |fam| + |core|);
  }

  lemma ReadFirst(fams: seq<string>, i: nat, s: string)
    requires Disjointed(fams) && i < |fams| && HasTag(fams[i], s)
    ensures FirstFam(fams, s) == i
  {
    FirstIs(fams, i, s);
    var k := FirstFam(fams, s);
    assert fams[k] == fams[i] && Distinct(fams);
    assert k == i;
  }

  /** A last literal is copied. */
  lemma {:induction false} ManyEnd(t: Tables, fams: seq<string>, l: string)
    requires Disjointed(fams) && TagFree(fams, l)
    ensures Many(t, fams, l) == Output(l, 0)
  {
    hide Many, Disjointed, TagFree;
    FamiliesListed(fams);
    EndIsSealed(l);
    TagFreeCopies(t, fams, l, "");
    ManyNothing(t, fams);
    assert l + "" == l;
  }

  /** A literal and the tag behind it. */
  lemma {:induction false} ManySeg(t: Tables, fams: seq<string>, l: string, tag: string, y: string)
    requires Disjointed(fams) && TagFree(fams, l) && FamPart(tag) in fams && tag in t.tags
    requires IsTag(FamPart(tag), CorePart(tag)) && Follows(CorePart(tag), y)
    requires l == "" || !IsFamilyChar(l[|l| - 1])
    ensures Many(t, fams, l + (tag + y)) == Join(Output(l, 0), Join(Output(t.tags[tag], 1), Many(t, fams, y)))
  {
    hide Many, Disjointed, TagFree, IsTag, Follows, Sealed, FamPart, CorePart;
    FamiliesListed(fams);
    TagSealsLit(l, tag, y);
    TagFreeCopies(t, fams, l, tag + y);
    ManyReadsTag(t, fams, tag, y);
  }

  lemma {:induction false} ManyDoc(t: Tables, fams: seq<string>, d: Doc)
    requires Disjointed(fams) && Separated(d) && Listed(fams, d) && TagFreeLits(fams, d) && Known(t, d)
    ensures Many(t, fams, Render(d)) == Expand(t, d)
    decreases d
  {
    hide Many, Disjointed, TagFree, IsTag, Follows, Separated, Listed, TagFreeLits, Known, FamPart, CorePart, Join;
    DocParts(t, fams, d);
    match d
    case End(l) => ManyEnd(t, fams, l);
    case Seg(l, a, r) =>
      ManyDoc(t, fams, r);
      ManySeg(t, fams, l, a.tag, Render(r));
  }

  lemma DocParts(t: Tables, fams: seq<string>, d: Doc)
    requires Separated(d) && Listed(fams, d) && TagFreeLits(fams, d) && Known(t, d)
    ensures TagFree(fams, d.lit)
    ensures d.Seg? ==> Separated(d.rest) && Listed(fams, d.rest) && TagFreeLits(fams, d.rest) && Known(t, d.rest)
    ensures d.Seg? ==> FamPart(d.atom.tag) in fams && d.atom.tag in t.tags
                       && (!d.atom.live ==> t.tags[d.atom.tag] == d.atom.orig)
    ensures d.Seg? ==> IsTag(FamPart(d.atom.tag), CorePart(d.atom.tag)) && Follows(CorePart(d.atom.tag), Render(d.rest))
                       && (d.lit == "" || !IsFamilyChar(d.lit[|d.lit| - 1]))
  {
    hide TagFree, IsTag, Follows;
  }

  lemma FamiliesListed(fams: seq<string>)
    requires Disjointed(fams)
    ensures forall f | f in fams :: IsFamily(f)
  {}

  lemma EndIsSealed(l: string)
    ensures Sealed(l, "")
  {}

  lemma ManyNothing(t: Tables, fams: seq<string>)
    ensures Many(t, fams, "") == Output("", 0)
  {}

  /** A document that can be read back through the passes of a family list. */
  predicate ListReadable(fams: seq<string>, d: Doc) {
    Disjointed(fams) && Separated(d) && Listed(fams, d) && TagFreeLits(fams, d)
  }

  /** The passes of a family list expand the document, when one scan can do their work. */
  lemma PassesReadDoc(t: Tables, passes: seq<string>, d: Doc)
    requires Scannable(t, passes, Render(d)) && ListReadable(passes, d) && Known(t, d)
    ensures PassOut(t, passes, Render(d)) == Expand(t, d)
  {
    hide Many, PassOut, Disjointed, Separated, Listed, TagFreeLits, Known;
    ManyDoc(t, passes, d);
    if passes == [PWD] {
      OnePass(t, PWD, Render(d));
      ManyIsOne(t, PWD, Render(d));
    } else {
      PassesAreOneScan(t, passes, Render(d));
    }
  }

  /** For one family the simultaneous scan is the single-family scan. */
  lemma {:induction false} ManyIsOne(t: Tables, fam: string, s: string)
    ensures Many(t, [fam], s) == Out(RestoreOne(t, fam, s))
    decreases |s|
  {
    hide TagLen, HasTag;
    if s != "" {
      ManyIsOneHead(t, fam, s);
      ManyIsOne(t, fam, s[Stride(fam, s)..]);
    }
  }

  lemma ManyIsOneHead(t: Tables, fam: string, s: string)
    requires s != ""
    ensures ManyStride([fam], s) == Stride(fam, s) && ManyHead(t, [fam], s) == Out(Head(t, fam, s))
  {
    assert [fam][1..] == [];
    var n := TagLen(fam, s);
    assert n > 0 <==> HasTag(fam, s);
    if n > 0 {
      assert s[..|fam|] == fam;
    }
  }

  // ---------- tags that are set off ----------

  /** Every tag stands between characters of neither alphabet, or at an end of the text. */
  predicate SetOff(d: Doc) {
    d.Seg? ==>
      (d.lit == "" || Parts(d.lit[|d.lit| - 1])) && (Render(d.rest) == "" || Parts(Render(d.rest)[0]))
      && SetOff(d.rest)
  }

  /** What the tags stand for shows no listed tag. */
  predicate ValuesFree(t: Tables, fams: seq<string>, d: Doc) {
    d.Seg? ==> d.atom.tag in t.tags && TagFree(fams, t.tags[d.atom.tag]) && ValuesFree(t, fams, d.rest)
  }

  lemma {:induction false} FreeIsCalm(t: Tables, fams: seq<string>, s: string)
    requires TagFree(fams, s)
    ensures CalmText(t, fams, s)
    decreases |s|
  {
    hide TagFree, TameText, OneTagAt, PartAt;
    var i := PartAt(s);
    assert s[..i] + s[i..] == s;
    FreePrefix(fams, s[..i], s[i..]);
    FreeIsTame(t, fams, s[..i]);
    if i < |s| {
      FreeSuffix(fams, s, i + 1);
      FreeIsCalm(t, fams, s[i + 1..]);
    }
  }

  lemma {:induction false} CalmJoins(t: Tables, fams: seq<string>, a: string, c: char, b: string)
    requires Parts(c) && CalmText(t, fams, a) && CalmText(t, fams, b)
    ensures CalmText(t, fams, a + ([c] + b))
    decreases |a|
  {
    hide Calm, PartAt, Parts;
    var s, i := a + ([c] + b), PartAt(a);
    assert a + [c] + b == s;
    PartInSum(a, [c] + b);
    if i < |a| {
      CalmJoins(t, fams, a[i + 1..], c, b);
      assert s[..i] == a[..i] && s[i + 1..] == a[i + 1..] + ([c] + b);
    } else {
      PartAtIs([c] + b, 0);
      NoPart(a);
      assert s[..i] == a && s[i + 1..] == b;
    }
  }

  /** A listed tag that stands for such a value is calm on its own. */
  lemma {:induction false} TagIsCalm(t: Tables, fams: seq<string>, f: string, core: string)
    requires Disjointed(fams) && f in fams && IsTag(f, core)
    requires f + core in t.tags && TagFree(fams, t.tags[f + core])
    ensures CalmText(t, fams, f + core)
  {
    hide TameText, TagFree, FirstFam, TagLen, HasTag, AllApart, IsFamily, FamAt, FilledIn, ValueAt;
    var tag := f + core;
    TagIsRead(f, core, "");
    assert f + core + "" == tag;
    assert tag[0..] == tag;
    var i :| 0 <= i < |fams| && fams[i] == f;
    ReadFirst(fams, i, tag);
    forall k | 0 < k < |tag| ensures FirstFam(fams, tag[k..]) == |fams| {
      NoneInside(fams, f, tag, k);
    }
    LoneFilledIn(t, fams, f, core);
    assert OneTagAt(t, fams, tag, 0);
    TagHasNoPart(f, core);
    NoPart(tag);
  }

  lemma LoneFilledIn(t: Tables, fams: seq<string>, f: string, core: string)
    requires core != "" && f + core in t.tags && FirstFam(fams, f + core) < |fams|
    requires fams[FirstFam(fams, f + core)] == f && TagLen(f, f + core) == |f + core|
    ensures ValueAt(t, fams, f + core, 0) == Some(t.tags[f + core])
    ensures FilledIn(t, fams, f + core, 0) == t.tags[f + core]
  {
    hide FirstFam, TagLen;
    var tag := f + core;
    var v := t.tags[tag];
    assert tag[0..] == tag && tag[|tag|..] == "" && tag[..0] == "" && tag[|f|..|tag|] == core;
    assert FamAt(fams, tag, 0) == f;
    assert "" + v + "" == v;
  }

  lemma NoneInside(fams: seq<string>, f: string, tag: string, k: nat)
    requires Disjointed(fams) && f in fams && HasTag(f, tag) && 0 < k < TagLen(f, tag)
    ensures FirstFam(fams, tag[k..]) == |fams|
  {
    forall g | g in fams ensures !HasTag(g, tag[k..]) {
      NoTagInside(f, g, tag, k);
    }
  }

  lemma TagHasNoPart(fam: string, core: string)
    requires IsTag(fam, core)
    ensures PartAt(fam + core) == |fam + core|
  {
    var s := fam + core;
    assert forall k | 0 <= k < |s| :: s[k] == if k < |fam| then fam[k] else core[k - |fam|];
    PartAtIs(s, |s|);
  }

  /** So when every tag is set off, and no value shows a listed tag, one scan does what the
      passes do, whatever the values start or end with. */
  lemma {:induction false} SetOffIsScannable(t: Tables, fams: seq<string>, d: Doc)
    requires Disjointed(fams) && Separated(d) && Listed(fams, d) && TagFreeLits(fams, d)
    requires SetOff(d) && ValuesFree(t, fams, d)
    ensures CalmText(t, fams, Render(d))
    decreases d
  {
    hide CalmText, TagFree, Disjointed, IsTag, Follows, FamPart, CorePart, Parts;
    match d
    case End(l) => FreeIsCalm(t, fams, l);
    case Seg(l, a, r) =>
      SetOffIsScannable(t, fams, r);
      assert FamPart(a.tag) + CorePart(a.tag) == a.tag by { PartsOfAtom(a.tag); }
      TagIsCalm(t, fams, FamPart(a.tag), CorePart(a.tag));
      var y := Render(r);
      TagAndRest(t, fams, a.tag, y);
      LitAndTag(t, fams, l, a.tag + y);
  }

  lemma PartsOfAtom(tag: string)
    ensures FamPart(tag) + CorePart(tag) == tag
  {}

  lemma {:induction false} TagAndRest(t: Tables, fams: seq<string>, tag: string, y: string)
    requires CalmText(t, fams, tag) && CalmText(t, fams, y) && (y == "" || Parts(y[0]))
    ensures CalmText(t, fams, tag + y)
  {
    hide Calm, PartAt, Parts;
    if y == "" {
      assert tag + y == tag;
    } else {
      PartAtIs(y, 0);
      CalmJoins(t, fams, tag, y[0], y[1..]);
      assert [y[0]] + y[1..] == y;
    }
  }

  lemma {:induction false} LitAndTag(t: Tables, fams: seq<string>, l: string, z: string)
    requires TagFree(fams, l) && CalmText(t, fams, z) && (l == "" || Parts(l[|l| - 1]))
    ensures CalmText(t, fams, l + z)
  {
    hide CalmText, TagFree, Parts;
    if l == "" {
      assert l + z == z;
    } else {
      var n := |l| - 1;
      assert l[..n] + [l[n]] == l && l[..n] + ([l[n]] + z) == l + z;
      FreePrefix(fams, l[..n], [l[n]]);
      FreeIsCalm(t, fams, l[..n]);
      CalmJoins(t, fams, l[..n], l[n], z);
    }
  }

  /** Sanitizing a text, sending it back in any chunks, and feeding these to a stream: the
      text comes out as it was, with as many restorations as there were replacements. */
  lemma {:induction false} StreamRoundTrip(st: Store, s: string, prefix: string, t: Tables, fams: seq<string>,
                                           chunks: seq<string>)
    requires Coherent(st) && SanitizeText(st, s, prefix).Done?
    requires var w := SanitizeText(st, s, prefix);
             ExtraFree(w.st) && (forall k | k in w.st.tags :: k in t.tags && t.tags[k] == w.st.tags[k])
             && ListReadable(Passes(fams), w.doc) && Fresh(w.doc) && Concat(chunks) == Render(w.doc)
    requires StreamFams(fams) && Unnested(fams)
    requires Scannable(t, Passes(fams), Render(SanitizeText(st, s, prefix).doc))
    requires forall f | f in Passes(fams) :: f in fams
    ensures Stream.Run(t, fams, "", chunks) == Output(s, Changes(SanitizeText(st, s, prefix).doc))
  {
    hide SanitizeText, ListReadable, Stream.Run, PassOut, Tame, Scannable, Passes;
    SanitizeIsGood(st, s, prefix);
    var w := SanitizeText(st, s, prefix);
    KnownLater(w.st, t, w.doc);
    assert "" + Concat(chunks) == Concat(chunks);
    ScannableIsTame(t, Passes(fams), Render(w.doc));
    RunIsWhole(t, fams, "", chunks);
    PassesReadDoc(t, Passes(fams), w.doc);
    FreshExpands(t, w.doc);
  }
}
