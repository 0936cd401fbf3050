/** Sanitizing a text: protected spans, value replacement in the gaps, and the documents
    that record where every part of the output comes from. */
module Sanitize {
  import opened Text
  import opened TagStore
  import opened StoreRuns
  import opened Sweep
  import opened Shapes
  import opened LeakCheck

  /** A tag in the output: what it stands for, and whether it was already there. */
  datatype Atom = Atom(tag: string, orig: string, live: bool)

  /** The output: literal fragments with one tag between neighbours. */
  datatype Doc = End(lit: string) | Seg(lit: string, atom: Atom, rest: Doc)

  datatype Work = Done(st: Store, doc: Doc) | Failed(st: Store)

  function Render(d: Doc): string {
    match d
    case End(l) => l
    case Seg(l, a, r) => l + (a.tag + Render(r))
  }

  /** The text the output was made from. */
  function Source(d: Doc): string {
    match d
    case End(l) => l
    case Seg(l, a, r) => l + (a.orig + Source(r))
  }

  /** Replacements: values and foreign tokens, not the tags that were kept. */
  function Changes(d: Doc): nat {
    match d
    case End(_) => 0
    case Seg(_, a, r) => (if a.live then 0 else 1) + Changes(r)
  }

  function Append(d: Doc, a: Atom, r: Doc): Doc {
    match d
    case End(l) => Seg(l, a, r)
    case Seg(l, b, q) => Seg(l, b, Append(q, a, r))
  }

  // ---------- a fragment without protected spans ----------

  function Replace(st: Store, s: string, i: nat, ps: seq<Span>, prefix: string): Work
    requires InOrder(ps, st.values, s, i)
    decreases |ps|
  {
    if ps == [] then Done(st, End(s[i..]))
    else
      var v := s[ps[0].start..ps[0].end];
      var m := TagValue(st, v, prefix);
      TagValueKeepsVault(st, v, prefix);
      if m.tag.None? then Failed(m.st)
      else
        match Replace(m.st, s, ps[0].end, ps[1..], prefix)
        case Failed(st1) => Failed(st1)
        case Done(st1, d) => Done(st1, Seg(s[i..ps[0].start], Atom(m.tag.value, v, false), d))
  }

  lemma TagValueKeepsVault(st: Store, v: string, prefix: string)
    ensures TagValue(st, v, prefix).st.values == st.values
  {
    if v !in st.extra {
      var fam := FamilyFor(st, v, prefix);
      MintAtKeeps(st, fam, v, MINT_WIDTHS);
      RegisteredKeeps(st, v, LOAD_WIDTHS);
      MintAtKeeps(Registered(st, v, LOAD_WIDTHS).st, PWD, v, MINT_WIDTHS);
    }
  }

  function Plain(st: Store, s: string, prefix: string): Work {
    ScanIs(st.values, s, 0);
    match Replace(st, s, 0, Scan(st.values, s, 0), prefix)
    case Failed(st1) => Failed(st1)
    case Done(st1, d) => Done(GetFams(st1), d)
  }

  /** A gap between spans; an empty one is skipped. */
  function Gap(st: Store, s: string, prefix: string): Work {
    if s == "" then Done(st, End("")) else Plain(st, s, prefix)
  }

  // ---------- protected spans ----------

  /** The text cut at its tag-shaped spans. */
  datatype Cuts = Last(gap: string) | Cut(gap: string, token: string, rest: Cuts)

  function Prepend(w: string, c: Cuts): Cuts {
    match c
    case Last(g) => Last(w + g)
    case Cut(g, t, r) => Cut(w + g, t, r)
  }

  /** What the span search meets at the start of a text: how far it goes, and whether that is a protected
      span rather than a plain character or a value. */
  datatype Meet = Meet(step: nat, span: bool)

  function MeetOf(values: seq<string>, w: string): (m: Meet)
    requires w != ""
    ensures 0 < m.step <= |w|
  {
    var n := RawLen(w);
    if n == 0 then Meet(1, false) else Meet(n, w[..n] !in values)
  }

  /** Spans from left to right; a span that is a vault value stays in the plain text. */
  function Segment(values: seq<string>, s: string): Cuts
    decreases |s|
  {
    if s == "" then Last("")
    else
      var m := MeetOf(values, s);
      var rest := Segment(values, s[m.step..]);
      if m.span then Cut("", s[..m.step], rest) else Prepend(s[..m.step], rest)
  }

  /** A gap and the span behind it: the gap's document, and the tag that closes it. */
  datatype CutWork = CutDone(st: Store, doc: Doc, atom: Atom) | CutFailed(st: Store)

  /** The gap is searched for values; a known span is kept, any other is replaced whole. */
  function OneCut(st: Store, gap: string, tok: string, known: bool, prefix: string): CutWork {
    match Gap(st, gap, prefix)
    case Failed(st1) => CutFailed(st1)
    case Done(st1, d1) =>
      if known then CutDone(st1, d1, Atom(tok, tok, true))
      else
        var m := Retag(st1, tok, prefix);
        if m.tag.None? then CutFailed(m.st) else CutDone(m.st, d1, Atom(m.tag.value, tok, false))
  }

  /** Cut by cut; a span is known when the store had it as the text came in. */
  function Process(st: Store, c: Cuts, known: map<string, string>, prefix: string): Work
    decreases c
  {
    match c
    case Last(g) => Gap(st, g, prefix)
    case Cut(g, tok, rest) =>
      match OneCut(st, g, tok, tok in known, prefix)
      case CutFailed(st1) => Failed(st1)
      case CutDone(st1, d, atom) =>
        match Process(st1, rest, known, prefix)
        case Failed(st2) => Failed(st2)
        case Done(st2, d2) => Done(st2, Append(d, atom, d2))
  }

  /** The output before the last check. */
  function Draft(st: Store, s: string, prefix: string): Work {
    Process(st, Segment(st.values, s), st.tags, prefix)
  }

  /** The whole call: refused when the last check finds a longer value between the tags. */
  function SanitizeText(st: Store, s: string, prefix: string): Work {
    match Draft(st, s, prefix)
    case Failed(st1) => Failed(st1)
    case Done(st1, d) => Checked(GetFams(st1), d)
  }

  function Checked(st: Store, d: Doc): Work {
    if Refuses(st, Render(d)) then Failed(st) else Done(st, d)
  }

  // ---------- what a document guarantees ----------

  /** No literal fragment contains a vault value. */
  ghost predicate LitsFree(d: Doc, values: seq<string>) {
    match d
    case End(l) => NoValue(values, l)
    case Seg(l, a, r) => NoValue(values, l) && LitsFree(r, values)
  }

  ghost predicate NoValue(values: seq<string>, l: string) {
    forall i, j :: !Occurs(values, l, i, j)
  }

  /** Every new tag stands for what it replaced; every kept tag is known. */
  ghost predicate AtomsHold(st: Store, d: Doc) {
    match d
    case End(_) => true
    case Seg(_, a, r) =>
      a.tag in st.tags && (if a.live then a.tag == a.orig else st.tags[a.tag] == a.orig) && AtomsHold(st, r)
  }

  /** A kept tag stands for itself. */
  predicate AtomsLive(d: Doc) { d.Seg? ==> (d.atom.live ==> d.atom.tag == d.atom.orig) && AtomsLive(d.rest) }

  predicate TagsNonEmpty(d: Doc) { d.Seg? ==> d.atom.tag != "" && TagsNonEmpty(d.rest) }

  lemma {:induction false} AtomsHoldLater(a: Store, b: Store, d: Doc)
    requires AtomsHold(a, d) && Later(a, b)
    ensures AtomsHold(b, d)
    decreases d
  {
    if d.Seg? {
      AtomsHoldLater(a, b, d.rest);
    }
  }

  lemma {:induction false} AppendIs(d: Doc, a: Atom, r: Doc)
    ensures Source(Append(d, a, r)) == Source(d) + (a.orig + Source(r))
    ensures Render(Append(d, a, r)) == Render(d) + (a.tag + Render(r))
    ensures Changes(Append(d, a, r)) == Changes(d) + (if a.live then 0 else 1) + Changes(r)
    decreases d
  {
    if d.Seg? {
      AppendIs(d.rest, a, r);
      SumAssoc3(d.lit, d.atom.orig, Source(d.rest), a.orig + Source(r));
      SumAssoc3(d.lit, d.atom.tag, Render(d.rest), a.tag + Render(r));
    }
  }

  lemma SumAssoc3(a: string, b: string, c: string, d: string)
    ensures a + (b + (c + d)) == a + (b + c) + d
  {}

  lemma {:induction false} AppendKeeps(st: Store, d: Doc, a: Atom, r: Doc, values: seq<string>)
    ensures LitsFree(d, values) && LitsFree(r, values) ==> LitsFree(Append(d, a, r), values)
    ensures AtomsHold(st, d) && AtomsHold(st, Seg("", a, r)) ==> AtomsHold(st, Append(d, a, r))
    ensures TagsNonEmpty(d) && TagsNonEmpty(Seg("", a, r)) ==> TagsNonEmpty(Append(d, a, r))
    ensures AtomsLive(d) && AtomsLive(Seg("", a, r)) ==> AtomsLive(Append(d, a, r))
    decreases d
  {
    if d.Seg? {
      AppendKeeps(st, d.rest, a, r, values);
    }
  }

  /** No other value holds the whole-cell tag of a cell. */
  ghost predicate ExtraFree(st: Store) {
    forall v | v in st.extra :: Free(st, st.extra[v], v)
  }

  lemma ExtraFreeBack(a: Store, b: Store)
    requires Later(a, b) && ExtraFree(b)
    ensures ExtraFree(a)
  {
    forall v | v in a.extra ensures Free(a, a.extra[v], v) {
      assert b.extra[v] == a.extra[v];
    }
  }

  /** The tag of a value stands for it, unless it is a whole-cell tag that another value
      took in the meantime. */
  lemma {:induction false} TagValueHolds(st: Store, v: string, prefix: string)
    requires Coherent(st)
    ensures var m := TagValue(st, v, prefix);
            Later(st, m.st) && Coherent(m.st)
            && (m.tag.Some? ==> m.tag.value in m.st.tags && m.tag.value != "")
            && (m.tag.Some? && ExtraFree(m.st) ==> m.st.tags[m.tag.value] == v)
  {
    if v in st.extra {
      UseExtraKeeps(st, v);
      var b := UseExtra(st, v).st;
      assert ExtraFree(b) ==> Free(b, b.extra[v], v);
    } else {
      TagForKeeps(st, v, prefix);
    }
  }

  /** A later, coherent state and a document that is faithful to `s`. */
  ghost predicate Good(st: Store, w: Work, s: string) {
    Later(st, w.st) && Coherent(w.st)
    && (w.Done? ==> Source(w.doc) == s && LitsFree(w.doc, st.values) && TagsNonEmpty(w.doc) && AtomsLive(w.doc)
                    && (ExtraFree(w.st) ==> AtomsHold(w.st, w.doc)))
  }

  lemma {:induction false} ReplaceIsGood(st: Store, s: string, i: nat, ps: seq<Span>, prefix: string)
    requires Coherent(st) && InOrder(ps, st.values, s, i) && GapsFree(ps, st.values, s, i)
    ensures Good(st, Replace(st, s, i, ps, prefix), s[i..])
    decreases |ps|
  {
    if ps == [] {
      GapHasNoValue(st.values, s, i, |s|);
      assert s[i..|s|] == s[i..];
    } else {
      var p := ps[0];
      var v := s[p.start..p.end];
      var m := TagValue(st, v, prefix);
      TagValueHolds(st, v, prefix);
      if m.tag.Some? {
        GapHasNoValue(st.values, s, i, p.start);
        ReplaceIsGood(m.st, s, p.end, ps[1..], prefix);
        var w := Replace(m.st, s, p.end, ps[1..], prefix);
        LaterTransitive(st, m.st, w.st);
        SplitAtPick(s, i, p);
        if ExtraFree(w.st) {
          ExtraFreeBack(m.st, w.st);
        }
      }
    }
  }

  lemma SplitAtPick(s: string, i: nat, p: Span)
    requires i <= p.start <= p.end <= |s|
    ensures s[i..] == s[i..p.start] + (s[p.start..p.end] + s[p.end..])
  {}

  lemma GapHasNoValue(values: seq<string>, s: string, i: nat, k: nat)
    requires i <= k <= |s|
    requires forall a, b | i <= a < k :: !Occurs(values, s, a, b)
    ensures NoValue(values, s[i..k])
  {
    forall a: nat, b: nat ensures !Occurs(values, s[i..k], a, b) {
      OccursInGap(values, s, i, k, a, b);
    }
  }

  lemma OccursInGap(values: seq<string>, s: string, i: nat, k: nat, a: nat, b: nat)
    requires i <= k <= |s|
    ensures Occurs(values, s[i..k], a, b) ==> i + a < k && Occurs(values, s, i + a, i + b)
  {
    if a < b <= k - i {
      SliceOfSlice(s, i, k, a, b);
    }
  }

  lemma SliceOfSlice(s: string, i: nat, k: nat, a: nat, b: nat)
    requires i <= k <= |s| && a <= b <= k - i
    ensures s[i..k][a..b] == s[i + a..i + b]
  {
    assert forall x | 0 <= x < b - a :: s[i..k][a..b][x] == s[i + a + x] == s[i + a..i + b][x];
  }

  lemma GetFamsKeeps(st: Store)
    requires Coherent(st)
    ensures Later(st, GetFams(st)) && Coherent(GetFams(st)) && GetFams(st).tags == st.tags
    ensures ExtraFree(GetFams(st)) <==> ExtraFree(st)
  {}

  lemma PlainIsGood(st: Store, s: string, prefix: string)
    requires Coherent(st)
    ensures Good(st, Plain(st, s, prefix), s)
  {
    var ps := Scan(st.values, s, 0);
    ScanIs(st.values, s, 0);
    ReplaceIsGood(st, s, 0, ps, prefix);
    assert s[0..] == s;
    var w := Replace(st, s, 0, ps, prefix);
    if w.Done? {
      GetFamsKeeps(w.st);
      LaterTransitive(st, w.st, GetFams(w.st));
      if ExtraFree(w.st) {
        AtomsHoldLater(w.st, GetFams(w.st), w.doc);
      }
    }
  }

  lemma GapIsGood(st: Store, s: string, prefix: string)
    requires Coherent(st)
    ensures Good(st, Gap(st, s, prefix), s)
  {
    if s != "" {
      hide Plain;
      PlainIsGood(st, s, prefix);
    }
  }

  /** The text of the cuts. */
  function Whole(c: Cuts): string {
    match c
    case Last(g) => g
    case Cut(g, t, r) => g + (t + Whole(r))
  }

  lemma {:induction false} SegmentIs(values: seq<string>, s: string)
    ensures Whole(Segment(values, s)) == s && TokensNonEmpty(Segment(values, s))
    decreases |s|
  {
    if s != "" {
      var k := MeetOf(values, s).step;
      SegmentIs(values, s[k..]);
      PrependIs(s[..k], Segment(values, s[k..]));
      TakeDrop(s, k);
    }
  }

  predicate TokensNonEmpty(c: Cuts) { c.Cut? ==> c.token != "" && TokensNonEmpty(c.rest) }

  lemma TakeDrop(s: string, k: nat)
    requires k <= |s|
    ensures s[..k] + s[k..] == s && "" + (s[..k] + s[k..]) == s
  {}

  lemma PrependIs(w: string, c: Cuts)
    ensures Whole(Prepend(w, c)) == w + Whole(c)
    ensures TokensNonEmpty(c) ==> TokensNonEmpty(Prepend(w, c))
  {
    if c.Cut? {
      SumAssoc(w, c.gap, c.token + Whole(c.rest));
    }
  }

  lemma {:induction false} OneCutIsGood(st: Store, g: string, tok: string, known: bool, prefix: string)
    requires Coherent(st) && tok != "" && (known ==> tok in st.tags)
    ensures var w := OneCut(st, g, tok, known, prefix);
            Later(st, w.st) && Coherent(w.st)
            && (w.CutDone? ==> w.atom.orig == tok && w.atom.tag != "" && w.atom.tag in w.st.tags
                               && (if w.atom.live then w.atom.tag == tok else w.st.tags[w.atom.tag] == tok)
                               && Good(st, Done(w.st, w.doc), g))
  {
    hide Gap;
    GapIsGood(st, g, prefix);
    var w := Gap(st, g, prefix);
    if w.Done? && !known {
      var m := Retag(w.st, tok, prefix);
      RetagAtKeeps(w.st, OrDefault(prefix), tok, RETAG_WIDTHS);
      LaterTransitive(st, w.st, m.st);
      if ExtraFree(m.st) {
        ExtraFreeBack(w.st, m.st);
        AtomsHoldLater(w.st, m.st, w.doc);
      }
    }
  }

  lemma {:induction false} ProcessIsGood(st: Store, c: Cuts, known: map<string, string>, prefix: string)
    requires Coherent(st) && TokensNonEmpty(c) && forall k | k in known :: k in st.tags
    ensures Good(st, Process(st, c, known, prefix), Whole(c))
    decreases c
  {
    match c
    case Last(g) => GapIsGood(st, g, prefix);
    case Cut(g, tok, rest) =>
      OneCutIsGood(st, g, tok, tok in known, prefix);
      var w := OneCut(st, g, tok, tok in known, prefix);
      if w.CutDone? {
        ProcessIsGood(w.st, rest, known, prefix);
        JoinsGood(st, w.doc, w.st, Process(w.st, rest, known, prefix), g, w.atom, rest);
      }
  }

  /** A gap, a tag and the rest, put together. */
  lemma JoinsGood(st: Store, d1: Doc, st1: Store, w: Work, g: string, a: Atom, rest: Cuts)
    requires Good(st, Done(st1, d1), g) && Good(st1, w, Whole(rest))
    requires a.tag != "" && a.tag in st1.tags && (if a.live then a.tag == a.orig else st1.tags[a.tag] == a.orig)
    ensures Later(st, w.st) && Coherent(w.st)
    ensures w.Done? ==> Good(st, Done(w.st, Append(d1, a, w.doc)), g + (a.orig + Whole(rest)))
  {
    LaterTransitive(st, st1, w.st);
    if w.Done? {
      AppendIs(d1, a, w.doc);
      AppendKeeps(w.st, d1, a, w.doc, st.values);
      if ExtraFree(w.st) {
        ExtraFreeBack(st1, w.st);
        AtomsHoldLater(st1, w.st, d1);
      }
    }
  }

  lemma DraftIsGood(st: Store, s: string, prefix: string)
    requires Coherent(st)
    ensures Good(st, Draft(st, s, prefix), s)
  {
    SegmentIs(st.values, s);
    ProcessIsGood(st, Segment(st.values, s), st.tags, prefix);
  }

  /** Sanitizing any text, from any coherent state: the document spells the text, none of
      its literal fragments contains a vault value, and every tag stands for what it
      replaced. */
  lemma SanitizeIsGood(st: Store, s: string, prefix: string)
    requires Coherent(st)
    ensures Good(st, SanitizeText(st, s, prefix), s)
  {
    hide Draft, Refuses;
    DraftIsGood(st, s, prefix);
    var w := Draft(st, s, prefix);
    if w.Done? {
      GetFamsKeeps(w.st);
      LaterTransitive(st, w.st, GetFams(w.st));
      if ExtraFree(w.st) {
        AtomsHoldLater(w.st, GetFams(w.st), w.doc);
      }
    }
  }

  /** Without a replacement the document spells the text it was made from. */
  lemma {:induction false} NoChangeNoEdit(d: Doc)
    requires AtomsLive(d) && Changes(d) == 0
    ensures Render(d) == Source(d)
    decreases d
  {
    if d.Seg? {
      NoChangeNoEdit(d.rest);
    }
  }

  // ---------- building a document from the left ----------

  /** A literal and the tag behind it. */
  datatype Part = Part(lit: string, atom: Atom)

  function Wrap(parts: seq<Part>, d: Doc): Doc
    decreases |parts|
  {
    if parts == [] then d else Seg(parts[0].lit, parts[0].atom, Wrap(parts[1..], d))
  }

  function WrapWork(parts: seq<Part>, w: Work): Work {
    match w
    case Failed(st) => Failed(st)
    case Done(st, d) => Done(st, Wrap(parts, d))
  }

  function PartsText(parts: seq<Part>): string
    decreases |parts|
  {
    if parts == [] then "" else parts[0].lit + (parts[0].atom.tag + PartsText(parts[1..]))
  }

  function PartsChanges(parts: seq<Part>): nat
    decreases |parts|
  {
    if parts == [] then 0 else (if parts[0].atom.live then 0 else 1) + PartsChanges(parts[1..])
  }

  lemma {:induction false} WrapOneMore(parts: seq<Part>, p: Part, d: Doc)
    ensures Wrap(parts + [p], d) == Wrap(parts, Seg(p.lit, p.atom, d))
    ensures PartsText(parts + [p]) == PartsText(parts) + (p.lit + p.atom.tag)
    ensures PartsChanges(parts + [p]) == PartsChanges(parts) + (if p.atom.live then 0 else 1)
    decreases |parts|
  {
    if parts == [] {
      assert parts + [p] == [p] && [p][1..] == [];
      assert p.lit + (p.atom.tag + "") == p.lit + p.atom.tag;
    } else {
      WrapOneMore(parts[1..], p, d);
      assert (parts + [p])[1..] == parts[1..] + [p];
      SumAssoc3(parts[0].lit, parts[0].atom.tag, PartsText(parts[1..]), p.lit + p.atom.tag);
    }
  }

  lemma {:induction false} WrapIs(parts: seq<Part>, d: Doc)
    ensures Render(Wrap(parts, d)) == PartsText(parts) + Render(d)
    ensures Changes(Wrap(parts, d)) == PartsChanges(parts) + Changes(d)
    decreases |parts|
  {
    if parts == [] {
      assert "" + Render(d) == Render(d);
    } else {
      WrapIs(parts[1..], d);
      SumAssoc3(parts[0].lit, parts[0].atom.tag, PartsText(parts[1..]), Render(d));
    }
  }

  // ---------- spans by position ----------

  /** Where the protected spans of the cuts lie when the text starts at `i`. */
  function SpansOf(c: Cuts, i: nat): seq<Span>
    decreases c
  {
    match c
    case Last(_) => []
    case Cut(g, t, r) => [Span(i + |g|, i + |g| + |t|)] + SpansOf(r, i + |g| + |t|)
  }

  lemma SpansOfPrepend(w: string, c: Cuts, i: nat)
    ensures SpansOf(Prepend(w, c), i) == SpansOf(c, i + |w|)
  {}

  lemma MeetIs(values: seq<string>, text: string, pos: nat)
    requires pos < |text|
    ensures var m, n := MeetOf(values, text[pos..]), RawLen(text[pos..]);
            pos + n <= |text| && m.step == (if n == 0 then 1 else n)
            && (m.span <==> n > 0 && text[pos..pos + n] !in values)
  {
    hide RawLen;
    SuffixParts(text, pos, RawLen(text[pos..]));
  }

  /** One step of the span search, as the list of spans sees it. */
  lemma {:induction false} SpansMeet(values: seq<string>, w: string, i: nat, m: Meet)
    requires w != "" && m == MeetOf(values, w)
    ensures var rest := SpansOf(Segment(values, w[m.step..]), i + m.step);
            SpansOf(Segment(values, w), i) == if m.span then [Span(i, i + m.step)] + rest else rest
  {
    hide RawLen;
    SpansOfPrepend(w[..m.step], Segment(values, w[m.step..]), i);
  }
}
