/** The loops that build a sanitized text from the left. What has been put out so far is a
    list of parts, each a literal and the tag behind it; each step takes one more part off
    what is left. The lemmas here are those steps; they say nothing about the program
    beyond its loops. */
module SanitizeLoop {
  import opened Text
  import opened TagStore
  import opened Sweep
  import opened Sanitize

  /** What a caller sees of the work: text and count, or a refusal. */
  function Outcome(w: Work): Option<(string, nat)> {
    match w
    case Failed(_) => None
    case Done(_, d) => Some((Render(d), Changes(d)))
  }

  lemma EmptyDoc()
    ensures Render(End("")) == "" && Changes(End("")) == 0
  {}

  lemma NoParts(w: Work)
    ensures WrapWork([], w) == w && PartsText([]) == "" && PartsChanges([]) == 0
  {}

  lemma PartStep(acc: seq<Part>, st: Store, s: string, pos: nat, ps: seq<Span>, prefix: string)
    requires InOrder(ps, st.values, s, pos) && ps != []
    requires TagValue(st, s[ps[0].start..ps[0].end], prefix).st.values == st.values
    ensures var m := TagValue(st, s[ps[0].start..ps[0].end], prefix);
            m.tag.None? ==> Replace(st, s, pos, ps, prefix) == Failed(m.st)
    ensures var v := s[ps[0].start..ps[0].end];
            var m := TagValue(st, v, prefix);
            m.tag.Some? ==>
              var part := Part(s[pos..ps[0].start], Atom(m.tag.value, v, false));
              WrapWork(acc, Replace(st, s, pos, ps, prefix))
              == WrapWork(acc + [part], Replace(m.st, s, ps[0].end, ps[1..], prefix))
              && PartsText(acc + [part]) == PartsText(acc) + (part.lit + part.atom.tag)
              && PartsChanges(acc + [part]) == PartsChanges(acc) + 1
  {
    hide TagValue;
    var v := s[ps[0].start..ps[0].end];
    var m := TagValue(st, v, prefix);
    if m.tag.Some? {
      var w := Replace(m.st, s, ps[0].end, ps[1..], prefix);
      WrapOneMore(acc, Part(s[pos..ps[0].start], Atom(m.tag.value, v, false)), if w.Done? then w.doc else End(""));
    }
  }

  lemma LastPart(acc: seq<Part>, st: Store, s: string, pos: nat, prefix: string)
    requires pos <= |s|
    ensures InOrder([], st.values, s, pos)
    ensures var w := WrapWork(acc, Replace(st, s, pos, [], prefix));
            w.st == st && Outcome(w) == Some((PartsText(acc) + s[pos..], PartsChanges(acc)))
  {
    WrapIs(acc, End(s[pos..]));
  }

  lemma NoSpansLeft(values: seq<string>, i: nat)
    ensures SpansOf(Segment(values, ""), i) == []
  {}

  /** Text and count of a gap and the tag behind it. */
  function CutOutcome(w: CutWork): Option<(string, nat)> {
    match w
    case CutFailed(_) => None
    case CutDone(_, d, a) => Some((Render(d) + a.tag, Changes(d) + if a.live then 0 else 1))
  }

  lemma CutHere(text: string, pos: nat, c: Cuts, spans: seq<Span>)
    requires pos <= |text| && text[pos..] == Whole(c) && spans == SpansOf(c, pos) && spans != []
    ensures c.Cut?
    ensures var a, b := spans[0].start, spans[0].end;
            pos <= a <= b <= |text| && text[pos..a] == c.gap && text[a..b] == c.token
            && text[b..] == Whole(c.rest) && spans[1..] == SpansOf(c.rest, b)
  {
    var a, b := spans[0].start, spans[0].end;
    var w := text[pos..];
    assert w == c.gap + (c.token + Whole(c.rest));
    assert w[..|c.gap|] == c.gap && w[|c.gap|..|c.gap| + |c.token|] == c.token;
    assert w[|c.gap| + |c.token|..] == Whole(c.rest);
    SuffixParts(text, pos, a - pos);
    SuffixParts(text, pos, b - pos);
    assert w[a - pos..b - pos] == text[a..b];
  }

  /** The parts of a fragment's document, closed by a tag. */
  function PartsOf(d: Doc, atom: Atom): seq<Part> {
    match d
    case End(l) => [Part(l, atom)]
    case Seg(l, b, r) => [Part(l, b)] + PartsOf(r, atom)
  }

  lemma {:induction false} PartsOfIs(acc: seq<Part>, d: Doc, atom: Atom, r: Doc)
    ensures Wrap(acc + PartsOf(d, atom), r) == Wrap(acc, Append(d, atom, r))
    ensures PartsText(acc + PartsOf(d, atom)) == PartsText(acc) + (Render(d) + atom.tag)
    ensures PartsChanges(acc + PartsOf(d, atom)) == PartsChanges(acc) + Changes(d) + (if atom.live then 0 else 1)
    decreases d
  {
    match d
    case End(l) => WrapOneMore(acc, Part(l, atom), r);
    case Seg(l, b, q) =>
      var p := Part(l, b);
      WrapOneMore(acc, p, Append(q, atom, r));
      PartsOfIs(acc + [p], q, atom, r);
      assert acc + PartsOf(d, atom) == acc + [p] + PartsOf(q, atom);
      FourParts(PartsText(acc), l, b.tag, Render(q), atom.tag);
  }

  lemma FourParts(a: string, b: string, c: string, d: string, e: string)
    ensures a + (b + c) + (d + e) == a + (b + (c + d) + e)
  {}

  lemma ProcessStep(acc: seq<Part>, st: Store, c: Cuts, known: map<string, string>, prefix: string)
    requires c.Cut?
    ensures var w := OneCut(st, c.gap, c.token, c.token in known, prefix);
            w.CutFailed? ==> Process(st, c, known, prefix) == Failed(w.st)
    ensures var w := OneCut(st, c.gap, c.token, c.token in known, prefix);
            w.CutDone? ==>
              WrapWork(acc, Process(st, c, known, prefix))
              == WrapWork(acc + PartsOf(w.doc, w.atom), Process(w.st, c.rest, known, prefix))
    ensures var w := OneCut(st, c.gap, c.token, c.token in known, prefix);
            w.CutDone? ==>
              PartsText(acc + PartsOf(w.doc, w.atom)) == PartsText(acc) + (Render(w.doc) + w.atom.tag)
              && PartsChanges(acc + PartsOf(w.doc, w.atom))
                 == PartsChanges(acc) + Changes(w.doc) + (if w.atom.live then 0 else 1)
  {
    hide OneCut;
    var w := OneCut(st, c.gap, c.token, c.token in known, prefix);
    if w.CutDone? {
      var w2 := Process(w.st, c.rest, known, prefix);
      PartsOfIs(acc, w.doc, w.atom, if w2.Done? then w2.doc else End(""));
    }
  }
}
