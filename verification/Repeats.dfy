/** Sanitizing the same text again later in a session: what was tagged keeps its tag. */
module Repeats {
  import opened Text
  import opened TagStore
  import opened StoreRuns
  import opened Sweep
  import opened LeakCheck
  import opened Sanitize
  import opened RoundTrip
  import opened Cells

  // ---------- states that cannot be told apart ----------

  /** The same state, but for the core index and the family cache. */
  ghost predicate Alike(a: Store, b: Store) {
    a.mac == b.mac && a.salt == b.salt && a.values == b.values && a.tags == b.tags && a.prefixes == b.prefixes
    && a.extra == b.extra && a.session == b.session && a.loaded == b.loaded
  }

  lemma {:induction false} MintAtAlike(a: Store, b: Store, fam: string, v: string, ws: seq<Width>)
    requires Alike(a, b)
    ensures MintAt(a, fam, v, ws).tag == MintAt(b, fam, v, ws).tag
    ensures Alike(MintAt(a, fam, v, ws).st, MintAt(b, fam, v, ws).st)
    decreases |ws|
  {
    if ws != [] {
      MintAtAlike(Indexed(a, v, ws[0]), Indexed(b, v, ws[0]), fam, v, ws[1..]);
    }
  }

  lemma {:induction false} RetagAtAlike(a: Store, b: Store, fam: string, tok: string, ws: seq<Width>)
    requires Alike(a, b)
    ensures RetagAt(a, fam, tok, ws).tag == RetagAt(b, fam, tok, ws).tag
    ensures Alike(RetagAt(a, fam, tok, ws).st, RetagAt(b, fam, tok, ws).st)
    decreases |ws|
  {
    if ws == [] {
      MintAtAlike(a, b, fam, tok, MINT_WIDTHS);
    } else {
      RetagAtAlike(a, b, fam, tok, ws[1..]);
    }
  }

  lemma {:induction false} RegisteredAlike(a: Store, b: Store, v: string, ws: seq<Width>)
    requires Alike(a, b)
    ensures Registered(a, v, ws).tag == Registered(b, v, ws).tag
    ensures Alike(Registered(a, v, ws).st, Registered(b, v, ws).st)
    decreases |ws|
  {
    if ws != [] {
      RegisteredAlike(Indexed(a, v, ws[0]), Indexed(b, v, ws[0]), v, ws[1..]);
    }
  }

  lemma {:induction false} TagForAlike(a: Store, b: Store, v: string, prefix: string)
    requires Alike(a, b)
    ensures TagFor(a, v, prefix).tag == TagFor(b, v, prefix).tag
    ensures Alike(TagFor(a, v, prefix).st, TagFor(b, v, prefix).st)
  {
    MintAtAlike(a, b, FamilyFor(a, v, prefix), v, MINT_WIDTHS);
    RegisteredAlike(a, b, v, LOAD_WIDTHS);
    MintAtAlike(Registered(a, v, LOAD_WIDTHS).st, Registered(b, v, LOAD_WIDTHS).st, PWD, v, MINT_WIDTHS);
  }

  lemma {:induction false} TagValueAlike(a: Store, b: Store, v: string, prefix: string)
    requires Alike(a, b)
    ensures TagValue(a, v, prefix).tag == TagValue(b, v, prefix).tag
    ensures Alike(TagValue(a, v, prefix).st, TagValue(b, v, prefix).st)
  {
    hide TagFor;
    TagForAlike(a, b, v, prefix);
  }

  /** The same work, from states that cannot be told apart. */
  ghost predicate AlikeWork(w: Work, x: Work) {
    Alike(w.st, x.st) && (w.Done? <==> x.Done?) && (w.Done? ==> w.doc == x.doc)
  }

  lemma {:induction false} ReplaceAlike(a: Store, b: Store, s: string, i: nat, ps: seq<Span>, prefix: string)
    requires Alike(a, b) && InOrder(ps, a.values, s, i)
    ensures AlikeWork(Replace(a, s, i, ps, prefix), Replace(b, s, i, ps, prefix))
    decreases |ps|
  {
    hide TagValue;
    if ps != [] {
      var v := s[ps[0].start..ps[0].end];
      TagValueAlike(a, b, v, prefix);
      TagValueKeepsVault(a, v, prefix);
      var m := TagValue(a, v, prefix);
      if m.tag.Some? {
        ReplaceAlike(m.st, TagValue(b, v, prefix).st, s, ps[0].end, ps[1..], prefix);
      }
    }
  }

  lemma PlainAlike(a: Store, b: Store, s: string, prefix: string)
    requires Alike(a, b)
    ensures AlikeWork(Plain(a, s, prefix), Plain(b, s, prefix))
  {
    hide Replace;
    ScanIs(a.values, s, 0);
    ReplaceAlike(a, b, s, 0, Scan(a.values, s, 0), prefix);
  }

  lemma GapAlike(a: Store, b: Store, s: string, prefix: string)
    requires Alike(a, b)
    ensures AlikeWork(Gap(a, s, prefix), Gap(b, s, prefix))
  {
    hide Plain;
    PlainAlike(a, b, s, prefix);
  }

  lemma {:induction false} ProcessAlike(a: Store, b: Store, c: Cuts, known: map<string, string>, prefix: string)
    requires Alike(a, b)
    ensures AlikeWork(Process(a, c, known, prefix), Process(b, c, known, prefix))
    decreases c
  {
    hide Gap;
    match c
    case Last(g) => GapAlike(a, b, g, prefix);
    case Cut(g, tok, rest) =>
      OneCutAlike(a, b, g, tok, tok in known, prefix);
      hide OneCut;
      var w := OneCut(a, g, tok, tok in known, prefix);
      if w.CutDone? {
        ProcessAlike(w.st, OneCut(b, g, tok, tok in known, prefix).st, rest, known, prefix);
      }
  }

  lemma OneCutAlike(a: Store, b: Store, g: string, tok: string, known: bool, prefix: string)
    requires Alike(a, b)
    ensures var w, x := OneCut(a, g, tok, known, prefix), OneCut(b, g, tok, known, prefix);
            Alike(w.st, x.st) && (w.CutDone? <==> x.CutDone?)
            && (w.CutDone? ==> w.doc == x.doc && w.atom == x.atom)
  {
    hide Gap;
    GapAlike(a, b, g, prefix);
    RetagAtAlike(Gap(a, g, prefix).st, Gap(b, g, prefix).st, OrDefault(prefix), tok, RETAG_WIDTHS);
  }

  lemma CheckedAlike(a: Store, b: Store, d: Doc)
    requires Alike(a, b)
    ensures AlikeWork(Checked(GetFams(a), d), Checked(GetFams(b), d))
  {
    hide Refuses;
    RefusesAlike(GetFams(a), GetFams(b), Render(d));
  }

  lemma RefusesAlike(a: Store, b: Store, out: string)
    requires Alike(a, b)
    ensures CheckFams(a) == CheckFams(b) && (Refuses(a, out) <==> Refuses(b, out))
  {
    hide Leaks;
  }

  /** What is put out, and whether the last check lets it, depends neither on the core index
      nor on the family cache. */
  lemma SanitizeAlike(a: Store, b: Store, s: string, prefix: string)
    requires Alike(a, b)
    ensures AlikeWork(SanitizeText(a, s, prefix), SanitizeText(b, s, prefix))
  {
    hide Process, Checked;
    ProcessAlike(a, b, Segment(a.values, s), a.tags, prefix);
    var w := Draft(a, s, prefix);
    if w.Done? {
      CheckedAlike(w.st, Draft(b, s, prefix).st, w.doc);
    }
  }

  // ---------- every value has a tag ----------

  /** The default-family tag of this width is entered for the value. */
  predicate Holds(st: Store, v: string, n: Width) {
    var tag := PWD + Core(st, v, n);
    tag in st.tags && st.tags[tag] == v
  }

  /** Every vault value has a default tag of its own: so after every load, and in every later
      state. */
  ghost predicate Tagged(st: Store) { forall v | v in st.values :: Holds(st, v, 4) || Holds(st, v, 6) }

  /** Every load that goes through tags every value, also those that share a short core. */
  lemma {:induction false} LoadTagsAll(st: Store, secrets: seq<string>, named: seq<string>, salt: string)
    requires Load(st, secrets, named, salt).ok
    ensures var r := Load(st, secrets, named, salt).st;
            Tagged(r) && forall v | v in r.values :: Holds(r, v, 4) <==> !Colliding(r, r.values, v)
  {
    hide Load, Dedup;
    LoadIff(st, secrets, named, salt);
    var r := Load(st, secrets, named, salt).st;
    forall v | v in r.values
      ensures (Holds(r, v, 4) || Holds(r, v, 6)) && (Holds(r, v, 4) <==> !Colliding(r, r.values, v))
    {
      assert LoadTag(r, r.values, v) in r.tags && r.tags[LoadTag(r, r.values, v)] == v;
      if Colliding(r, r.values, v) {
        ShortTagIsFree(r, r.values, v);
      }
    }
  }

  lemma HoldsLater(a: Store, b: Store, v: string, n: Width)
    requires Later(a, b) && Holds(a, v, n)
    ensures Holds(b, v, n)
  {
    assert Core(b, v, n) == Core(a, v, n);
  }

  lemma TaggedLater(a: Store, b: Store)
    requires Tagged(a) && Later(a, b)
    ensures Tagged(b)
  {
    hide Holds;
    forall v | v in b.values ensures Holds(b, v, 4) || Holds(b, v, 6) {
      if Holds(a, v, 4) {
        HoldsLater(a, b, v, 4);
      } else {
        HoldsLater(a, b, v, 6);
      }
    }
  }

  /** Between the two states no column family was changed, no vault value was tagged as a
      whole cell, and none without a whole-cell tag was given a new short tag. */
  ghost predicate SameRules(a: Store, b: Store) {
    a.prefixes == b.prefixes && (forall v | v in a.values && v in b.extra :: v in a.extra)
    && NoNewShort(a, b)
  }

  ghost predicate NoNewShort(a: Store, b: Store) {
    forall v | v in a.values && v !in a.extra && Holds(b, v, 4) :: Holds(a, v, 4)
  }

  lemma SameRulesTransitive(a: Store, b: Store, c: Store)
    requires a.values == b.values && SameRules(a, b) && SameRules(b, c)
    ensures SameRules(a, c)
  {
    hide Holds;
  }

  // ---------- what a step enters ----------

  /** Only `tag` is entered, for `v`. */
  ghost predicate Adds(a: Store, b: Store, tag: Option<string>, v: string) {
    SameKeys(a, b)
    && forall k | k in b.tags && !(k in a.tags && a.tags[k] == b.tags[k]) :: tag == Some(k) && b.tags[k] == v
  }

  lemma {:induction false} MintAtAdds(st: Store, fam: string, v: string, ws: seq<Width>)
    ensures Adds(st, MintAt(st, fam, v, ws).st, MintAt(st, fam, v, ws).tag, v)
    decreases |ws|
  {
    if ws != [] {
      MintAtAdds(Indexed(st, v, ws[0]), fam, v, ws[1..]);
    }
  }

  lemma {:induction false} RetagAtAdds(st: Store, fam: string, tok: string, ws: seq<Width>)
    ensures Adds(st, RetagAt(st, fam, tok, ws).st, RetagAt(st, fam, tok, ws).tag, tok)
    decreases |ws|
  {
    if ws == [] {
      MintAtAdds(st, fam, tok, MINT_WIDTHS);
    } else {
      RetagAtAdds(st, fam, tok, ws[1..]);
    }
  }

  lemma AddsNoShort(a: Store, b: Store, tag: Option<string>, v: string)
    requires Adds(a, b, tag, v) && (v !in a.values || v in a.extra || tag != Some(PWD + Core(a, v, 4)))
    ensures NoNewShort(a, b)
  {
    forall u | u in a.values && u !in a.extra && Holds(b, u, 4) ensures Holds(a, u, 4) {
      assert Core(a, u, 4) == Core(b, u, 4);
    }
  }

  /** A tag of another family is not the short default tag. */
  lemma OtherFamily(fam: string, core: string, short: string)
    requires AllHex(core) && |core| >= 8 && |short| == 8 && fam + core == PWD + short
    ensures fam == PWD
  {
    var t := fam + core;
    assert forall i | 0 <= i < |core| :: t[|fam| + i] == core[i];
    assert t[3] == '_' && t[4..] == short && t[|fam|..] == core;
    assert t[..4] == PWD && t[..|fam|] == fam;
  }

  lemma RegisteredSome(st: Store, v: string)
    requires Holds(st, v, 4) || Holds(st, v, 6)
    ensures Registered(st, v, LOAD_WIDTHS).tag == Some(PWD + Core(st, v, if Holds(st, v, 4) then 4 else 6))
  {
    RegisteredIs(st, v);
  }

  /** Tagging a vault value leaves the rules as they are. */
  lemma {:induction false} TagValueRules(st: Store, v: string, prefix: string)
    requires Tagged(st) && v in st.values
    ensures SameRules(st, TagValue(st, v, prefix).st)
  {
    hide Holds;
    TagValueKeepsCells(st, v, prefix);
    var m := TagValue(st, v, prefix);
    if v in st.extra {
      AddsNoShort(st, m.st, m.tag, v);
    } else {
      var fam := FamilyFor(st, v, prefix);
      if fam == PWD {
        RegisteredSome(st, v);
        RegisteredKeeps(st, v, LOAD_WIDTHS);
        AddsNoShort(st, m.st, None, v);
      } else {
        MintAtAdds(st, fam, v, MINT_WIDTHS);
        MintIsNotShort(st, fam, v);
        AddsNoShort(st, m.st, m.tag, v);
      }
    }
  }

  lemma MintIsNotShort(st: Store, fam: string, v: string)
    requires fam != PWD
    ensures Mint(st, fam, v).tag != Some(PWD + Core(st, v, 4))
  {
    if Mint(st, fam, v).tag.Some? && Mint(st, fam, v).tag == Some(PWD + Core(st, v, 4)) {
      var n := MintAtTag(st, fam, v, MINT_WIDTHS);
      OtherFamily(fam, Core(st, v, n), Core(st, v, 4));
    }
  }

  lemma RetagRules(st: Store, tok: string, prefix: string)
    requires tok !in st.values
    ensures SameRules(st, Retag(st, tok, prefix).st)
  {
    hide Holds;
    RetagAtKeepsCells(st, OrDefault(prefix), tok, RETAG_WIDTHS);
    RetagAtAdds(st, OrDefault(prefix), tok, RETAG_WIDTHS);
    var m := Retag(st, tok, prefix);
    AddsNoShort(st, m.st, m.tag, tok);
  }

  lemma {:induction false} ReplaceRules(st: Store, s: string, i: nat, ps: seq<Span>, prefix: string)
    requires Coherent(st) && Tagged(st) && InOrder(ps, st.values, s, i)
    ensures SameRules(st, Replace(st, s, i, ps, prefix).st)
    decreases |ps|
  {
    hide TagValue, Tagged, SameRules, Coherent;
    if ps == [] {
      RulesStay(st);
    } else {
      var v := s[ps[0].start..ps[0].end];
      var m := TagValue(st, v, prefix);
      TagValueRules(st, v, prefix);
      TagValueHolds(st, v, prefix);
      TaggedLater(st, m.st);
      if m.tag.Some? {
        ReplaceRules(m.st, s, ps[0].end, ps[1..], prefix);
        SameRulesTransitive(st, m.st, Replace(m.st, s, ps[0].end, ps[1..], prefix).st);
      }
    }
  }

  lemma RulesStay(st: Store)
    ensures SameRules(st, st) && SameRules(st, GetFams(st))
  {
    hide Holds;
    forall v | v in st.values && Holds(GetFams(st), v, 4) ensures Holds(st, v, 4) {
      HoldsSame(st, v);
    }
  }

  lemma HoldsSame(st: Store, v: string)
    ensures Holds(GetFams(st), v, 4) == Holds(st, v, 4)
  {}

  lemma GapRules(st: Store, s: string, prefix: string)
    requires Coherent(st) && Tagged(st)
    ensures SameRules(st, Gap(st, s, prefix).st)
  {
    hide Replace, Tagged, SameRules, Coherent, GapsFree, InOrder;
    RulesStay(st);
    ScanIs(st.values, s, 0);
    var ps := Scan(st.values, s, 0);
    var w := Replace(st, s, 0, ps, prefix);
    ReplaceRules(st, s, 0, ps, prefix);
    ReplaceIsGood(st, s, 0, ps, prefix);
    RulesStay(w.st);
    SameRulesTransitive(st, w.st, GetFams(w.st));
  }

  /** Replacing, retagging and keeping leave the rules as they are. */
  lemma OneCutKeeps(st: Store, g: string, tok: string, known: bool, prefix: string)
    requires Coherent(st) && tok != "" && (known ==> tok in st.tags)
    ensures var w := OneCut(st, g, tok, known, prefix);
            Later(st, w.st) && Coherent(w.st) && SameCells(st, w.st)
            && (Tagged(st) && tok !in st.values ==> SameRules(st, w.st))
  {
    hide Gap, Tagged, SameRules;
    OneCutIsGood(st, g, tok, known, prefix);
    GapUsesCells(st, g, prefix);
    GapIsGood(st, g, prefix);
    var p := Gap(st, g, prefix).st;
    RetagAtKeepsCells(p, OrDefault(prefix), tok, RETAG_WIDTHS);
    if Tagged(st) && tok !in st.values {
      GapRules(st, g, prefix);
      RetagRules(p, tok, prefix);
      SameRulesTransitive(st, p, Retag(p, tok, prefix).st);
    }
  }

  lemma {:induction false} ProcessRules(st: Store, c: Cuts, known: map<string, string>, prefix: string)
    requires Coherent(st) && Tagged(st) && TokensNonEmpty(c) && Foreign(c, st.values)
    requires forall k | k in known :: k in st.tags
    ensures SameRules(st, Process(st, c, known, prefix).st)
    decreases c
  {
    hide Gap, OneCut, Tagged, Coherent, SameRules;
    match c
    case Last(g) => GapRules(st, g, prefix);
    case Cut(g, tok, rest) =>
      OneCutKeeps(st, g, tok, tok in known, prefix);
      var w := OneCut(st, g, tok, tok in known, prefix);
      TaggedLater(st, w.st);
      if w.CutDone? {
        ProcessRules(w.st, rest, known, prefix);
        SameRulesTransitive(st, w.st, Process(w.st, rest, known, prefix).st);
      }
  }

  /** A whole call leaves the rules as they are: the tags it enters are for foreign tokens, of
      other families, or whole-cell tags; the default tags of the vault values are found. */
  lemma SanitizeRules(st: Store, s: string, prefix: string)
    requires Coherent(st) && Tagged(st)
    ensures SameRules(st, SanitizeText(st, s, prefix).st)
  {
    hide Process, Segment, Tagged, Coherent, SameRules, Refuses;
    var c := Segment(st.values, s);
    SegmentIs(st.values, s);
    SegmentForeign(st.values, s);
    ProcessRules(st, c, st.tags, prefix);
    DraftIsGood(st, s, prefix);
    var w := Draft(st, s, prefix);
    RulesStay(w.st);
    SameRulesTransitive(st, w.st, GetFams(w.st));
  }

  // ---------- the same again ----------

  /** Repeating a mint adds nothing but a mention in the core index. */
  lemma {:induction false} MintAtAgain(st: Store, fam: string, v: string, ws: seq<Width>, b: Store)
    requires MintAt(st, fam, v, ws).tag.Some? && Later(MintAt(st, fam, v, ws).st, b)
    ensures MintAt(b, fam, v, ws).tag == MintAt(st, fam, v, ws).tag && Alike(MintAt(b, fam, v, ws).st, b)
    decreases |ws|
  {
    MintAtKeeps(st, fam, v, ws);
    assert Core(b, v, ws[0]) == Core(st, v, ws[0]);
    var tag := fam + Core(st, v, ws[0]);
    var st1 := Indexed(st, v, ws[0]);
    if Free(st1, tag, v) {
      EnteredTwice(Indexed(b, v, ws[0]), tag, v);
    } else {
      MintAtAgain(st1, fam, v, ws[1..], Indexed(b, v, ws[0]));
    }
  }

  lemma EnteredTwice(b: Store, tag: string, v: string)
    requires tag in b.tags && b.tags[tag] == v && FamilyOf(tag) <= b.session
    ensures Alike(Entered(b, tag, v), b)
  {
    assert b.session + FamilyOf(tag) == b.session;
  }

  lemma {:induction false} RetagAtAgain(st: Store, fam: string, tok: string, ws: seq<Width>, b: Store)
    requires RetagAt(st, fam, tok, ws).tag.Some? && Later(RetagAt(st, fam, tok, ws).st, b)
    ensures RetagAt(b, fam, tok, ws).tag == RetagAt(st, fam, tok, ws).tag && Alike(RetagAt(b, fam, tok, ws).st, b)
    decreases |ws|
  {
    RetagAtKeeps(st, fam, tok, ws);
    if ws == [] {
      MintAtAgain(st, fam, tok, MINT_WIDTHS, b);
    } else {
      var core := Core(st, tok, ws[0]);
      assert Core(b, tok, ws[0]) == core;
      if Free(st, fam + core, tok) {
        EnteredTwice(b.(cores := Default(b.cores, core, tok)), fam + core, tok);
      } else {
        RetagAtAgain(st, fam, tok, ws[1..], b);
      }
    }
  }

  lemma {:induction false} TagValueAgain(st: Store, v: string, prefix: string, b: Store)
    requires Coherent(st) && Tagged(st) && v in st.values
    requires TagValue(st, v, prefix).tag.Some? && Later(TagValue(st, v, prefix).st, b)
    requires Later(st, b) && SameRules(st, b)
    ensures TagValue(b, v, prefix).tag == TagValue(st, v, prefix).tag && Alike(TagValue(b, v, prefix).st, b)
  {
    if v in st.extra {
      assert b.extra[v] == st.extra[v];
      UseExtraAgain(st, v, b);
    } else {
      var fam := FamilyFor(st, v, prefix);
      if fam == PWD {
        DefaultTagAgain(st, v, b);
        RegisteredKeeps(b, v, LOAD_WIDTHS);
      } else {
        MintAtAgain(st, fam, v, MINT_WIDTHS, b);
      }
    }
  }

  /** A default tag, short or wide, is found again. */
  lemma DefaultTagAgain(st: Store, v: string, b: Store)
    requires Tagged(st) && v in st.values && v !in st.extra && Later(st, b) && SameRules(st, b)
    ensures Registered(st, v, LOAD_WIDTHS).tag.Some?
    ensures Registered(b, v, LOAD_WIDTHS).tag == Registered(st, v, LOAD_WIDTHS).tag
  {
    TaggedLater(st, b);
    RegisteredSome(st, v);
    RegisteredSome(b, v);
    if Holds(st, v, 4) {
      HoldsLater(st, b, v, 4);
    }
    SameCores(st, b, v);
  }

  lemma UseExtraAgain(st: Store, v: string, b: Store)
    requires v in st.extra && v in b.extra && b.extra[v] == st.extra[v] && Later(UseExtra(st, v).st, b)
    requires b.prefixes == st.prefixes
    ensures UseExtra(b, v).tag == UseExtra(st, v).tag && Alike(UseExtra(b, v).st, b)
  {
    var tag := st.extra[v];
    assert tag in UseExtra(st, v).st.tags;
    assert b.session + FamilyOf(tag) == b.session;
  }

  /** The same document again, from a later state that stays as it is. */
  ghost predicate Again(w: Work, x: Work, b: Store) {
    w.Done? && x.Done? && x.doc == w.doc && Alike(x.st, b)
  }

  /** `b` comes after `a`, under the same rules. */
  ghost predicate After(a: Store, b: Store) { Later(a, b) && SameRules(a, b) }

  lemma AfterAlike(a: Store, b: Store, c: Store)
    requires After(a, b) && Alike(b, c) && forall k | k in b.cores :: k in c.cores
    ensures After(a, c)
  {
    forall v | v in a.values && v !in a.extra && Holds(c, v, 4) ensures Holds(a, v, 4) {
      assert Core(c, v, 4) == Core(b, v, 4);
      assert Holds(b, v, 4);
    }
  }

  lemma AfterBack(a: Store, m: Store, b: Store)
    requires Later(a, m) && SameCells(a, m) && After(a, b)
    requires Later(m, b)
    ensures After(m, b)
  {
    hide Holds;
    forall v | v in m.values && v !in m.extra && Holds(b, v, 4) ensures Holds(m, v, 4) {
      HoldsLater(a, m, v, 4);
    }
  }

  lemma {:induction false} ReplaceAgain(st: Store, s: string, i: nat, ps: seq<Span>, prefix: string, b: Store)
    requires Coherent(st) && Tagged(st) && Coherent(b) && InOrder(ps, st.values, s, i) && GapsFree(ps, st.values, s, i)
    requires Replace(st, s, i, ps, prefix).Done? && After(st, b) && Later(Replace(st, s, i, ps, prefix).st, b)
    ensures Again(Replace(st, s, i, ps, prefix), Replace(b, s, i, ps, prefix), b)
    decreases |ps|
  {
    hide TagValue, Tagged, Coherent, SameCells, SameRules;
    if ps != [] {
      var p := ps[0];
      var v := s[p.start..p.end];
      var m, n := TagValue(st, v, prefix), TagValue(b, v, prefix);
      TagValueHolds(st, v, prefix);
      TagValueHolds(b, v, prefix);
      TagValueKeepsCells(st, v, prefix);
      TagValueKeepsCells(b, v, prefix);
      var w := Replace(m.st, s, p.end, ps[1..], prefix);
      ReplaceIsGood(m.st, s, p.end, ps[1..], prefix);
      LaterTransitive(m.st, w.st, b);
      TagValueAgain(st, v, prefix, b);
      TaggedLater(st, m.st);
      AfterBack(st, m.st, b);
      AfterAlike(m.st, b, n.st);
      LaterTransitive(w.st, b, n.st);
      ReplaceAgain(m.st, s, p.end, ps[1..], prefix, n.st);
    }
  }

  lemma {:induction false} PlainAgain(st: Store, s: string, prefix: string, b: Store)
    requires Coherent(st) && Tagged(st) && Coherent(b)
    requires Plain(st, s, prefix).Done? && After(st, b) && Later(Plain(st, s, prefix).st, b)
    ensures Again(Plain(st, s, prefix), Plain(b, s, prefix), b)
  {
    hide Replace, GapsFree, InOrder;
    ScanIs(st.values, s, 0);
    var ps := Scan(st.values, s, 0);
    var w := Replace(st, s, 0, ps, prefix);
    ReplaceIsGood(st, s, 0, ps, prefix);
    assert Later(w.st, b);
    ReplaceAgain(st, s, 0, ps, prefix, b);
  }

  lemma {:induction false} GapAgain(st: Store, s: string, prefix: string, b: Store)
    requires Coherent(st) && Tagged(st) && Coherent(b)
    requires Gap(st, s, prefix).Done? && After(st, b) && Later(Gap(st, s, prefix).st, b)
    ensures Again(Gap(st, s, prefix), Gap(b, s, prefix), b)
  {
    hide Plain, Tagged, Coherent;
    if s != "" {
      PlainAgain(st, s, prefix, b);
    }
  }

  lemma {:induction false} OneCutAgain(st: Store, g: string, tok: string, known: bool, prefix: string, b: Store)
    requires Coherent(st) && Tagged(st) && Coherent(b)
    requires OneCut(st, g, tok, known, prefix).CutDone? && After(st, b)
    requires Later(OneCut(st, g, tok, known, prefix).st, b)
    ensures var w, x := OneCut(st, g, tok, known, prefix), OneCut(b, g, tok, known, prefix);
            x.CutDone? && x.doc == w.doc && x.atom == w.atom && Alike(x.st, b)
  {
    hide Gap, RetagAt;
    var p, q := Gap(st, g, prefix), Gap(b, g, prefix);
    GapIsGood(st, g, prefix);
    GapIsGood(b, g, prefix);
    if !known {
      RetagAtKeeps(p.st, OrDefault(prefix), tok, RETAG_WIDTHS);
      var m := Retag(p.st, tok, prefix);
      LaterTransitive(p.st, m.st, b);
      GapAgain(st, g, prefix, b);
      LaterTransitive(m.st, b, q.st);
      RetagAtAgain(p.st, OrDefault(prefix), tok, RETAG_WIDTHS, q.st);
    } else {
      GapAgain(st, g, prefix, b);
    }
  }

  lemma CutThenRest(st: Store, g: string, tok: string, rest: Cuts, known: map<string, string>, prefix: string)
    ensures var w, p := OneCut(st, g, tok, tok in known, prefix), Process(st, Cut(g, tok, rest), known, prefix);
            if w.CutFailed? then p == Failed(w.st)
            else
              var r := Process(w.st, rest, known, prefix);
              p == if r.Done? then Done(r.st, Append(w.doc, w.atom, r.doc)) else Failed(r.st)
  {
    hide Gap, OneCut;
  }

  lemma {:induction false} ProcessAgain(st: Store, c: Cuts, known: map<string, string>, prefix: string, b: Store)
    requires Coherent(st) && Tagged(st) && Coherent(b) && TokensNonEmpty(c) && forall k | k in known :: k in st.tags
    requires Process(st, c, known, prefix).Done? && After(st, b) && Later(Process(st, c, known, prefix).st, b)
    ensures Again(Process(st, c, known, prefix), Process(b, c, known, prefix), b)
    decreases c
  {
    hide Gap, OneCut, Tagged, Coherent, SameCells, SameRules, Append;
    match c
    case Last(g) => GapAgain(st, g, prefix, b);
    case Cut(g, tok, rest) =>
      hide Process;
      CutThenRest(st, g, tok, rest, known, prefix);
      CutThenRest(b, g, tok, rest, known, prefix);
      var known1 := tok in known;
      var w, x := OneCut(st, g, tok, known1, prefix), OneCut(b, g, tok, known1, prefix);
      OneCutKeeps(st, g, tok, known1, prefix);
      OneCutKeeps(b, g, tok, known1, prefix);
      var r := Process(w.st, rest, known, prefix);
      ProcessIsGood(w.st, rest, known, prefix);
      LaterTransitive(w.st, r.st, b);
      OneCutAgain(st, g, tok, known1, prefix, b);
      TaggedLater(st, w.st);
      AfterBack(st, w.st, b);
      AfterAlike(w.st, b, x.st);
      LaterTransitive(r.st, b, x.st);
      ProcessAgain(w.st, rest, known, prefix, x.st);
  }

  /** Which spans are known is all that the table is asked for as the text comes in. */
  predicate SameKnown(c: Cuts, known: map<string, string>, later: map<string, string>) {
    c.Cut? ==> (c.token in known <==> c.token in later) && SameKnown(c.rest, known, later)
  }

  lemma {:induction false} ProcessKnown(st: Store, c: Cuts, known: map<string, string>, later: map<string, string>,
                                        prefix: string)
    requires SameKnown(c, known, later)
    ensures Process(st, c, known, prefix) == Process(st, c, later, prefix)
    decreases c
  {
    hide OneCut, Gap;
    if c.Cut? {
      ProcessKnown(OneCut(st, c.gap, c.token, c.token in known, prefix).st, c.rest, known, later, prefix);
    }
  }

  /** The same document again from a later state that stays as it is, unless the last check
      now refuses it. */
  ghost predicate AgainChecked(w: Work, x: Work, b: Store) {
    w.Done? && Alike(x.st, b) && (x.Done? ==> x.doc == w.doc) && (x.Done? <==> !Refuses(b, Render(w.doc)))
  }

  /** A text that comes round again in the same session is put out as it was before,
      whatever was sanitized in between, and leaves nothing new: provided that none of its
      tag-shaped spans has become a tag of the store, and no vault value a whole cell. Only
      families that are new to the last check can make it refuse the text. */
  lemma {:induction false} SanitizeAgain(st: Store, s: string, prefix: string, b: Store)
    requires Coherent(st) && Tagged(st) && Coherent(b) && SanitizeText(st, s, prefix).Done?
    requires After(st, b) && Later(SanitizeText(st, s, prefix).st, b)
    requires SameKnown(Segment(st.values, s), st.tags, b.tags)
    ensures var w, x := SanitizeText(st, s, prefix), SanitizeText(b, s, prefix);
            AgainChecked(w, x, b) && (CheckFams(b) == CheckFams(w.st) ==> x.Done?)
  {
    hide Process, Segment, SameKnown, Tagged, Coherent, SameRules, Refuses, CheckFams;
    var c := Segment(st.values, s);
    SegmentIs(st.values, s);
    PassedIs(st, s, prefix);
    var w := Draft(st, s, prefix);
    DraftIsGood(st, s, prefix);
    GetFamsKeeps(w.st);
    LaterTransitive(w.st, GetFams(w.st), b);
    ProcessAgain(st, c, st.tags, prefix, b);
    ProcessKnown(b, c, st.tags, b.tags, prefix);
    CheckedAgain(SanitizeText(st, s, prefix).st, b, Draft(b, s, prefix).st, w.doc);
  }

  lemma CheckedAgain(a: Store, b: Store, c: Store, d: Doc)
    requires Alike(c, b) && a.values == b.values && !Refuses(a, Render(d))
    ensures Alike(GetFams(c), b) && (Refuses(GetFams(c), Render(d)) <==> Refuses(b, Render(d)))
    ensures CheckFams(b) == CheckFams(a) ==> !Refuses(b, Render(d))
  {
    hide Leaks;
    RefusesAlike(GetFams(c), b, Render(d));
  }
}
