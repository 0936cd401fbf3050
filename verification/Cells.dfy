/** Whole-cell tags of tables and the chats that come later: a cell keeps its tag across
    a reload with the preserved salt. */
module Cells {
  import opened Text
  import opened Restore
  import opened TagStore
  import opened StoreRuns
  import opened Shapes
  import opened Sweep
  import opened LeakCheck
  import opened Sanitize
  import opened RoundTrip

  lemma {:induction false} MintAtTag(st: Store, fam: string, v: string, ws: seq<Width>) returns (n: Width)
    requires MintAt(st, fam, v, ws).tag.Some?
    ensures n in ws && MintAt(st, fam, v, ws).tag == Some(fam + Core(st, v, n))
    decreases |ws|
  {
    var st1 := Indexed(st, v, ws[0]);
    if Free(st1, fam + Core(st, v, ws[0]), v) {
      n := ws[0];
    } else {
      n := MintAtTag(st1, fam, v, ws[1..]);
      assert Core(st1, v, n) == Core(st, v, n);
    }
  }

  /** A tag of the vault's family that a load registered, and that another value under the
      same salt would get, belongs to that value. */
  lemma LoadedTagIsOwn(r: Store, all: seq<string>, fam: string, v: string, n: Width)
    requires TableOf(r, r.tags, all, all) && Separable(r, all) && v in all
    requires fam != "" && fam[|fam| - 1] == '_'
    ensures Free(r, fam + Core(r, v, n), v)
  {
    var tag := fam + Core(r, v, n);
    if tag in r.tags {
      var u := r.tags[tag];
      var w := LoadWidth(r, all, u);
      WidthOfLoadTag(r, all, u);
      FamilyEndIs(fam, Core(r, v, n));
      FamilyEndIs(PWD, Core(r, u, w));
      assert tag == LoadTag(r, all, u) && |fam| == 4;
      assert tag[|fam|..] == Core(r, v, n);
      assert Core(r, u, w) == Core(r, v, n);
      assert |Core(r, u, w)| == 2 * w && |Core(r, v, n)| == 2 * n;
      OwnCore(r, all, u, v);
    }
  }

  lemma OwnCore(r: Store, all: seq<string>, u: string, v: string)
    requires u in all && v in all && Separable(r, all)
    requires Core(r, u, LoadWidth(r, all, u)) == Core(r, v, LoadWidth(r, all, u))
    ensures u == v
  {
    CorePrefix(r, u);
    CorePrefix(r, v);
    var shareShort := Core(r, u, 4) == Core(r, v, 4);
    var shareLong := Core(r, u, 6) == Core(r, v, 6);
    assert shareShort;
    assert u != v ==> Colliding(r, all, u) && !shareLong;
  }

  lemma MintCellEnters(st: Store, fam: string, cell: string) returns (n: Width)
    requires MintCell(st, fam, cell).tag.Some?
    ensures var m := MintCell(st, fam, cell);
            m.tag == Some(fam + Core(m.st, cell, n)) && cell in m.st.extra
            && m.st.extra[cell] == if cell in st.extra then st.extra[cell] else m.tag.value
  {
    MintAtKeepsCells(st, fam, cell, MINT_WIDTHS);
    n := MintAtTag(st, fam, cell, MINT_WIDTHS);
    MintAtKeeps(st, fam, cell, MINT_WIDTHS);
    hide Mint;
    assert Core(Mint(st, fam, cell).st, cell, n) == Core(st, cell, n);
  }

  /** A cell tagged whole, and loaded as a vault value under the same salt at any later time:
      the store still answers for it with its first tag, and when that is the tag just minted
      no other loaded value holds it. */
  lemma {:induction false} CellKeepsTag(st: Store, fam: string, cell: string, b: Store, secrets: seq<string>,
                                        named: seq<string>)
    requires fam != "" && fam[|fam| - 1] == '_' && MintCell(st, fam, cell).tag.Some?
    requires Later(MintCell(st, fam, cell).st, b)
    requires Load(b, secrets, named, b.salt).ok && cell in Vault(secrets, named)
    ensures var m := MintCell(st, fam, cell);
            var r := Load(b, secrets, named, b.salt).st;
            cell in m.st.extra && cell in r.extra && r.extra[cell] == m.st.extra[cell] && cell in r.values
            && (m.st.extra[cell] == m.tag.value <==> cell !in st.extra || st.extra[cell] == m.tag.value)
            && Free(r, m.tag.value, cell)
  {
    hide MintCell, Load;
    var m := MintCell(st, fam, cell);
    var n := MintCellEnters(st, fam, cell);
    LoadIff(b, secrets, named, b.salt);
    var r := Load(b, secrets, named, b.salt).st;
    assert Core(r, cell, n) == Core(m.st, cell, n);
    LoadedTagIsOwn(r, Vault(secrets, named), fam, cell, n);
  }

  /** Using the tag of a cell restores to the cell exactly when no other value holds it. */
  lemma CellTagRestoresIff(st: Store, cell: string)
    requires cell in st.extra
    ensures UseExtra(st, cell).tag == Some(st.extra[cell])
    ensures UseExtra(st, cell).st.tags[st.extra[cell]] == cell <==> Free(st, st.extra[cell], cell)
  {}

  // ---------- the chat ----------

  /** Every replaced vault value that has a whole-cell tag is replaced by it. */
  ghost predicate UsesCellTags(extra: map<string, string>, values: seq<string>, d: Doc) {
    d.Seg? ==>
      (!d.atom.live && d.atom.orig in values && d.atom.orig in extra ==> d.atom.tag == extra[d.atom.orig])
      && UsesCellTags(extra, values, d.rest)
  }

  /** Same vault, same whole-cell tags, same column families. */
  ghost predicate SameCells(a: Store, b: Store) {
    a.values == b.values && a.extra == b.extra && a.prefixes == b.prefixes
  }

  lemma {:induction false} TagValueKeepsCells(st: Store, v: string, prefix: string)
    ensures SameCells(st, TagValue(st, v, prefix).st)
  {
    if v !in st.extra {
      TagForKeepsCells(st, v, prefix);
    }
  }

  lemma {:induction false} TagForKeepsCells(st: Store, v: string, prefix: string)
    ensures SameCells(st, TagFor(st, v, prefix).st)
  {
    var fam := FamilyFor(st, v, prefix);
    MintAtKeepsCells(st, fam, v, MINT_WIDTHS);
    RegisteredKeeps(st, v, LOAD_WIDTHS);
    MintAtKeepsCells(Registered(st, v, LOAD_WIDTHS).st, PWD, v, MINT_WIDTHS);
  }

  lemma {:induction false} MintAtKeepsCells(st: Store, fam: string, v: string, ws: seq<Width>)
    ensures SameCells(st, MintAt(st, fam, v, ws).st)
    decreases |ws|
  {
    if ws != [] {
      MintAtKeepsCells(Indexed(st, v, ws[0]), fam, v, ws[1..]);
    }
  }

  lemma {:induction false} RetagAtKeepsCells(st: Store, fam: string, tok: string, ws: seq<Width>)
    ensures SameCells(st, RetagAt(st, fam, tok, ws).st)
    decreases |ws|
  {
    if ws == [] {
      MintAtKeepsCells(st, fam, tok, MINT_WIDTHS);
    } else {
      RetagAtKeepsCells(st, fam, tok, ws[1..]);
    }
  }

  lemma {:induction false} ReplaceUsesCells(st: Store, s: string, i: nat, ps: seq<Span>, prefix: string)
    requires InOrder(ps, st.values, s, i)
    ensures var w := Replace(st, s, i, ps, prefix);
            SameCells(st, w.st) && (w.Done? ==> UsesCellTags(st.extra, st.values, w.doc))
    decreases |ps|
  {
    hide TagValue;
    if ps != [] {
      var v := s[ps[0].start..ps[0].end];
      var m := TagValue(st, v, prefix);
      TagValueKeepsCells(st, v, prefix);
      CellTagIsUsed(st, v, prefix);
      if m.tag.Some? {
        ReplaceUsesCells(m.st, s, ps[0].end, ps[1..], prefix);
      }
    }
  }

  lemma CellTagIsUsed(st: Store, v: string, prefix: string)
    ensures v in st.extra ==> TagValue(st, v, prefix).tag == Some(st.extra[v])
  {}

  lemma PlainUsesCells(st: Store, s: string, prefix: string)
    ensures var w := Plain(st, s, prefix);
            SameCells(st, w.st) && (w.Done? ==> UsesCellTags(st.extra, st.values, w.doc))
  {
    hide Replace;
    ScanIs(st.values, s, 0);
    ReplaceUsesCells(st, s, 0, Scan(st.values, s, 0), prefix);
  }

  lemma GapUsesCells(st: Store, s: string, prefix: string)
    ensures var w := Gap(st, s, prefix);
            SameCells(st, w.st) && (w.Done? ==> UsesCellTags(st.extra, st.values, w.doc))
  {
    hide Plain;
    if s != "" {
      PlainUsesCells(st, s, prefix);
    }
  }

  predicate Foreign(c: Cuts, values: seq<string>) { c.Cut? ==> c.token !in values && Foreign(c.rest, values) }

  lemma {:induction false} SegmentForeign(values: seq<string>, s: string)
    ensures Foreign(Segment(values, s), values)
    decreases |s|
  {
    hide RawLen;
    if s != "" {
      SegmentForeign(values, s[MeetOf(values, s).step..]);
    }
  }

  lemma {:induction false} AppendUsesCells(extra: map<string, string>, values: seq<string>, d: Doc, a: Atom, r: Doc)
    requires UsesCellTags(extra, values, d) && UsesCellTags(extra, values, r)
    requires a.live || a.orig !in values
    ensures UsesCellTags(extra, values, Append(d, a, r))
    decreases d
  {
    if d.Seg? {
      AppendUsesCells(extra, values, d.rest, a, r);
    }
  }

  lemma OneCutUsesCells(st: Store, g: string, tok: string, known: bool, prefix: string)
    requires tok !in st.values
    ensures var w := OneCut(st, g, tok, known, prefix);
            SameCells(st, w.st)
            && (w.CutDone? ==> UsesCellTags(st.extra, st.values, w.doc) && w.atom.orig == tok)
  {
    hide Gap;
    GapUsesCells(st, g, prefix);
    var w := Gap(st, g, prefix);
    RetagAtKeepsCells(w.st, OrDefault(prefix), tok, RETAG_WIDTHS);
  }

  lemma {:induction false} ProcessUsesCells(st: Store, c: Cuts, known: map<string, string>, prefix: string)
    requires Foreign(c, st.values)
    ensures var w := Process(st, c, known, prefix);
            SameCells(st, w.st) && (w.Done? ==> UsesCellTags(st.extra, st.values, w.doc))
    decreases c
  {
    hide OneCut, Gap;
    match c
    case Last(g) => GapUsesCells(st, g, prefix);
    case Cut(g, tok, rest) =>
      OneCutUsesCells(st, g, tok, tok in known, prefix);
      var w := OneCut(st, g, tok, tok in known, prefix);
      if w.CutDone? {
        ProcessUsesCells(w.st, rest, known, prefix);
        var r := Process(w.st, rest, known, prefix);
        if r.Done? {
          AppendUsesCells(st.extra, st.values, w.doc, w.atom, r.doc);
        }
      }
  }

  /** A call keeps the rules; and in any text, every occurrence of a vault value that is
      replaced gets the whole-cell tag of that value when it has one: the very tag the table
      carried. */
  lemma ChatUsesCellTags(st: Store, text: string, prefix: string)
    ensures SameCells(st, SanitizeText(st, text, prefix).st)
    ensures SanitizeText(st, text, prefix).Done? ==>
              UsesCellTags(st.extra, st.values, SanitizeText(st, text, prefix).doc)
  {
    hide Process, Refuses, Segment;
    SegmentForeign(st.values, text);
    ProcessUsesCells(st, Segment(st.values, text), st.tags, prefix);
  }

  /** From the table to the chat: a cell tagged whole, loaded under the same salt at any later
      time, is replaced in every text of the session that follows, whatever was tagged, called
      or given a column family in between, by its first tag: the one the table carried, unless
      it had one before. As long as no whole-cell tag is taken by another value the text
      restores, cell and all. */
  lemma {:induction false} TableToChat(st: Store, fam: string, cell: string, b: Store, secrets: seq<string>,
                                       named: seq<string>, z: Store, text: string, prefix: string)
    requires fam != "" && fam[|fam| - 1] == '_' && MintCell(st, fam, cell).tag.Some?
    requires Later(MintCell(st, fam, cell).st, b)
    requires Load(b, secrets, named, b.salt).ok && cell in Vault(secrets, named)
    requires Later(Load(b, secrets, named, b.salt).st, z) && Coherent(z) && SanitizeText(z, text, prefix).Done?
    ensures var m := MintCell(st, fam, cell);
            var w := SanitizeText(z, text, prefix);
            cell in m.st.extra && CellAtoms(w.doc, cell, m.st.extra[cell])
            && (m.st.extra[cell] == m.tag.value <==> cell !in st.extra || st.extra[cell] == m.tag.value)
            && LitsFree(w.doc, z.values) && cell in z.values
            && (ExtraFree(w.st) && Separated(w.doc) && QuietLits(TablesOf(w.st), w.doc) ==>
                  RestoreAll(TablesOf(w.st), Render(w.doc)) == Expand(TablesOf(w.st), w.doc))
  {
    hide SanitizeText, RestoreAll, Separated, QuietLits, Load, MintCell, Coherent, Free, Expand;
    CellKeepsTag(st, fam, cell, b, secrets, named);
    SanitizeIsGood(z, text, prefix);
    ChatUsesCellTags(z, text, prefix);
    var w := SanitizeText(z, text, prefix);
    CellAtomsOf(z.extra, z.values, w.doc, cell);
    if ExtraFree(w.st) && Separated(w.doc) && QuietLits(TablesOf(w.st), w.doc) {
      RoundTrip.RoundTrip(z, text, prefix, TablesOf(w.st));
    }
  }

  /** Wherever the document replaced `cell`, it put `tag`. */
  predicate CellAtoms(d: Doc, cell: string, tag: string) {
    d.Seg? ==> (!d.atom.live && d.atom.orig == cell ==> d.atom.tag == tag) && CellAtoms(d.rest, cell, tag)
  }

  lemma {:induction false} CellAtomsOf(extra: map<string, string>, values: seq<string>, d: Doc, cell: string)
    requires UsesCellTags(extra, values, d) && cell in values && cell in extra
    ensures CellAtoms(d, cell, extra[cell])
    decreases d
  {
    if d.Seg? {
      CellAtomsOf(extra, values, d.rest, cell);
    }
  }

  // ---------- a reload, seen in a text ----------

  /** After a reload with the preserved salt a lone tag of eight digits restores to the last
      vault value with its core, through either index. */
  lemma {:induction false} ReloadRestoresText(st: Store, secrets: seq<string>, named: seq<string>, fam: string,
                                              v: string)
    requires IsFamily(fam) && Load(st, secrets, named, st.salt).ok && v in Vault(secrets, named)
    ensures var t := TablesOf(Load(st, secrets, named, st.salt).st);
            var w := LastWith(st, Vault(secrets, named), Core(st, v, 4));
            w.Some? && RestoreAll(t, fam + Core(st, v, 4)) == Output(w.value, 1)
  {
    hide RestoreAll, Load;
    ReloadRestores(st, secrets, named, fam, v);
    LastWithIs(st, Vault(secrets, named), v);
    var t := TablesOf(Load(st, secrets, named, st.salt).st);
    var core := Core(st, v, 4);
    TagRestores(t, fam, core, "");
    assert fam + core + "" == fam + core;
    RestoresNothing(t);
    var w := LastWith(st, Vault(secrets, named), core).value;
    assert w + "" == w;
  }

  lemma RestoresNothing(t: Tables)
    ensures RestoreAll(t, "") == Output("", 0)
  {}
}
