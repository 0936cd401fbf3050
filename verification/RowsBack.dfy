/** Restoring tables: whole-cell tags are looked up, anything else goes through the text
    restore; and the round trip of a sanitized table. */
module RowsBack {
  import opened Text
  import opened Restore
  import opened TagStore
  import opened StoreRuns
  import opened Shapes
  import opened Sanitize
  import opened RoundTrip
  import opened Reports
  import opened Stream
  import opened EndToEnd
  import opened Cells
  import opened Rows

  // ---------- one cell ----------

  /** The cell is exactly one tag, of any family. */
  predicate WholeTag(c: string) { IsTag(FamPart(c), CorePart(c)) }

  predicate IsAlnum(c: char) { IsDigit(c) || IsUpper(c) || 'a' <= c <= 'z' }

  /** The cell looks like a default-family tag that was never minted. */
  predicate TagLike(c: string) {
    PWD <= c && |c| >= 10 && forall i | 4 <= i < |c| :: IsAlnum(c[i])
  }

  /** The pattern tried for a family takes a tag of that family or of any other. */
  predicate PatternMatches(fam: string, c: string) {
    WholeTag(c) || (fam <= c && AllHex(c[|fam|..]) && 8 <= |c| - |fam| <= 12)
  }

  /** So the first pattern decides, and its family is the requested prefix. */
  lemma PatternsAreOne(fam: string, c: string)
    requires IsFamily(fam)
    ensures PatternMatches(fam, c) <==> WholeTag(c)
  {
    if fam <= c && AllHex(c[|fam|..]) {
      FamilyEndIs(fam, c[|fam|..]);
      assert fam + c[|fam|..] == c;
    }
  }

  /** A whole tag: the table first, then the core index, asked for what lies behind the
      length of the requested prefix, whatever the family of the tag. */
  function LookUpCell(t: Tables, prefix: string, c: string): Restored {
    if c in t.tags then Restored(t.tags[c], 1, [])
    else if KeyBehind(prefix, c) in t.cores then Restored(t.cores[KeyBehind(prefix, c)], 1, [])
    else Restored(c, 0, [c])
  }

  /** The requested prefix first, then the valid families that are not listed yet. */
  function RestoreFams(prefix: string, families: seq<string>): seq<string> { Keep(families, [prefix]) }

  function RestoreCell(t: Tables, prefix: string, families: seq<string>, c: string): Restored {
    if c == "" then Restored("", 0, [])
    else if WholeTag(c) then LookUpCell(t, prefix, c)
    else if TagLike(c) then Restored(c, 0, [c])
    else Desanitize(t, RestoreFams(prefix, families), c)
  }

  /** Cells, restorations, and the unresolved tags met so far, each once. */
  datatype Back<T> = Back(out: T, count: nat, unresolved: seq<string>)

  function BackRow(t: Tables, prefix: string, families: seq<string>, row: seq<string>, j: nat,
                   met: seq<string>): Back<seq<string>>
    requires j <= |row|
    decreases |row| - j
  {
    if j == |row| then Back([], 0, met)
    else
      var r := RestoreCell(t, prefix, families, row[j]);
      var rest := BackRow(t, prefix, families, row, j + 1, AddNew(met, r.unresolved));
      Back([r.text] + rest.out, r.count + rest.count, rest.unresolved)
  }

  function BackRows(t: Tables, prefix: string, families: seq<string>, rows: seq<seq<string>>, i: nat,
                    met: seq<string>): Back<seq<seq<string>>>
    requires i <= |rows|
    decreases |rows| - i
  {
    if i == |rows| then Back([], 0, met)
    else
      var r := BackRow(t, prefix, families, rows[i], 0, met);
      var rest := BackRows(t, prefix, families, rows, i + 1, r.unresolved);
      Back([r.out] + rest.out, r.count + rest.count, rest.unresolved)
  }

  function RestoreRows(t: Tables, prefix: string, families: seq<string>,
                       rows: seq<seq<string>>): Option<Back<seq<seq<string>>>> {
    if IsPrefix(prefix) then Some(BackRows(t, prefix, families, rows, 0, [])) else None
  }

  // ---------- what is reported ----------

  /** A cell that is a tag or looks like one restores to one value, or stays as it is and is reported. */
  lemma CellReports(t: Tables, prefix: string, families: seq<string>, c: string)
    requires c != "" && (WholeTag(c) || TagLike(c))
    ensures var r := RestoreCell(t, prefix, families, c);
            (r.count == 1 && r.unresolved == []) || r == Restored(c, 0, [c])
  {
    hide WholeTag, TagLike, KeyBehind;
  }

  lemma TooShort(f: string, s: string)
    requires IsFamily(f) && |s| < 10
    ensures !HasTag(f, s)
  {}

  lemma {:induction false} ShortPasses(t: Tables, fams: seq<string>, s: string)
    requires |s| < 10 && forall f | f in fams :: IsFamily(f)
    ensures RunPasses(t, fams, Restored(s, 0, [])) == Restored(s, 0, [])
    decreases |fams|
  {
    if fams != [] {
      forall i | 0 <= i < |s| ensures !HasTag(fams[0], s[i..]) {
        TooShort(fams[0], s[i..]);
      }
      NoTagNoReport(t, fams[0], s);
      assert AddNew([], []) == [];
      ShortPasses(t, fams[1..], s);
    }
  }

  /** Letters and digits behind `PWD_` that make no tag: six of them are reported, fewer are not, and the cell stays as
      it is. */
  lemma {:induction false} LikeTagIff(t: Tables, prefix: string, families: seq<string>, w: string)
    requires (forall i | 0 <= i < |w| :: IsAlnum(w[i])) && !WholeTag(PWD + w) && IsPrefix(prefix)
    ensures RestoreCell(t, prefix, families, PWD + w) == Restored(PWD + w, 0, if |w| >= 6 then [PWD + w] else [])
  {
    hide WholeTag, IsAlnum, Keep, RunPasses, IsFamily;
    var c := PWD + w;
    assert forall i | 4 <= i < |c| :: c[i] == w[i - 4];
    assert TagLike(c) <==> |w| >= 6;
    if |w| < 6 {
      FamsAreFamilies(prefix, families);
      ShortPasses(t, Passes(RestoreFams(prefix, families)), c);
    }
  }

  lemma FamsAreFamilies(prefix: string, families: seq<string>)
    ensures forall f | f in Passes(RestoreFams(prefix, families)) :: IsFamily(f)
  {
    PassesHas(RestoreFams(prefix, families));
  }

  lemma {:induction false} MetStay(met: seq<string>, more: seq<string>)
    ensures forall x | x in met || x in more :: x in AddNew(met, more)
    ensures Distinct(met) ==> Distinct(AddNew(met, more))
    decreases |more|
  {
    if more != [] {
      assert more == [more[0]] + more[1..];
      MetStay(if more[0] in met then met else met + [more[0]], more[1..]);
    }
  }

  /** The list has what the cell reports. */
  predicate HasReports(t: Tables, prefix: string, families: seq<string>, c: string, met: seq<string>) {
    forall x | x in RestoreCell(t, prefix, families, c).unresolved :: x in met
  }

  predicate RowIsIn(t: Tables, prefix: string, families: seq<string>, row: seq<string>, j: nat, met: seq<string>) {
    forall k | j <= k < |row| :: HasReports(t, prefix, families, row[k], met)
  }

  lemma ReportsStay(t: Tables, prefix: string, families: seq<string>, c: string, a: seq<string>, b: seq<string>)
    requires HasReports(t, prefix, families, c, a) && forall x | x in a :: x in b
    ensures HasReports(t, prefix, families, c, b)
  {
    hide RestoreCell;
  }

  lemma {:induction false} RowReports(t: Tables, prefix: string, families: seq<string>, row: seq<string>, j: nat,
                                      met: seq<string>)
    requires j <= |row|
    ensures var r := BackRow(t, prefix, families, row, j, met).unresolved;
            (forall x | x in met :: x in r) && (Distinct(met) ==> Distinct(r))
            && RowIsIn(t, prefix, families, row, j, r)
    decreases |row| - j
  {
    hide RestoreCell, HasReports;
    if j < |row| {
      var u := RestoreCell(t, prefix, families, row[j]).unresolved;
      var next := AddNew(met, u);
      MetStay(met, u);
      RowReports(t, prefix, families, row, j + 1, next);
      assert HasReports(t, prefix, families, row[j], next) by { JustAdded(t, prefix, families, row[j], met); }
      ReportsStay(t, prefix, families, row[j], next, BackRow(t, prefix, families, row, j, met).unresolved);
    }
  }

  lemma JustAdded(t: Tables, prefix: string, families: seq<string>, c: string, met: seq<string>)
    ensures HasReports(t, prefix, families, c, AddNew(met, RestoreCell(t, prefix, families, c).unresolved))
  {
    hide RestoreCell, AddNew;
    MetStay(met, RestoreCell(t, prefix, families, c).unresolved);
  }

  /** What a cell reports the table reports, each tag once. */
  lemma {:induction false} TableReports(t: Tables, prefix: string, families: seq<string>, rows: seq<seq<string>>,
                                        i: nat, met: seq<string>)
    requires i <= |rows|
    ensures var r := BackRows(t, prefix, families, rows, i, met).unresolved;
            (forall x | x in met :: x in r) && (Distinct(met) ==> Distinct(r))
            && forall k | i <= k < |rows| :: RowIsIn(t, prefix, families, rows[k], 0, r)
    decreases |rows| - i
  {
    hide RestoreCell, BackRow, HasReports, RowIsIn;
    if i < |rows| {
      var u := BackRow(t, prefix, families, rows[i], 0, met).unresolved;
      RowReports(t, prefix, families, rows[i], 0, met);
      TableReports(t, prefix, families, rows, i + 1, u);
      RowStays(t, prefix, families, rows[i], u, BackRows(t, prefix, families, rows, i, met).unresolved);
    }
  }

  lemma RowStays(t: Tables, prefix: string, families: seq<string>, row: seq<string>, a: seq<string>, b: seq<string>)
    requires RowIsIn(t, prefix, families, row, 0, a) && forall x | x in a :: x in b
    ensures RowIsIn(t, prefix, families, row, 0, b)
  {
    hide RestoreCell, HasReports;
    forall k | 0 <= k < |row| ensures HasReports(t, prefix, families, row[k], b) {
      ReportsStay(t, prefix, families, row[k], a, b);
    }
  }

  // ---------- the keys of the core index ----------

  predicate EndsIn(w: string, k: string) { |k| <= |w| && w[|w| - |k|..] == k }

  /** A key of the index is a core, or the end of a whole-cell tag. */
  ghost predicate KeyHolds(st: Store, k: string) {
    (AllHex(k) && |k| >= 8) || exists v | v in st.extra :: EndsIn(st.extra[v], k)
  }

  ghost predicate Keyed(st: Store) { forall k | k in st.cores :: KeyHolds(st, k) }

  /** Only cores are entered, and no whole-cell tag goes. */
  ghost predicate AddsCores(a: Store, b: Store) {
    (forall k | k in b.cores && k !in a.cores :: AllHex(k) && |k| >= 8)
    && forall v | v in a.extra :: v in b.extra && b.extra[v] == a.extra[v]
  }

  lemma KeyedLater(a: Store, b: Store)
    requires Keyed(a) && AddsCores(a, b)
    ensures Keyed(b)
  {
    forall k | k in b.cores ensures KeyHolds(b, k) {
      if k in a.cores && !(AllHex(k) && |k| >= 8) {
        var v :| v in a.extra && EndsIn(a.extra[v], k);
        assert EndsIn(b.extra[v], k);
      }
    }
  }

  lemma {:induction false} MintAtCores(st: Store, fam: string, v: string, ws: seq<Width>)
    ensures AddsCores(st, MintAt(st, fam, v, ws).st)
    decreases |ws|
  {
    if ws != [] {
      MintAtCores(Indexed(st, v, ws[0]), fam, v, ws[1..]);
    }
  }

  lemma {:induction false} RetagAtCores(st: Store, fam: string, tok: string, ws: seq<Width>)
    ensures AddsCores(st, RetagAt(st, fam, tok, ws).st)
    decreases |ws|
  {
    if ws == [] {
      MintAtCores(st, fam, tok, MINT_WIDTHS);
    } else {
      RetagAtCores(st, fam, tok, ws[1..]);
    }
  }

  lemma {:induction false} RegisteredCores(st: Store, v: string, ws: seq<Width>)
    ensures AddsCores(st, Registered(st, v, ws).st)
    decreases |ws|
  {
    if ws != [] {
      RegisteredCores(Indexed(st, v, ws[0]), v, ws[1..]);
    }
  }

  lemma TagForCores(st: Store, v: string, prefix: string)
    ensures AddsCores(st, TagFor(st, v, prefix).st)
  {
    MintAtCores(st, FamilyFor(st, v, prefix), v, MINT_WIDTHS);
    RegisteredCores(st, v, LOAD_WIDTHS);
    MintAtCores(Registered(st, v, LOAD_WIDTHS).st, PWD, v, MINT_WIDTHS);
  }

  lemma {:induction false} IndexAllCores(st: Store, vs: seq<string>)
    ensures AddsCores(st, IndexAll(st, vs))
    decreases |vs|
  {
    if vs != [] {
      IndexAllCores(Indexed(st, vs[0], 4), vs[1..]);
    }
  }

  lemma {:induction false} FillCores(st: Store, vs: seq<string>, all: seq<string>)
    ensures AddsCores(st, Fill(st, vs, all).st)
    decreases |vs|
  {
    if vs != [] {
      var v := vs[0];
      var st1 := Indexed(st, v, LoadWidth(st, all, v));
      if Free(st1, LoadTag(st, all, v), v) {
        FillCores(Filled(st1, LoadTag(st, all, v), v), vs[1..], all);
      }
    }
  }

  lemma UseExtraKeyed(st: Store, v: string)
    requires v in st.extra && Keyed(st)
    ensures Keyed(UseExtra(st, v).st)
  {
    var r := UseExtra(st, v).st;
    forall k | k in r.cores ensures KeyHolds(r, k) {
      if k in st.cores {
        assert KeyHolds(st, k);
      } else {
        assert EndsIn(r.extra[v], k);
      }
    }
  }

  lemma StepKeyed(st: Store, op: Op)
    requires Keyed(st)
    ensures Keyed(Step(st, op))
  {
    hide Keyed, Mint, RetagAt, TagFor, IndexAll, Fill;
    match op
    case OpMint(fam, v) => MintAtCores(st, fam, v, MINT_WIDTHS); KeyedMint(st, fam, v);
    case OpRetag(tok, prefix) => RetagAtCores(st, OrDefault(prefix), tok, RETAG_WIDTHS); KeyedLater(st, Step(st, op));
    case OpTagFor(v, prefix) => TagForCores(st, v, prefix); KeyedLater(st, Step(st, op));
    case OpTagValue(v, prefix) =>
      if v in st.extra {
        UseExtraKeyed(st, v);
      } else {
        TagForCores(st, v, prefix);
        KeyedLater(st, Step(st, op));
      }
    case OpMintCell(fam, cell) =>
      KeyedMint(st, fam, cell);
      KeyedLater(Mint(st, fam, cell).st, MintCell(st, fam, cell).st);
    case OpSetPrefixes(m) => KeyedLater(st, Step(st, op));
    case OpGetFams => KeyedLater(st, Step(st, op));
    case OpLoad(secrets, named, salt) =>
      var all := Vault(secrets, named);
      var start := Emptied(st, all, salt);
      NoKeys(start);
      IndexAllCores(start, all);
      KeyedLater(start, IndexAll(start, all));
      FillCores(IndexAll(start, all), all, all);
      KeyedLater(IndexAll(start, all), Step(st, op));
    case OpLock(salt) => NoKeys(Step(st, op));
  }

  lemma KeyedMint(st: Store, fam: string, v: string)
    requires Keyed(st)
    ensures Keyed(Mint(st, fam, v).st)
  {
    hide Keyed;
    MintAtCores(st, fam, v, MINT_WIDTHS);
    KeyedLater(st, Mint(st, fam, v).st);
  }

  lemma NoKeys(st: Store)
    requires st.cores == map[]
    ensures Keyed(st)
  {}

  /** Over every run, loads and locks included, a key of the core index is a core or the end
      of a whole-cell tag. */
  lemma {:induction false} RunKeyed(st: Store, ops: seq<Op>)
    requires Keyed(st)
    ensures Keyed(StoreRuns.Run(st, ops))
    decreases |ops|
  {
    hide Keyed;
    if ops != [] {
      StepKeyed(st, ops[0]);
      RunKeyed(Step(st, ops[0]), ops[1..]);
    }
  }

  /** Using a whole-cell tag in a text enters a key that is no core exactly when the family
      of the tag is longer than the one whose length is cut off. */
  lemma StrayKeyIff(st: Store, v: string)
    requires v in st.extra && WholeTag(st.extra[v])
    ensures var tag := st.extra[v];
            var key := KeyBehind(FamilyFor(st, v, PWD), tag);
            key in UseExtra(st, v).st.cores && (AllHex(key) <==> |FamilyFor(st, v, PWD)| >= |FamPart(tag)|)
  {
    hide IsTag, KeyBehind, FamilyOf;
    var tag := st.extra[v];
    KeyHexIff(FamilyFor(st, v, PWD), FamPart(tag), CorePart(tag));
    assert FamPart(tag) + CorePart(tag) == tag;
    UseExtraEnters(st, v);
  }

  lemma UseExtraEnters(st: Store, v: string)
    requires v in st.extra
    ensures KeyBehind(FamilyFor(st, v, PWD), st.extra[v]) in UseExtra(st, v).st.cores
  {}

  lemma KeyHexIff(prefix: string, fam: string, core: string)
    requires IsTag(fam, core)
    ensures AllHex(KeyBehind(prefix, fam + core)) <==> |prefix| >= |fam|
  {
    hide KeyBehind;
    KeyIs(prefix, fam, core);
    if |prefix| > |fam + core| {
      KeyBeyond(prefix, fam + core);
    }
  }

  lemma KeyBeyond(prefix: string, c: string)
    requires |prefix| > |c|
    ensures KeyBehind(prefix, c) == ""
  {}

  // ---------- where a cell and a text part ways ----------

  /** A whole tag that only the core index knows. The text restore finds it by its core; the
      cell restore finds something exactly when what stands behind the length of the requested
      prefix is a key of the index, and the same exactly when that key has the same value: so
      always with a prefix of the length of the tag's family. */
  lemma CellFallbackIff(t: Tables, prefix: string, families: seq<string>, fam: string, core: string)
    requires IsTag(fam, core) && fam + core !in t.tags && core in t.cores
    ensures var c := fam + core;
            var r := RestoreCell(t, prefix, families, c);
            var key := KeyBehind(prefix, c);
            RestoreAll(t, c) == Output(t.cores[core], 1)
            && (r.count == 1 <==> key in t.cores) && (r.count == 0 <==> key !in t.cores)
            && (Out(r) == RestoreAll(t, c) <==> key in t.cores && t.cores[key] == t.cores[core])
            && (|prefix| == |fam| ==> key == core)
  {
    hide IsTag, Desanitize, RestoreAll, TokenAt, WholeTag, FamPart, CorePart, TagLike, KeyBehind;
    TagAlone(t, fam, core);
    PartsOfTagAre(fam, core);
    KeyIs(prefix, fam, core);
  }

  /** With a prefix shorter than the tag's family the key is no core, so in every state that
      a run can reach the cell restore finds only what the end of a whole-cell tag was entered
      for: a tag with the same characters behind the length of the prefix. */
  lemma ShorterPrefix(st: Store, prefix: string, families: seq<string>, fam: string, core: string)
    requires Keyed(st) && IsTag(fam, core) && |prefix| < |fam| && fam + core !in st.tags
    ensures RestoreCell(TablesOf(st), prefix, families, fam + core).count == 1 ==>
              exists v | v in st.extra :: EndsIn(st.extra[v], KeyBehind(prefix, fam + core))
  {
    hide IsTag, Desanitize, WholeTag, TagLike, KeyBehind;
    PartsOfTagAre(fam, core);
    KeyIs(prefix, fam, core);
    assert KeyBehind(prefix, fam + core) in st.cores ==> KeyHolds(st, KeyBehind(prefix, fam + core));
  }

  /** And that does happen: a cell tagged under a longer family, of a value without a column
      family, is used in a text; then a tag of another family of that length, which was never
      minted, is restored to the value with the default prefix. */
  lemma StrayKeyRestores(st: Store, v: string, fam: string, core: string, other: string, families: seq<string>)
    requires v in st.extra && v !in st.prefixes && IsTag(fam, core) && st.extra[v] == fam + core && |fam| > 4
    requires KeyBehind(PWD, fam + core) !in st.cores
    requires IsFamily(other) && |other| == |fam| && other[4..] == fam[4..]
    requires other + core !in UseExtra(st, v).st.tags && core !in st.cores
    ensures var t := TablesOf(UseExtra(st, v).st);
            Out(RestoreCell(t, PWD, families, other + core)) == Output(v, 1)
            && RestoreAll(t, other + core) == Output(other + core, 0)
  {
    hide Desanitize, RestoreAll, TagLike, WholeTag, IsTag, KeyBehind, IsFamily;
    var t := TablesOf(UseExtra(st, v).st);
    TagOfOther(fam, other, core);
    PartsOfTagAre(other, core);
    SameEnd(fam, other, core);
    KeyIs(PWD, fam, core);
    assert KeyBehind(PWD, other + core) != core;
    UnknownAlone(t, other, core);
  }

  lemma TagOfOther(fam: string, other: string, core: string)
    requires IsTag(fam, core) && IsFamily(other)
    ensures IsTag(other, core) && AllHex(core)
  {}

  lemma SameEnd(fam: string, other: string, core: string)
    requires |other| == |fam| > 4 && other[4..] == fam[4..]
    ensures KeyBehind(PWD, other + core) == KeyBehind(PWD, fam + core)
  {
    assert (other + core)[4..] == other[4..] + core == fam[4..] + core == (fam + core)[4..];
  }

  lemma UnknownAlone(t: Tables, fam: string, core: string)
    requires IsTag(fam, core) && Resolve(t, fam, core).None?
    ensures RestoreAll(t, fam + core) == Output(fam + core, 0)
  {
    hide RestoreAll, IsTag, TokenAt;
    TagIsToken(fam, core, "");
    TagParts(fam, core, "");
    assert fam + core + "" == fam + core;
    AllUnfolds(t, fam + core);
    RestoresNothing(t);
  }

  lemma KeyIs(prefix: string, fam: string, core: string)
    requires IsTag(fam, core)
    ensures |prefix| < |fam| ==> !AllHex(KeyBehind(prefix, fam + core))
    ensures |fam| <= |prefix| <= |fam| + |core| ==> KeyBehind(prefix, fam + core) == core[|prefix| - |fam|..]
    ensures |prefix| == |fam| ==> KeyBehind(prefix, fam + core) == core
  {
    var c, p := fam + core, |prefix|;
    if p < |fam| {
      assert c[p..][|fam| - 1 - p] == fam[|fam| - 1] == '_';
    }
  }

  lemma PartsOfTagAre(fam: string, core: string)
    requires IsTag(fam, core)
    ensures FamPart(fam + core) == fam && CorePart(fam + core) == core && WholeTag(fam + core) && fam + core != ""
  {
    FamilyEndIs(fam, core);
  }

  lemma TagAlone(t: Tables, fam: string, core: string)
    requires IsTag(fam, core) && Resolve(t, fam, core).Some?
    ensures RestoreAll(t, fam + core) == Output(Resolve(t, fam, core).value, 1)
  {
    hide RestoreAll;
    TagRestores(t, fam, core, "");
    RestoresNothing(t);
    assert fam + core + "" == fam + core;
    var v := Resolve(t, fam, core).value;
    assert v + "" == v;
  }

  /** A pass that restores nothing leaves the text as it is. */
  lemma {:induction false} NothingRestored(t: Tables, fam: string, s: string)
    requires RestoreOne(t, fam, s).count == 0
    ensures RestoreOne(t, fam, s).text == s
    decreases |s|
  {
    hide TagLen, Head, Stride;
    if s != "" {
      var k := Stride(fam, s);
      NothingRestored(t, fam, s[k..]);
      HeadNothing(t, fam, s);
      assert s[..k] + s[k..] == s;
    }
  }

  lemma HeadNothing(t: Tables, fam: string, s: string)
    requires s != "" && Head(t, fam, s).count == 0
    ensures Head(t, fam, s).text == s[..Stride(fam, s)]
  {
    var k := Stride(fam, s);
    hide TagLen;
    assert TagLen(fam, s) > 0 ==> s[..|fam|] + s[|fam|..k] == s[..k];
  }

  /** What one pass would restore, the passes together do not leave. */
  lemma {:induction false} PassesRestore(t: Tables, passes: seq<string>, fam: string, r: Restored)
    requires fam in passes && RestoreOne(t, fam, r.text).count > 0
    ensures RunPasses(t, passes, r).count > r.count
    decreases |passes|
  {
    hide RestoreOne;
    var o := RestoreOne(t, passes[0], r.text);
    var next := Restored(o.text, r.count + o.count, AddNew(r.unresolved, o.unresolved));
    CountGrows(t, passes[1..], next);
    if o.count == 0 {
      NothingRestored(t, passes[0], r.text);
      assert passes == [passes[0]] + passes[1..];
      PassesRestore(t, passes[1..], fam, next);
    }
  }

  lemma {:induction false} CountGrows(t: Tables, passes: seq<string>, r: Restored)
    ensures RunPasses(t, passes, r).count >= r.count
    decreases |passes|
  {
    hide RestoreOne;
    if passes != [] {
      var o := RestoreOne(t, passes[0], r.text);
      CountGrows(t, passes[1..], Restored(o.text, r.count + o.count, AddNew(r.unresolved, o.unresolved)));
    }
  }

  /** A cell that is no whole tag, and in which the text restore finds something, is left as
      it is exactly when it looks like a default-family tag. */
  lemma LeftIff(t: Tables, prefix: string, families: seq<string>, c: string)
    requires c != "" && !WholeTag(c) && RestoreOne(t, PWD, c).count > 0
    ensures var r := RestoreCell(t, prefix, families, c);
            (r.count == 0 <==> TagLike(c)) && (TagLike(c) ==> r.text == c)
  {
    hide WholeTag, TagLike, RestoreOne;
    var fams := RestoreFams(prefix, families);
    PassesHas(fams);
    hide Passes, RestoreFams;
    PassesRestore(t, Passes(fams), PWD, Restored(c, 0, []));
  }

  /** So a known tag with something glued to it that no core could take up: the text restore
      reads the tag, the cell restore leaves the cell exactly when it is all letters and
      digits. */
  lemma GluedTagIsLeftIff(t: Tables, prefix: string, families: seq<string>, core: string, y: string)
    requires IsTag(PWD, core) && y != "" && Follows(core, y) && PWD + core in t.tags
    ensures var c := PWD + core + y;
            var r := RestoreCell(t, prefix, families, c);
            RestoreAll(t, c) == Join(Output(t.tags[PWD + core], 1), RestoreAll(t, y))
            && (r.count == 0 <==> forall i | 0 <= i < |y| :: IsAlnum(y[i])) && (r.count == 0 ==> r.text == c)
  {
    hide Desanitize, RestoreAll, TokenAt, WholeTag, RestoreOne, TagLike;
    TagRestores(t, PWD, core, y);
    GluedIsFound(t, core, y);
    GluedIsNoTag(core, y);
    LeftIff(t, prefix, families, PWD + core + y);
    GluedIsTagLike(core, y);
  }

  lemma GluedIsFound(t: Tables, core: string, y: string)
    requires IsTag(PWD, core) && Follows(core, y) && PWD + core in t.tags
    ensures RestoreOne(t, PWD, PWD + core + y).count > 0
  {
    hide TagLen, HasTag;
    var s := PWD + core + y;
    TagIsRead(PWD, core, y);
    TagParts(PWD, core, y);
    HeadRestores(t, PWD, s);
  }

  lemma HeadRestores(t: Tables, fam: string, s: string)
    requires s != "" && Head(t, fam, s).count > 0
    ensures RestoreOne(t, fam, s).count > 0
  {}

  lemma GluedIsTagLike(core: string, y: string)
    requires AllHex(core) && |core| >= 8
    ensures TagLike(PWD + core + y) <==> forall i | 0 <= i < |y| :: IsAlnum(y[i])
  {
    var c := PWD + core + y;
    assert c[..4] == PWD;
    forall i | 4 <= i < |c| ensures IsAlnum(c[i]) <==> i < 4 + |core| || IsAlnum(y[i - 4 - |core|]) {
      assert c[i] == if i < 4 + |core| then core[i - 4] else y[i - 4 - |core|];
    }
    assert forall i | 0 <= i < |y| :: c[4 + |core| + i] == y[i];
  }

  /** What is glued to a tag makes no other tag of it. */
  lemma GluedIsNoTag(core: string, y: string)
    requires IsTag(PWD, core) && y != "" && Follows(core, y)
    ensures !WholeTag(PWD + core + y)
  {
    var c := PWD + core + y;
    var k, n := FamilyEnd(c), 4 + |core|;
    assert c[3] == '_' && c[n] == y[0];
    assert forall i | 0 <= i < |core| :: c[4 + i] == core[i] && core[i] != '_';
    if k > n {
      assert FamPart(c)[n] == y[0];
      if HasLetter(core) {
        var i :| 0 <= i < |core| && !IsDigit(core[i]);
        assert FamPart(c)[4 + i] == core[i];
      }
    } else {
      assert k == 4;
      assert CorePart(c)[|core|] == c[n];
    }
  }

  // ---------- the round trip ----------

  /** A sanitized cell can be read back: it is one new tag; or no tag and no replacement,
      and looked up in vain or left alone; or a text that reads back through the passes. */
  predicate CellReads(t: Tables, prefix: string, families: seq<string>, d: Doc) {
    var c := Render(d);
    if WholeTag(c) then
      if d.End? then c !in t.tags && KeyBehind(prefix, c) !in t.cores
      else d.lit == "" && d.rest == End("") && !d.atom.live
    else if TagLike(c) then d.End?
    else
      var passes := Passes(RestoreFams(prefix, families));
      ListReadable(passes, d) && Fresh(d) && Scannable(t, passes, c)
  }

  lemma {:induction false} PassesReadCell(t: Tables, passes: seq<string>, d: Doc)
    requires Scannable(t, passes, Render(d)) && ListReadable(passes, d) && Fresh(d) && Known(t, d)
    ensures Out(RunPasses(t, passes, Restored(Render(d), 0, []))) == Output(Source(d), Changes(d))
  {
    hide RunPasses, PassOut, Scannable, ListReadable;
    RunPassesOut(t, passes, Restored(Render(d), 0, []));
    PassesReadDoc(t, passes, d);
    FreshExpands(t, d);
  }

  lemma SomethingRendered(d: Doc)
    requires TagsNonEmpty(d) && Source(d) != ""
    ensures Render(d) != ""
  {}

  lemma {:induction false} DocReadsBack(t: Tables, prefix: string, families: seq<string>, d: Doc)
    requires CellReads(t, prefix, families, d) && Known(t, d) && TagsNonEmpty(d)
    requires Source(d) != ""
    ensures Out(RestoreCell(t, prefix, families, Render(d))) == Output(Source(d), Changes(d))
  {
    hide WholeTag, TagLike, RunPasses, Scannable, ListReadable, Passes, RestoreFams, KeyBehind;
    var c := Render(d);
    SomethingRendered(d);
    if WholeTag(c) {
      if d.Seg? {
        assert d.lit + (d.atom.tag + "") == d.atom.tag && d.lit + (d.atom.orig + "") == d.atom.orig;
      }
    } else if !TagLike(c) {
      PassesReadCell(t, Passes(RestoreFams(prefix, families)), d);
    }
  }

  /** The same for a cell: tagged whole, the tag must be one that restoring reads. */
  predicate CellReadable(t: Tables, prefix: string, families: seq<string>, st: Store, cell: string, p: Plan,
                         typed: bool) {
    var w := SanitizeCell(st, cell, p, typed);
    cell != "" && w.CellDone? ==>
      if w.t == 1 then WholeTag(w.out)
      else CellReads(t, prefix, families, SanitizeText(st, cell, p.prefix).doc)
  }

  lemma {:induction false} CellRoundTrip(t: Tables, prefix: string, families: seq<string>, st: Store, cell: string,
                                         p: Plan, typed: bool)
    requires Coherent(st) && SanitizeCell(st, cell, p, typed).CellDone?
    requires Reaches(SanitizeCell(st, cell, p, typed).st, t)
    requires CellReadable(t, prefix, families, st, cell, p, typed)
    ensures var w := SanitizeCell(st, cell, p, typed);
            Out(RestoreCell(t, prefix, families, w.out)) == Output(cell, w.n + w.t)
  {
    hide SanitizeText, WholeTag, TagLike, Desanitize, CellReads, MintCell, RestoreCell;
    var w := SanitizeCell(st, cell, p, typed);
    if cell == "" {
      EmptyCell(t, prefix, families);
    } else {
      var x := SanitizeText(st, cell, p.prefix);
      SanitizeIsGood(st, cell, p.prefix);
      if w.t == 1 {
        MintCellKeeps(x.st, CellFamily(p, typed), cell);
        TagReadsBack(t, prefix, families, w.out);
      } else {
        KnownLater(x.st, t, x.doc);
        DocReadsBack(t, prefix, families, x.doc);
        if Changes(x.doc) == 0 {
          NoChangeNoEdit(x.doc);
        }
      }
    }
  }

  lemma EmptyCell(t: Tables, prefix: string, families: seq<string>)
    ensures Out(RestoreCell(t, prefix, families, "")) == Output("", 0)
  {}

  lemma TagReadsBack(t: Tables, prefix: string, families: seq<string>, tag: string)
    requires WholeTag(tag) && tag != "" && tag in t.tags
    ensures Out(RestoreCell(t, prefix, families, tag)) == Output(t.tags[tag], 1)
  {
    hide WholeTag;
  }

  // ---------- along the run ----------

  /** Every cell that the run works out, as it works it out, can be read back. */
  predicate RowReadable(t: Tables, prefix: string, families: seq<string>, q: Request, first: seq<string>, head: bool,
                        st: Store, cache: Cache, row: seq<string>, j: nat)
    requires j <= |row|
    decreases |row| - j
  {
    j == |row| || (
      var p := PlanOf(q, first, j);
      var r := RunCell(q, p, head, true, st, cache, row[j]);
      (if head then CellReadable(t, prefix, families, st, row[j], HEAD, false)
       else KeyOf(p, row[j]) in cache || CellReadable(t, prefix, families, st, row[j], p, q.typed))
      && (r.Ran? ==> RowReadable(t, prefix, families, q, first, head, r.st, r.cache, row, j + 1)))
  }

  predicate RowsReadable(t: Tables, prefix: string, families: seq<string>, q: Request, st: Store, cache: Cache,
                         rows: seq<seq<string>>, i: nat)
    requires i <= |rows|
    decreases |rows| - i
  {
    i == |rows| || (
      var head := q.header && i == 0;
      var r := RunRow(q, rows[0], head, true, st, cache, rows[i], 0);
      RowReadable(t, prefix, families, q, rows[0], head, st, cache, rows[i], 0)
      && (r.Ran? ==> RowsReadable(t, prefix, families, q, r.st, r.cache, rows, i + 1)))
  }

  /** Every cache entry reads back. */
  predicate CacheReads(t: Tables, prefix: string, families: seq<string>, cache: Cache) {
    forall k | k in cache ::
      Out(RestoreCell(t, prefix, families, cache[k].out)) == Output(k.cell, cache[k].n + cache[k].t)
  }

  lemma {:induction false} RunCellReads(t: Tables, prefix: string, families: seq<string>, q: Request,
                                        first: seq<string>, head: bool, st: Store, cache: Cache, cell: string,
                                        j: nat)
    requires var p := PlanOf(q, first, j);
             var r := RunCell(q, p, head, true, st, cache, cell);
             r.Ran? && Reaches(r.st, t)
             && (if head then CellReadable(t, prefix, families, st, cell, HEAD, false)
                 else KeyOf(p, cell) in cache || CellReadable(t, prefix, families, st, cell, p, q.typed))
    requires Coherent(st) && CacheReads(t, prefix, families, cache)
    ensures var r := RunCell(q, PlanOf(q, first, j), head, true, st, cache, cell);
            Out(RestoreCell(t, prefix, families, r.out)) == Output(cell, r.n + r.t)
            && CacheReads(t, prefix, families, r.cache)
  {
    hide SanitizeCell, RestoreCell, PlanOf, CellReadable, Coherent, Reaches;
    var p := PlanOf(q, first, j);
    if cell == "" {
      EmptyCell(t, prefix, families);
    } else if head {
      CellRoundTrip(t, prefix, families, st, cell, HEAD, false);
    } else if KeyOf(p, cell) !in cache {
      CellRoundTrip(t, prefix, families, st, cell, p, q.typed);
    }
  }

  lemma {:induction false} RowRoundTrip(t: Tables, prefix: string, families: seq<string>, q: Request,
                                        first: seq<string>, head: bool, st: Store, cache: Cache,
                                        row: seq<string>, j: nat, met: seq<string>, out: seq<string>, k: nat)
    requires j <= |row| && Coherent(st) && CacheReads(t, prefix, families, cache)
    requires RowReadable(t, prefix, families, q, first, head, st, cache, row, j)
    requires var r := RunRow(q, first, head, true, st, cache, row, j);
             r.Ran? && Reaches(r.st, t) && k <= |out| && out[k..] == r.out
    ensures var r := RunRow(q, first, head, true, st, cache, row, j);
            var b := BackRow(t, prefix, families, out, k, met);
            b.out == row[j..] && b.count == r.n + r.t && CacheReads(t, prefix, families, r.cache)
    decreases |row| - j
  {
    hide RunCell, PlanOf, CellReadable, CacheReads, RestoreCell, Coherent, Reaches;
    if j < |row| {
      var p := PlanOf(q, first, j);
      var r := RunCell(q, p, head, true, st, cache, row[j]);
      var rest := RunRow(q, first, head, true, r.st, r.cache, row, j + 1);
      RunCellLater(q, p, head, true, st, cache, row[j]);
      RunRowLater(q, first, head, true, r.st, r.cache, row, j + 1);
      ReachesBack(r.st, rest.st, t);
      RunCellReads(t, prefix, families, q, first, head, st, cache, row[j], j);
      assert out[k..][0] == out[k] && out[k..][1..] == out[k + 1..];
      var b := RestoreCell(t, prefix, families, out[k]);
      RowRoundTrip(t, prefix, families, q, first, head, r.st, r.cache, row, j + 1, AddNew(met, b.unresolved), out,
                   k + 1);
      assert row[j..] == [row[j]] + row[j + 1..];
    }
  }

  /** From row `i` on. */
  lemma {:induction false} RowsRoundTripFrom(t: Tables, prefix: string, families: seq<string>, q: Request,
                                             st: Store, cache: Cache, rows: seq<seq<string>>, i: nat,
                                             met: seq<string>, out: seq<seq<string>>, k: nat)
    requires i <= |rows| && Coherent(st) && CacheReads(t, prefix, families, cache)
    requires RowsReadable(t, prefix, families, q, st, cache, rows, i)
    requires var r := RunRows(q, true, st, cache, rows, i);
             r.Ran? && Reaches(r.st, t) && k <= |out| && out[k..] == r.out
    ensures var r := RunRows(q, true, st, cache, rows, i);
            var b := BackRows(t, prefix, families, out, k, met);
            b.out == rows[i..] && b.count == r.n + r.t
    decreases |rows| - i
  {
    hide RunRow, BackRow, RowReadable, CacheReads, Coherent, Reaches;
    if i < |rows| {
      var head := q.header && i == 0;
      var r := RunRow(q, rows[0], head, true, st, cache, rows[i], 0);
      var rest := RunRows(q, true, r.st, r.cache, rows, i + 1);
      RunRowLater(q, rows[0], head, true, st, cache, rows[i], 0);
      RunRowsLater(q, true, r.st, r.cache, rows, i + 1);
      ReachesBack(r.st, rest.st, t);
      assert out[k..][0] == out[k] && out[k..][1..] == out[k + 1..];
      assert out[k][0..] == r.out && rows[i][0..] == rows[i];
      RowRoundTrip(t, prefix, families, q, rows[0], head, st, cache, rows[i], 0, met, out[k], 0);
      var b := BackRow(t, prefix, families, out[k], 0, met);
      RowsRoundTripFrom(t, prefix, families, q, r.st, r.cache, rows, i + 1, b.unresolved, out, k + 1);
      assert rows[i..] == [rows[i]] + rows[i + 1..];
    }
  }

  /** A sanitized table comes back as it was, cell for cell, with as many restorations as
      there were replacements and tagged cells, although most cells may have come out of
      the cache. */
  lemma {:induction false} RowsRoundTrip(q: Request, st: Store, rows: seq<seq<string>>, t: Tables, prefix: string,
                                         families: seq<string>)
    requires Coherent(st) && ValidRequest(q) && IsPrefix(prefix)
    requires SanitizeRows(q, st, rows).value.Ran? && Reaches(SanitizeRows(q, st, rows).value.st, t)
    requires RowsReadable(t, prefix, families, q, st, map[], rows, 0)
    ensures var r := SanitizeRows(q, st, rows).value;
            var b := RestoreRows(t, prefix, families, r.out);
            b.Some? && b.value.out == rows && b.value.count == r.n + r.t
  {
    hide RunRows, BackRows, RowsReadable, RestoreCell;
    var r := SanitizeRows(q, st, rows).value;
    assert r.out[0..] == r.out && rows[0..] == rows;
    RowsRoundTripFrom(t, prefix, families, q, st, map[], rows, 0, [], r.out, 0);
  }
}
