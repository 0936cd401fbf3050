/** Sanitizing tables: the pipeline of one cell, and the run over the rows with its cache
    of cells already seen. */
module Rows {
  import opened Text
  import opened TagStore
  import opened StoreRuns
  import opened Sweep
  import opened LeakCheck
  import opened Sanitize
  import opened Cells
  import opened Repeats
  import opened Headers

  // ---------- one cell ----------

  const SENSITIVE_CELL_MIN := 4

  const NONSENSITIVE_HEADERS: set<string> := {
    "id", "ids", "code", "codice", "tipo", "type", "stato", "state", "nota", "note",
    "comment", "comments", "desc", "description", "token", "ref", "rif"}

  type Name = n: string | IsName(n) witness ""

  /** How a cell is treated: whether it may be tagged whole, the name of its column, the
      prefix, whether its column was selected, and its column's own prefix or "". */
  datatype Plan = Plan(missing: bool, header: Name, prefix: string, force: bool, own: string)

  const HEAD := Plan(false, "", PWD, false, "")

  /** What a cell became, the values replaced in it, and whether it was tagged whole. */
  datatype CellWork = CellDone(st: Store, out: string, n: nat, t: nat) | CellFailed(st: Store)

  /** The family of a whole-cell tag. */
  function CellFamily(p: Plan, typed: bool): string {
    if !typed || p.header == "" then p.prefix
    else if p.own != "" then p.own
    else HeaderFamily(p.header)
  }

  predicate StaysClear(p: Plan, typed: bool) {
    typed && p.header != "" && !p.force && p.header in NONSENSITIVE_HEADERS
  }

  /** Vault values first, always; a cell without any may then be tagged whole. */
  function SanitizeCell(st: Store, cell: string, p: Plan, typed: bool): CellWork {
    if cell == "" then CellDone(st, "", 0, 0)
    else if !st.loaded then CellFailed(st)
    else
      match SanitizeText(st, cell, p.prefix)
      case Failed(st1) => CellFailed(st1)
      case Done(st1, d) =>
        if Changes(d) > 0 || !p.missing || |cell| < SENSITIVE_CELL_MIN then CellDone(st1, Render(d), Changes(d), 0)
        else if StaysClear(p, typed) then CellDone(st1, cell, 0, 0)
        else
          var m := MintCell(st1, CellFamily(p, typed), cell);
          if m.tag.None? then CellFailed(m.st) else CellDone(m.st, m.tag.value, 0, 1)
  }

  // ---------- a request ----------

  datatype Request = Request(
    onMissing: string,
    header: bool,
    typed: bool,
    columns: Option<set<int>>,         // the columns that may be tagged whole
    prefix: string,
    columnPrefixes: map<int, string>,  // a prefix of its own for some columns
    lower: string -> string)

  /** What the batch refuses before it starts. */
  predicate ValidRequest(q: Request) {
    q.onMissing in {"keep", "tag"} && IsPrefix(q.prefix)
    && (forall k | k in q.columnPrefixes :: k >= 0 && IsPrefix(q.columnPrefixes[k]))
    && (q.columns.Some? ==> q.columns.value != {} && forall k | k in q.columns.value :: k >= 0)
  }

  /** How column `j` is treated below the header row `first`. */
  function PlanOf(q: Request, first: seq<string>, j: nat): Plan {
    var tag := q.onMissing == "tag";
    var own := if j in q.columnPrefixes then q.columnPrefixes[j] else "";
    Plan(if q.columns.Some? then tag && j in q.columns.value else tag,
         if q.typed && q.header && j < |first| then NormHeader(q.lower, first[j]) else "",
         if own != "" then own else q.prefix,
         q.columns.Some? && tag && j in q.columns.value,
         own)
  }

  /** What the cache goes by. The column's own prefix is not in it. */
  datatype Key = Key(header: Name, cell: string, missing: bool, force: bool, prefix: string)

  function KeyOf(p: Plan, cell: string): Key { Key(p.header, cell, p.missing, p.force, p.prefix) }

  datatype Hit = Hit(out: string, n: nat, t: nat)

  type Cache = map<Key, Hit>

  /** State and cache after some cells, what they became, and the two totals. */
  datatype Run<T> = Ran(st: Store, cache: Cache, out: T, n: nat, t: nat) | Stopped(st: Store)

  /** One cell of row `head`; with `caching` off every cell is worked out anew. */
  function RunCell(q: Request, p: Plan, head: bool, caching: bool, st: Store, cache: Cache, cell: string): Run<string>
  {
    if cell == "" then Ran(st, cache, "", 0, 0)
    else if head then
      match SanitizeCell(st, cell, HEAD, false)
      case CellFailed(st1) => Stopped(st1)
      case CellDone(st1, out, n, t) => Ran(st1, cache, out, n, t)
    else
      var key := KeyOf(p, cell);
      if caching && key in cache then Ran(st, cache, cache[key].out, cache[key].n, cache[key].t)
      else
        match SanitizeCell(st, cell, p, q.typed)
        case CellFailed(st1) => Stopped(st1)
        case CellDone(st1, out, n, t) => Ran(st1, cache[key := Hit(out, n, t)], out, n, t)
  }

  /** The cells of a row from column `j` on. */
  function RunRow(q: Request, first: seq<string>, head: bool, caching: bool, st: Store, cache: Cache,
                  row: seq<string>, j: nat): Run<seq<string>>
    requires j <= |row|
    decreases |row| - j
  {
    if j == |row| then Ran(st, cache, [], 0, 0)
    else
      match RunCell(q, PlanOf(q, first, j), head, caching, st, cache, row[j])
      case Stopped(st1) => Stopped(st1)
      case Ran(st1, cache1, out, n, t) =>
        match RunRow(q, first, head, caching, st1, cache1, row, j + 1)
        case Stopped(st2) => Stopped(st2)
        case Ran(st2, cache2, outs, n2, t2) => Ran(st2, cache2, [out] + outs, n + n2, t + t2)
  }

  /** The rows from row `i` on; row 0 is the header row when there is one. */
  function RunRows(q: Request, caching: bool, st: Store, cache: Cache, rows: seq<seq<string>>,
                   i: nat): Run<seq<seq<string>>>
    requires i <= |rows|
    decreases |rows| - i
  {
    if i == |rows| then Ran(st, cache, [], 0, 0)
    else
      match RunRow(q, rows[0], q.header && i == 0, caching, st, cache, rows[i], 0)
      case Stopped(st1) => Stopped(st1)
      case Ran(st1, cache1, out, n, t) =>
        match RunRows(q, caching, st1, cache1, rows, i + 1)
        case Stopped(st2) => Stopped(st2)
        case Ran(st2, cache2, outs, n2, t2) => Ran(st2, cache2, [out] + outs, n + n2, t + t2)
  }

  /** The whole table; nothing is done for a request that is refused. */
  function SanitizeRows(q: Request, st: Store, rows: seq<seq<string>>): Option<Run<seq<seq<string>>>> {
    if ValidRequest(q) then Some(RunRows(q, true, st, map[], rows, 0)) else None
  }

  // ---------- header cells ----------

  /** A header cell is never tagged whole: what it becomes is what the text becomes. */
  lemma HeaderIsNotTagged(q: Request, p: Plan, caching: bool, st: Store, cache: Cache, cell: string)
    requires RunCell(q, p, true, caching, st, cache, cell).Ran?
    ensures var r := RunCell(q, p, true, caching, st, cache, cell);
            r.t == 0 && r.st.extra == st.extra && r.cache == cache
  {
    hide SanitizeText;
    ChatUsesCellTags(st, cell, PWD);
  }

  /** Nor is any cell of the header row, and the row leaves the cache alone. */
  lemma {:induction false} HeaderRowIsNotTagged(q: Request, first: seq<string>, caching: bool, st: Store, cache: Cache,
                                                row: seq<string>, j: nat)
    requires j <= |row| && RunRow(q, first, true, caching, st, cache, row, j).Ran?
    ensures var r := RunRow(q, first, true, caching, st, cache, row, j);
            r.t == 0 && r.st.extra == st.extra && r.cache == cache
    decreases |row| - j
  {
    hide RunCell, PlanOf;
    if j < |row| {
      var p := PlanOf(q, first, j);
      HeaderIsNotTagged(q, p, caching, st, cache, row[j]);
      HeaderRowIsNotTagged(q, first, caching, RunCell(q, p, true, caching, st, cache, row[j]).st, cache, row, j + 1);
    }
  }

  /** The first row of a request with a header is such a row. */
  lemma FirstRowIsHeader(q: Request, st: Store, h: seq<string>)
    requires q.header && SanitizeRows(q, st, [h]).Some? && SanitizeRows(q, st, [h]).value.Ran?
    ensures var r := SanitizeRows(q, st, [h]).value; r.t == 0 && r.st.extra == st.extra
  {
    hide RunRow;
    HeaderRowIsNotTagged(q, h, true, st, map[], h, 0);
    var r := RunRow(q, h, true, true, st, map[], h, 0);
    assert [h][0] == h;
    assert RunRows(q, true, r.st, r.cache, [h], 1) == Ran(r.st, r.cache, [], 0, 0);
  }

  // ---------- without a vault ----------

  lemma CellIsRefused(q: Request, p: Plan, head: bool, caching: bool, st: Store, cell: string)
    requires !st.loaded
    ensures RunCell(q, p, head, caching, st, map[], cell)
         == if cell == "" then Ran(st, map[], "", 0, 0) else Stopped(st)
  {
    hide SanitizeText, MintCell;
  }

  lemma {:induction false} RowIsRefused(q: Request, first: seq<string>, head: bool, caching: bool, st: Store,
                                        row: seq<string>, j: nat)
    requires !st.loaded && j <= |row|
    ensures var r := RunRow(q, first, head, caching, st, map[], row, j);
            if forall k | j <= k < |row| :: row[k] == "" then r.Ran? && r.st == st && r.cache == map[] else r.Stopped?
    decreases |row| - j
  {
    hide PlanOf, RunCell;
    if j < |row| {
      CellIsRefused(q, PlanOf(q, first, j), head, caching, st, row[j]);
      RowIsRefused(q, first, head, caching, st, row, j + 1);
    }
  }

  lemma {:induction false} RowsAreRefused(q: Request, caching: bool, st: Store, rows: seq<seq<string>>, i: nat)
    requires !st.loaded && i <= |rows| && exists k, j | i <= k < |rows| && 0 <= j < |rows[k]| :: rows[k][j] != ""
    ensures RunRows(q, caching, st, map[], rows, i).Stopped?
    decreases |rows| - i
  {
    hide RunRow;
    RowIsRefused(q, rows[0], q.header && i == 0, caching, st, rows[i], 0);
    if forall k | 0 <= k < |rows[i]| :: rows[i][k] == "" {
      RowsAreRefused(q, caching, st, rows, i + 1);
    }
  }

  /** Without a vault no table with anything in it goes through. */
  lemma NoVaultNoTable(q: Request, st: Store, rows: seq<seq<string>>)
    requires !st.loaded && ValidRequest(q) && exists k, j | 0 <= k < |rows| && 0 <= j < |rows[k]| :: rows[k][j] != ""
    ensures SanitizeRows(q, st, rows).value.Stopped?
  {
    hide RunRows;
    RowsAreRefused(q, true, st, rows, 0);
  }

  // ---------- which cells are tagged whole ----------

  /** The request lets the cells of column `j` be tagged: it asks for it, and lists the column when it
      lists columns. */
  predicate MayTag(q: Request, j: nat) {
    q.onMissing == "tag" && (q.columns.Some? ==> j in q.columns.value)
  }

  /** The name of column `j`, which only a typed request with a header has. */
  function NameOf(q: Request, first: seq<string>, j: nat): Name {
    if q.typed && q.header && j < |first| then NormHeader(q.lower, first[j]) else ""
  }

  /** The column's own prefix, or that of the request. */
  function PrefixOf(q: Request, j: nat): string {
    if j in q.columnPrefixes then q.columnPrefixes[j] else q.prefix
  }

  /** What it takes for a cell of column `j` below the header to be tagged whole: nothing in it was replaced, it has
      four characters at least, the column may be tagged, and its name, if it has one, is none of those that stay
      clear, unless the column was selected. */
  predicate ToTag(q: Request, first: seq<string>, j: nat, cell: string, d: Doc) {
    Changes(d) == 0 && |cell| >= 4 && MayTag(q, j)
    && (NameOf(q, first, j) == "" || NameOf(q, first, j) !in NONSENSITIVE_HEADERS
        || (q.columns.Some? && j in q.columns.value))
  }

  /** The family then: the column's own prefix, else that of its name, else the request's prefix. */
  function FamilyToTag(q: Request, first: seq<string>, j: nat): string {
    if NameOf(q, first, j) != "" && j !in q.columnPrefixes then HeaderFamily(NameOf(q, first, j)) else PrefixOf(q, j)
  }

  /** Tagged whole with a tag of the family, or else what the text became. */
  ghost predicate CellIs(q: Request, first: seq<string>, j: nat, st: Store, cell: string, r: Run<seq<string>>) {
    var w := SanitizeText(st, cell, PrefixOf(q, j));
    r.Ran? && w.Done?
    && if ToTag(q, first, j, cell, w.doc) then
         var m := MintCell(w.st, FamilyToTag(q, first, j), cell);
         r.t == 1 && r.n == 0 && m.st == r.st && m.tag.Some? && r.out == [m.tag.value]
         && HasForm(st, FamilyToTag(q, first, j), cell, m.tag.value)
       else r.t == 0 && r.n == Changes(w.doc) && r.out == [Render(w.doc)] && r.st == w.st
  }

  /** A cell below the header that is worked out, here the last one of its row, is tagged whole exactly then; any other
      is what its text became. */
  lemma {:induction false} WholeCellIff(q: Request, first: seq<string>, caching: bool, st: Store, cache: Cache,
                                        row: seq<string>)
    requires Coherent(st) && ValidRequest(q) && row != [] && row[|row| - 1] != "" && (caching ==> cache == map[])
    requires RunRow(q, first, false, caching, st, cache, row, |row| - 1).Ran?
    ensures CellIs(q, first, |row| - 1, st, row[|row| - 1], RunRow(q, first, false, caching, st, cache, row, |row| - 1))
  {
    hide SanitizeText, MintCell, NormHeader, HeaderFamily, IsPrefix, Render, Coherent, IsName, HasForm, RunRow;
    var j, cell := |row| - 1, row[|row| - 1];
    var p := PlanOf(q, first, j);
    OneOfRow(q, first, caching, st, cache, row);
    SanitizeIsGood(st, cell, p.prefix);
    PrefixIsThere(q, j);
    var w := SanitizeText(st, cell, p.prefix);
    if w.Done? {
      NoEditAtZero(w.doc);
      var fam := CellFamily(p, q.typed);
      MintCellIs(w.st, fam, cell);
      FormStays(w.st, st, fam, cell, MintCell(w.st, fam, cell).tag);
    }
  }

  lemma OneOfRow(q: Request, first: seq<string>, caching: bool, st: Store, cache: Cache, row: seq<string>)
    requires row != [] && row[|row| - 1] != "" && (caching ==> cache == map[])
    ensures var j := |row| - 1;
            var p := PlanOf(q, first, j);
            RunRow(q, first, false, caching, st, cache, row, j) ==
              match SanitizeCell(st, row[j], p, q.typed)
              case CellFailed(st1) => Stopped(st1)
              case CellDone(st1, out, n, t) => Ran(st1, cache[KeyOf(p, row[j]) := Hit(out, n, t)], [out], n, t)
  {
    hide SanitizeCell, PlanOf;
    var j := |row| - 1;
    var p := PlanOf(q, first, j);
    var w := SanitizeCell(st, row[j], p, q.typed);
    if w.CellDone? {
      var cache1 := cache[KeyOf(p, row[j]) := Hit(w.out, w.n, w.t)];
      assert RunCell(q, p, false, caching, st, cache, row[j]) == Ran(w.st, cache1, w.out, w.n, w.t);
      assert [w.out] + [] == [w.out];
      assert RunRow(q, first, false, caching, w.st, cache1, row, j + 1) == Ran(w.st, cache1, [], 0, 0);
    } else {
      assert RunCell(q, p, false, caching, st, cache, row[j]) == Stopped(w.st);
    }
  }

  /** A row is its cells one after the other, each as if it were the last. */
  lemma {:induction false} RowIsCells(q: Request, first: seq<string>, head: bool, caching: bool, st: Store,
                                      cache: Cache, row: seq<string>, j: nat)
    requires j < |row| && RunRow(q, first, head, caching, st, cache, row, j).Ran?
    ensures var a := RunRow(q, first, head, caching, st, cache, row[..j + 1], j);
            a.Ran? && |a.out| == 1
            && var b := RunRow(q, first, head, caching, a.st, a.cache, row, j + 1);
               b.Ran? && RunRow(q, first, head, caching, st, cache, row, j)
                         == Ran(b.st, b.cache, a.out + b.out, a.n + b.n, a.t + b.t)
  {
    hide RunCell, PlanOf;
    var p := PlanOf(q, first, j);
    assert row[..j + 1][j] == row[j];
    var c := RunCell(q, p, head, caching, st, cache, row[j]);
    assert c.Ran?;
    assert RunRow(q, first, head, caching, c.st, c.cache, row[..j + 1], j + 1) == Ran(c.st, c.cache, [], 0, 0);
    assert [c.out] + [] == [c.out];
  }

  /** A table is its rows one after the other; below the first row, and without a header everywhere, they are no header
      rows. */
  lemma {:induction false} TableIsRows(q: Request, caching: bool, st: Store, cache: Cache, rows: seq<seq<string>>,
                                       i: nat)
    requires i < |rows| && RunRows(q, caching, st, cache, rows, i).Ran?
    ensures var a := RunRow(q, rows[0], if q.header then i == 0 else false, caching, st, cache, rows[i], 0);
            a.Ran? && var b := RunRows(q, caching, a.st, a.cache, rows, i + 1);
                      b.Ran? && RunRows(q, caching, st, cache, rows, i)
                                == Ran(b.st, b.cache, [a.out] + b.out, a.n + b.n, a.t + b.t)
  {
    hide RunRow;
  }

  lemma PrefixIsThere(q: Request, j: nat)
    requires ValidRequest(q)
    ensures PrefixOf(q, j) != "" && (j in q.columnPrefixes ==> q.columnPrefixes[j] != "")
  {}

  lemma NoEditAtZero(d: Doc)
    requires AtomsLive(d)
    ensures Changes(d) == 0 ==> Render(d) == Source(d)
  {
    if Changes(d) == 0 {
      NoChangeNoEdit(d);
    }
  }

  lemma MintCellIs(st: Store, fam: string, cell: string)
    ensures MintCell(st, fam, cell).tag.Some? ==> HasForm(st, fam, cell, MintCell(st, fam, cell).tag.value)
  {
    hide MintAt;
    MintHasForm(st, fam, cell, MINT_WIDTHS);
  }

  // ---------- what a cell keeps ----------

  /** A vault value that holds no tag-shaped span is replaced when it is sanitized. */
  lemma ValueIsReplaced(st: Store, v: string, prefix: string)
    requires v in st.values && v != "" && Segment(st.values, v).Last? && SanitizeText(st, v, prefix).Done?
    ensures Changes(SanitizeText(st, v, prefix).doc) > 0
  {
    hide TagValue, Refuses;
    SegmentIs(st.values, v);
    var ps := Scan(st.values, v, 0);
    ScanIs(st.values, v, 0);
    assert v[0..|v|] == v;
    assert Occurs(st.values, v, 0, |v|);
    assert ps != [];
  }

  /** A vault value that stands in a cell of its own holds no tag-shaped span. */
  predicate WholeValue(values: seq<string>, cell: string) {
    cell in values && cell != "" ==> Segment(values, cell).Last?
  }

  /** A cell leaves a later, coherent state under the same rules: no vault value is tagged
      whole. */
  lemma {:induction false} CellKeeps(st: Store, cell: string, p: Plan, typed: bool)
    requires Coherent(st)
    ensures var w := SanitizeCell(st, cell, p, typed);
            Later(st, w.st) && Coherent(w.st)
            && (Tagged(st) && WholeValue(st.values, cell) ==> SameRules(st, w.st))
  {
    hide SanitizeText, MintCell, Segment, Tagged, SameRules;
    RulesStay(st);
    if cell != "" && st.loaded {
      SanitizeIsGood(st, cell, p.prefix);
      if Tagged(st) {
        SanitizeRules(st, cell, p.prefix);
      }
      var w := SanitizeText(st, cell, p.prefix);
      if w.Done? && Changes(w.doc) == 0 && p.missing && !StaysClear(p, typed) {
        var fam := CellFamily(p, typed);
        MintCellKeeps(w.st, fam, cell);
        LaterTransitive(st, w.st, MintCell(w.st, fam, cell).st);
        if Tagged(st) && WholeValue(st.values, cell) {
          if cell in st.values {
            ValueIsReplaced(st, cell, p.prefix);
          }
          MintCellRules(w.st, fam, cell);
          SameRulesTransitive(st, w.st, MintCell(w.st, fam, cell).st);
        }
      }
    }
  }

  lemma MintCellRules(st: Store, fam: string, cell: string)
    requires cell !in st.values
    ensures SameRules(st, MintCell(st, fam, cell).st)
  {
    hide Holds;
    MintAtKeepsCells(st, fam, cell, MINT_WIDTHS);
    MintAtAdds(st, fam, cell, MINT_WIDTHS);
    MintAtKeeps(st, fam, cell, MINT_WIDTHS);
    var m := MintCell(st, fam, cell);
    AddsNoShort(st, m.st, m.tag, cell);
  }

  // ---------- the cache cannot be seen ----------

  lemma {:induction false} CellAlike(a: Store, b: Store, cell: string, p: Plan, typed: bool)
    requires Alike(a, b)
    ensures var w, x := SanitizeCell(a, cell, p, typed), SanitizeCell(b, cell, p, typed);
            Alike(w.st, x.st) && (w.CellDone? <==> x.CellDone?)
            && (w.CellDone? ==> w.out == x.out && w.n == x.n && w.t == x.t)
  {
    hide SanitizeText, Mint;
    if cell != "" && a.loaded {
      SanitizeAlike(a, b, cell, p.prefix);
      MintAlike(SanitizeText(a, cell, p.prefix).st, SanitizeText(b, cell, p.prefix).st, CellFamily(p, typed), cell);
    }
  }

  lemma MintAlike(a: Store, b: Store, fam: string, v: string)
    requires Alike(a, b)
    ensures Mint(a, fam, v).tag == Mint(b, fam, v).tag && Alike(Mint(a, fam, v).st, Mint(b, fam, v).st)
  {
    MintAtAlike(a, b, fam, v, MINT_WIDTHS);
  }

  lemma {:induction false} MintCellAgain(st: Store, fam: string, cell: string, b: Store)
    requires MintCell(st, fam, cell).tag.Some? && Later(MintCell(st, fam, cell).st, b)
    ensures MintCell(b, fam, cell).tag == MintCell(st, fam, cell).tag && Alike(MintCell(b, fam, cell).st, b)
  {
    var m := Mint(st, fam, cell);
    MintAtKeeps(st, fam, cell, MINT_WIDTHS);
    EnteredKeeps(m.st, m.tag.value, cell);
    assert cell in MintCell(st, fam, cell).st.extra;
    LaterTransitive(m.st, Entered(m.st, m.tag.value, cell), MintCell(st, fam, cell).st);
    LaterTransitive(m.st, MintCell(st, fam, cell).st, b);
    MintAtAgain(st, fam, cell, MINT_WIDTHS, b);
    EnteredTwice(Mint(b, fam, cell).st, m.tag.value, cell);
  }

  /** None of the cell's tag-shaped spans has become a tag of the store. */
  predicate SpansStay(values: seq<string>, cell: string, known: map<string, string>, later: map<string, string>) {
    cell != "" ==> SameKnown(Segment(values, cell), known, later)
  }

  /** The last check blanks the same families in both states. */
  ghost predicate SameFams(a: Store, b: Store) { CheckFams(a) == CheckFams(b) }

  lemma SameFamsBetween(a: Store, e: Store, b: Store, z: Store)
    requires Later(a, e) && Later(e, b) && Later(b, z) && SameFams(a, z)
    requires Coherent(a) && Coherent(e) && Coherent(b) && Coherent(z)
    ensures SameFams(e, b)
  {
    hide Families;
  }

  /** The text that the last check saw when the cell was worked out: the cell itself when it was
      tagged whole, since that comes after the check. */
  function CheckedText(cell: string, out: string, t: nat): string { if t > 0 then cell else out }

  lemma {:induction false} CheckedTextIs(st: Store, cell: string, p: Plan, typed: bool)
    requires Coherent(st) && cell != "" && SanitizeCell(st, cell, p, typed).CellDone?
    ensures var w := SanitizeCell(st, cell, p, typed);
            SanitizeText(st, cell, p.prefix).Done?
            && CheckedText(cell, w.out, w.t) == Render(SanitizeText(st, cell, p.prefix).doc)
  {
    hide SanitizeText, MintCell, StaysClear, Coherent;
    SanitizeIsGood(st, cell, p.prefix);
    var w := SanitizeText(st, cell, p.prefix);
    if Changes(w.doc) == 0 {
      NoChangeNoEdit(w.doc);
    }
  }

  /** A cell worked out once is worked out to the same again, exactly unless the last check now
      refuses what it saw then; a family that it did not know then can make it do so. */
  lemma {:induction false} CellAgain(st: Store, cell: string, p: Plan, typed: bool, b: Store)
    requires Coherent(st) && Tagged(st) && Coherent(b) && SanitizeCell(st, cell, p, typed).CellDone?
    requires After(st, b) && Later(SanitizeCell(st, cell, p, typed).st, b)
    requires SpansStay(st.values, cell, st.tags, b.tags)
    ensures var w, x := SanitizeCell(st, cell, p, typed), SanitizeCell(b, cell, p, typed);
            Alike(x.st, b) && (x.CellDone? ==> x.out == w.out && x.n == w.n && x.t == w.t)
            && (x.CellDone? <==> cell == "" || !Refuses(b, CheckedText(cell, w.out, w.t)))
            && (SameFams(st, b) ==> x.CellDone?)
  {
    hide SanitizeText, MintCell, Segment, SameKnown, Tagged, SameRules, SameFams, Coherent, Refuses, Render;
    hide CheckedText, StaysClear, CellFamily;
    if cell != "" {
      var w := SanitizeText(st, cell, p.prefix);
      SanitizeIsGood(st, cell, p.prefix);
      SanitizeIsGood(b, cell, p.prefix);
      CheckedTextIs(st, cell, p, typed);
      var fam := CellFamily(p, typed);
      var x := SanitizeText(b, cell, p.prefix);
      if Changes(w.doc) > 0 || !p.missing || |cell| < SENSITIVE_CELL_MIN || StaysClear(p, typed) {
        TextAgain(st, cell, p.prefix, b);
      } else {
        var m := MintCell(w.st, fam, cell);
        MintCellKeeps(w.st, fam, cell);
        LaterTransitive(w.st, m.st, b);
        TextAgain(st, cell, p.prefix, b);
        if x.Done? {
          LaterTransitive(m.st, b, x.st);
          MintCellAgain(w.st, fam, cell, x.st);
        }
      }
    }
  }

  lemma TextAgain(st: Store, s: string, prefix: string, b: Store)
    requires Coherent(st) && Tagged(st) && Coherent(b) && SanitizeText(st, s, prefix).Done?
    requires After(st, b) && Later(SanitizeText(st, s, prefix).st, b)
    requires SameKnown(Segment(st.values, s), st.tags, b.tags)
    ensures AgainChecked(SanitizeText(st, s, prefix), SanitizeText(b, s, prefix), b)
    ensures SameFams(st, b) ==> SanitizeText(b, s, prefix).Done?
  {
    hide SanitizeText, Segment, SameKnown, Tagged, After, Coherent, Refuses, Later;
    SanitizeIsGood(st, s, prefix);
    SanitizeAgain(st, s, prefix, b);
    var w := SanitizeText(st, s, prefix);
    if SameFams(st, b) {
      assert Later(b, b) by { LaterSelf(b); }
      SameFamsBetween(st, w.st, b, b);
    }
  }

  lemma LaterSelf(st: Store)
    ensures Later(st, st)
  {}

  /** Of the first `n` columns of the table, those with the same key are given the same family
      (`KeyMissesOwnPrefix` says when they are). */
  predicate KeysTell(q: Request, first: seq<string>, n: nat) {
    forall i, j | 0 <= i < n && 0 <= j < n && SameKey(PlanOf(q, first, i), PlanOf(q, first, j)) ::
      CellFamily(PlanOf(q, first, i), q.typed) == CellFamily(PlanOf(q, first, j), q.typed)
  }

  predicate SameKey(p: Plan, o: Plan) { KeyOf(p, "") == KeyOf(o, "") }

  /** Then the key tells how a cell is treated. */
  lemma SameTreatment(st: Store, cell: string, p: Plan, o: Plan, typed: bool)
    requires SameKey(p, o) && CellFamily(p, typed) == CellFamily(o, typed)
    ensures SanitizeCell(st, cell, p, typed) == SanitizeCell(st, cell, o, typed)
  {
    hide SanitizeText, MintCell, HeaderFamily;
  }

  /** Two columns with the same key in typed mode get the same family exactly when both or
      neither have a prefix of their own, unless the column's name spells the prefix. */
  lemma KeyMissesOwnPrefix(q: Request, first: seq<string>, i: nat, j: nat, cell: string)
    requires ValidRequest(q) && q.typed && PlanOf(q, first, i).header != ""
    requires KeyOf(PlanOf(q, first, i), cell) == KeyOf(PlanOf(q, first, j), cell)
    ensures CellFamily(PlanOf(q, first, i), true) == CellFamily(PlanOf(q, first, j), true)
        <==> (i in q.columnPrefixes <==> j in q.columnPrefixes)
             || HeaderFamily(PlanOf(q, first, i).header) == q.prefix
  {
    hide HeaderFamily, NormHeader;
    assert i in q.columnPrefixes ==> q.columnPrefixes[i] != "";
    assert j in q.columnPrefixes ==> q.columnPrefixes[j] != "";
  }

  /** Where a cache entry comes from: the state in which the cell was worked out, and the
      column it stood in. */
  datatype Origin = Origin(st: Store, column: nat)

  /** The entry was worked out in that state, after which the run came to `a`. */
  ghost predicate Settled(q: Request, first: seq<string>, e: Origin, a: Store, k: Key, hit: Hit) {
    var p := PlanOf(q, first, e.column);
    KeyOf(p, k.cell) == k && Coherent(e.st) && Tagged(e.st) && After(e.st, a)
    && (var w := SanitizeCell(e.st, k.cell, p, q.typed);
        w.CellDone? && hit == Hit(w.out, w.n, w.t) && Later(w.st, a))
  }

  lemma SettledLater(q: Request, first: seq<string>, e: Origin, a: Store, b: Store, k: Key, hit: Hit)
    requires Settled(q, first, e, a, k, hit) && Later(a, b) && SameRules(a, b)
    ensures Settled(q, first, e, b, k, hit)
  {
    hide SanitizeCell, PlanOf, Coherent, Tagged, SameRules;
    LaterTransitive(e.st, a, b);
    SameRulesTransitive(e.st, a, b);
    LaterTransitive(SanitizeCell(e.st, k.cell, PlanOf(q, first, e.column), q.typed).st, a, b);
  }

  /** What the runs are of: a request, the header row, and how many columns there are. */
  datatype Sheet = Sheet(q: Request, first: seq<string>, n: nat)

  ghost predicate GoodSheet(h: Sheet) { ValidRequest(h.q) && KeysTell(h.q, h.first, h.n) }

  /** `a` is reached with the cache, `b` without; every entry is settled, since a state that
      comes after the first one and in a column of the table. */
  ghost predicate Tracked(h: Sheet, st0: Store, a: Store, b: Store, cache: Cache, from: map<Key, Origin>) {
    Alike(a, b) && Coherent(a) && Coherent(b) && Tagged(a) && After(st0, a)
    && forall k | k in cache ::
      k in from && from[k].column < h.n && Later(st0, from[k].st) && Settled(h.q, h.first, from[k], a, k, cache[k])
  }

  lemma TrackedLater(h: Sheet, st0: Store, a: Store, b: Store, cache: Cache, from: map<Key, Origin>, c: Store,
                     d: Store)
    requires Tracked(h, st0, a, b, cache, from)
    requires Later(a, c) && SameRules(a, c) && Alike(c, d) && Coherent(c) && Coherent(d)
    ensures Tracked(h, st0, c, d, cache, from)
  {
    hide Settled, Coherent, Tagged, SameRules;
    TaggedLater(a, c);
    LaterTransitive(st0, a, c);
    SameRulesTransitive(st0, a, c);
    forall k | k in cache ensures Settled(h.q, h.first, from[k], c, k, cache[k]) {
      SettledLater(h.q, h.first, from[k], a, c, k, cache[k]);
    }
  }

  lemma {:induction false} SameKnownBetween(c: Cuts, a: map<string, string>, e: map<string, string>,
                                            b: map<string, string>, z: map<string, string>)
    requires SameKnown(c, a, z)
    requires forall k | k in a :: k in e
    requires forall k | k in e :: k in b
    requires forall k | k in b :: k in z
    ensures SameKnown(c, e, b)
    decreases c
  {
    if c.Cut? {
      SameKnownBetween(c.rest, a, e, b, z);
    }
  }

  // ---------- what the cache passes over ----------

  /** What is taken from the cache would pass the last check as the store now is. */
  predicate CellPasses(p: Plan, head: bool, st: Store, cache: Cache, cell: string) {
    var k := KeyOf(p, cell);
    head || cell == "" || k !in cache || !Refuses(st, CheckedText(cell, cache[k].out, cache[k].t))
  }

  /** Along the run with the cache, every cell that is taken from it would. */
  predicate RowPasses(q: Request, first: seq<string>, head: bool, st: Store, cache: Cache, row: seq<string>, j: nat)
    requires j <= |row|
    decreases |row| - j
  {
    j == |row| || (
      var r := RunCell(q, PlanOf(q, first, j), head, true, st, cache, row[j]);
      CellPasses(PlanOf(q, first, j), head, st, cache, row[j])
      && (r.Ran? ==> RowPasses(q, first, head, r.st, r.cache, row, j + 1)))
  }

  predicate RowsPass(q: Request, st: Store, cache: Cache, rows: seq<seq<string>>, i: nat)
    requires i <= |rows|
    decreases |rows| - i
  {
    i == |rows| || (
      var head := q.header && i == 0;
      var r := RunRow(q, rows[0], head, true, st, cache, rows[i], 0);
      RowPasses(q, rows[0], head, st, cache, rows[i], 0) && (r.Ran? ==> RowsPass(q, r.st, r.cache, rows, i + 1)))
  }

  // ---------- cell by cell ----------

  lemma {:induction false} FreshCell(h: Sheet, j: nat, st0: Store, a: Store, b: Store, cache: Cache,
                                     from: map<Key, Origin>, cell: string)
    requires GoodSheet(h) && j < h.n && Tracked(h, st0, a, b, cache, from) && WholeValue(st0.values, cell)
    ensures var p := PlanOf(h.q, h.first, j);
            var w, x := SanitizeCell(a, cell, p, h.q.typed), SanitizeCell(b, cell, p, h.q.typed);
            (x.CellDone? <==> w.CellDone?)
            && (w.CellDone? ==>
                  x.out == w.out && x.n == w.n && x.t == w.t
                  && Tracked(h, st0, w.st, x.st, cache[KeyOf(p, cell) := Hit(w.out, w.n, w.t)],
                             from[KeyOf(p, cell) := Origin(a, j)]))
  {
    hide SanitizeCell, PlanOf, WholeValue, Coherent, Tagged, SameRules, GoodSheet;
    var p := PlanOf(h.q, h.first, j);
    CellKeeps(a, cell, p, h.q.typed);
    CellKeeps(b, cell, p, h.q.typed);
    CellAlike(a, b, cell, p, h.q.typed);
    var w, x := SanitizeCell(a, cell, p, h.q.typed), SanitizeCell(b, cell, p, h.q.typed);
    RulesStay(a);
    TrackedLater(h, st0, a, b, cache, from, w.st, x.st);
  }

  /** What the cache holds is what working out the cell now would give, exactly unless the last
      check refuses it now. */
  lemma {:induction false} HitIsRight(h: Sheet, st0: Store, e: Origin, a: Store, k: Key, hit: Hit, z: Store)
    requires Settled(h.q, h.first, e, a, k, hit) && Later(st0, e.st) && Later(a, z)
    requires Coherent(st0) && Coherent(a) && Coherent(z)
    requires SpansStay(st0.values, k.cell, st0.tags, z.tags)
    ensures var w := SanitizeCell(a, k.cell, PlanOf(h.q, h.first, e.column), h.q.typed);
            Alike(w.st, a) && (w.CellDone? ==> hit == Hit(w.out, w.n, w.t)) && (SameFams(st0, z) ==> w.CellDone?)
            && (w.CellDone? <==> k.cell == "" || !Refuses(a, CheckedText(k.cell, hit.out, hit.t)))
  {
    hide SanitizeCell, Segment, SameKnown, PlanOf, Coherent, Tagged, SameRules, SameFams, Refuses, CheckedText;
    if k.cell != "" {
      SameKnownBetween(Segment(st0.values, k.cell), st0.tags, e.st.tags, a.tags, z.tags);
    }
    if SameFams(st0, z) {
      SameFamsBetween(st0, e.st, a, z);
    }
    CellAgain(e.st, k.cell, PlanOf(h.q, h.first, e.column), h.q.typed, a);
  }

  /** The treatment of the column at hand is that of the column the entry comes from. */
  lemma OriginTells(h: Sheet, e: Origin, j: nat, cell: string, st: Store)
    requires GoodSheet(h) && j < h.n && e.column < h.n
    requires KeyOf(PlanOf(h.q, h.first, e.column), cell) == KeyOf(PlanOf(h.q, h.first, j), cell)
    ensures SanitizeCell(st, cell, PlanOf(h.q, h.first, e.column), h.q.typed)
         == SanitizeCell(st, cell, PlanOf(h.q, h.first, j), h.q.typed)
  {
    hide SanitizeCell, PlanOf, CellFamily, ValidRequest;
    var p, o := PlanOf(h.q, h.first, e.column), PlanOf(h.q, h.first, j);
    assert SameKey(p, o);
    SameTreatment(st, cell, p, o, h.q.typed);
  }

  lemma {:induction false} HitCell(h: Sheet, j: nat, st0: Store, a: Store, b: Store, cache: Cache,
                                   from: map<Key, Origin>, cell: string, z: Store)
    requires GoodSheet(h) && j < h.n && Tracked(h, st0, a, b, cache, from) && Later(a, z)
    requires Coherent(st0) && Coherent(z) && cell != ""
    requires SpansStay(st0.values, cell, st0.tags, z.tags) && KeyOf(PlanOf(h.q, h.first, j), cell) in cache
    requires WholeValue(st0.values, cell)
    ensures var p := PlanOf(h.q, h.first, j);
            var hit, x := cache[KeyOf(p, cell)], SanitizeCell(b, cell, p, h.q.typed);
            (x.CellDone? <==> CellPasses(p, false, a, cache, cell)) && (SameFams(st0, z) ==> x.CellDone?)
            && (x.CellDone? ==> x.out == hit.out && x.n == hit.n && x.t == hit.t
                                && Tracked(h, st0, a, x.st, cache, from))
  {
    hide SanitizeCell, PlanOf, WholeValue, SpansStay, GoodSheet, CheckedText;
    hide Coherent, Tagged, SameRules, SameFams, Refuses;
    var p := PlanOf(h.q, h.first, j);
    var k := KeyOf(p, cell);
    HitIsRight(h, st0, from[k], a, k, cache[k], z);
    OriginTells(h, from[k], j, cell, a);
    hide Settled;
    CellAlike(a, b, cell, p, h.q.typed);
    CellKeeps(b, cell, p, h.q.typed);
    RulesStay(a);
    TrackedLater(h, st0, a, b, cache, from, a, SanitizeCell(b, cell, p, h.q.typed).st);
  }

  lemma {:induction false} EveryCell(h: Sheet, head: bool, j: nat, st0: Store, a: Store, b: Store, cache: Cache,
                                     other: Cache, from: map<Key, Origin>, cell: string, z: Store)
    returns (from1: map<Key, Origin>)
    requires GoodSheet(h) && j < h.n && Tracked(h, st0, a, b, cache, from) && WholeValue(st0.values, cell)
    requires Later(RunCell(h.q, PlanOf(h.q, h.first, j), head, true, a, cache, cell).st, z)
    requires SpansStay(st0.values, cell, st0.tags, z.tags) && Coherent(st0) && Coherent(z)
    ensures var p := PlanOf(h.q, h.first, j);
            var r, u := RunCell(h.q, p, head, true, a, cache, cell), RunCell(h.q, p, head, false, b, other, cell);
            SameRun(r, u, CellPasses(p, head, a, cache, cell), SameFams(st0, z))
            && (u.Ran? ==> Tracked(h, st0, r.st, u.st, r.cache, from1))
  {
    hide SanitizeCell, WholeValue, Segment, SpansStay, Tracked, Coherent, SameFams, Tagged, SameRules;
    hide Refuses, CheckedText, GoodSheet, Alike;
    from1 := from;
    var q, p := h.q, PlanOf(h.q, h.first, j);
    TrackedParts(h, st0, a, b, cache, from);
    if cell != "" {
      if head {
        CellKeeps(a, cell, HEAD, false);
        CellKeeps(b, cell, HEAD, false);
        CellAlike(a, b, cell, HEAD, false);
        TrackedLater(h, st0, a, b, cache, from, SanitizeCell(a, cell, HEAD, false).st,
                     SanitizeCell(b, cell, HEAD, false).st);
      } else if KeyOf(p, cell) in cache {
        HitCell(h, j, st0, a, b, cache, from, cell, z);
        TrackedParts(h, st0, a, SanitizeCell(b, cell, p, q.typed).st, cache, from);
      } else {
        FreshCell(h, j, st0, a, b, cache, from, cell);
        CellAlike(a, b, cell, p, q.typed);
        from1 := from[KeyOf(p, cell) := Origin(a, j)];
      }
    }
  }

  /** The run without the cache gets through exactly when the one with it does and `passes`
      holds, and then it is the same but for the caches; `calm` is enough for `passes`. */
  ghost predicate SameRun<T>(r: Run<T>, u: Run<T>, passes: bool, calm: bool) {
    (u.Ran? <==> r.Ran? && passes) && (calm ==> passes)
    && (u.Ran? ==> u.out == r.out && u.n == r.n && u.t == r.t && Alike(r.st, u.st))
  }

  lemma TrackedParts(h: Sheet, st0: Store, a: Store, b: Store, cache: Cache, from: map<Key, Origin>)
    ensures Tracked(h, st0, a, b, cache, from) ==>
              Alike(a, b) && Coherent(a) && Coherent(b) && Tagged(a) && Tagged(b) && a.values == st0.values
              && Later(a, a) && SameRules(a, a)
  {
    hide Settled;
    RulesStay(a);
    if Alike(a, b) {
      forall v, n: Width ensures Core(a, v, n) == Core(b, v, n) {}
    }
  }

  /** The run goes on: every state comes later. */
  lemma {:induction false} RunCellLater(q: Request, p: Plan, head: bool, caching: bool, st: Store, cache: Cache,
                                        cell: string)
    requires Coherent(st)
    ensures var r := RunCell(q, p, head, caching, st, cache, cell); Later(st, r.st) && Coherent(r.st)
  {
    hide SanitizeCell, Coherent, PlanOf;
    LaterSelf(st);
    hide Later;
    CellKeeps(st, cell, HEAD, false);
    CellKeeps(st, cell, p, q.typed);
  }

  lemma {:induction false} RunRowLater(q: Request, first: seq<string>, head: bool, caching: bool, st: Store,
                                       cache: Cache, row: seq<string>, j: nat)
    requires Coherent(st) && j <= |row|
    ensures var r := RunRow(q, first, head, caching, st, cache, row, j); Later(st, r.st) && Coherent(r.st)
    decreases |row| - j
  {
    hide RunCell, PlanOf, Coherent;
    if j < |row| {
      RunCellLater(q, PlanOf(q, first, j), head, caching, st, cache, row[j]);
      var r := RunCell(q, PlanOf(q, first, j), head, caching, st, cache, row[j]);
      if r.Ran? {
        RunRowLater(q, first, head, caching, r.st, r.cache, row, j + 1);
        LaterTransitive(st, r.st, RunRow(q, first, head, caching, r.st, r.cache, row, j + 1).st);
      }
    }
  }

  lemma {:induction false} RunRowsLater(q: Request, caching: bool, st: Store, cache: Cache, rows: seq<seq<string>>,
                                        i: nat)
    requires Coherent(st) && i <= |rows|
    ensures var r := RunRows(q, caching, st, cache, rows, i); Later(st, r.st) && Coherent(r.st)
    decreases |rows| - i
  {
    hide RunRow, Coherent;
    if i < |rows| {
      var head := q.header && i == 0;
      RunRowLater(q, rows[0], head, caching, st, cache, rows[i], 0);
      var r := RunRow(q, rows[0], head, caching, st, cache, rows[i], 0);
      if r.Ran? {
        RunRowsLater(q, caching, r.st, r.cache, rows, i + 1);
        LaterTransitive(st, r.st, RunRows(q, caching, r.st, r.cache, rows, i + 1).st);
      }
    }
  }

  /** What the cache needs of the cells: vault values among them hold no tag-shaped span,
      and no tag-shaped span of theirs becomes a tag of the store during the batch. */
  predicate CellsStay(cells: seq<string>, st0: Store, z: Store) {
    forall j | 0 <= j < |cells| ::
      WholeValue(st0.values, cells[j]) && SpansStay(st0.values, cells[j], st0.tags, z.tags)
  }

  predicate RowsStay(rows: seq<seq<string>>, st0: Store, z: Store) {
    forall i | 0 <= i < |rows| :: CellsStay(rows[i], st0, z)
  }

  lemma {:induction false} EveryRow(h: Sheet, head: bool, st0: Store, a: Store, b: Store, cache: Cache,
                                    other: Cache, from: map<Key, Origin>, row: seq<string>, j: nat, z: Store)
    returns (from1: map<Key, Origin>)
    requires j <= |row| <= h.n && GoodSheet(h) && Tracked(h, st0, a, b, cache, from)
    requires Later(RunRow(h.q, h.first, head, true, a, cache, row, j).st, z)
    requires CellsStay(row, st0, z) && Coherent(st0) && Coherent(z)
    ensures var r := RunRow(h.q, h.first, head, true, a, cache, row, j);
            var u := RunRow(h.q, h.first, head, false, b, other, row, j);
            SameRun(r, u, RowPasses(h.q, h.first, head, a, cache, row, j), SameFams(st0, z))
            && (u.Ran? ==> Tracked(h, st0, r.st, u.st, r.cache, from1))
    decreases |row| - j
  {
    hide RunCell, PlanOf, Tracked, WholeValue, SpansStay, Coherent, GoodSheet, SameFams, Alike, CellPasses;
    from1 := from;
    TrackedParts(h, st0, a, b, cache, from);
    if j < |row| {
      var p := PlanOf(h.q, h.first, j);
      var r := RunCell(h.q, p, head, true, a, cache, row[j]);
      var u := RunCell(h.q, p, head, false, b, other, row[j]);
      RunCellLater(h.q, p, head, true, a, cache, row[j]);
      if r.Ran? {
        RunRowLater(h.q, h.first, head, true, r.st, r.cache, row, j + 1);
        LaterTransitive(r.st, RunRow(h.q, h.first, head, true, r.st, r.cache, row, j + 1).st, z);
      }
      from1 := EveryCell(h, head, j, st0, a, b, cache, other, from, row[j], z);
      if u.Ran? {
        from1 := EveryRow(h, head, st0, r.st, u.st, r.cache, u.cache, from1, row, j + 1, z);
      }
    }
  }

  lemma RowAndRows(q: Request, head: bool, a: Store, b: Store, cache: Cache, other: Cache, rows: seq<seq<string>>,
                   i: nat, calm: bool)
    requires i < |rows| && head == (q.header && i == 0)
    requires var r := RunRow(q, rows[0], head, true, a, cache, rows[i], 0);
             var u := RunRow(q, rows[0], head, false, b, other, rows[i], 0);
             SameRun(r, u, RowPasses(q, rows[0], head, a, cache, rows[i], 0), calm)
             && (u.Ran? ==> SameRun(RunRows(q, true, r.st, r.cache, rows, i + 1),
                                    RunRows(q, false, u.st, u.cache, rows, i + 1),
                                    RowsPass(q, r.st, r.cache, rows, i + 1), calm))
    ensures SameRun(RunRows(q, true, a, cache, rows, i), RunRows(q, false, b, other, rows, i),
                    RowsPass(q, a, cache, rows, i), calm)
  {
    hide RunRow, Alike, RowPasses;
  }

  lemma RowThenRows(q: Request, head: bool, caching: bool, a: Store, cache: Cache, rows: seq<seq<string>>, i: nat)
    requires i < |rows| && head == (q.header && i == 0)
    ensures var r := RunRow(q, rows[0], head, caching, a, cache, rows[i], 0);
            RunRows(q, caching, a, cache, rows, i).st ==
              if r.Ran? then RunRows(q, caching, r.st, r.cache, rows, i + 1).st else r.st
  {
    hide RunRow;
  }

  lemma {:induction false} AllRows(h: Sheet, st0: Store, a: Store, b: Store, cache: Cache, other: Cache,
                                   from: map<Key, Origin>, rows: seq<seq<string>>, i: nat, z: Store)
    requires i <= |rows| && GoodSheet(h) && Tracked(h, st0, a, b, cache, from)
    requires rows != [] ==> h.first == rows[0]
    requires Later(RunRows(h.q, true, a, cache, rows, i).st, z) && Coherent(st0) && Coherent(z)
    requires forall k | 0 <= k < |rows| :: CellsStay(rows[k], st0, z) && |rows[k]| <= h.n
    ensures SameRun(RunRows(h.q, true, a, cache, rows, i), RunRows(h.q, false, b, other, rows, i),
                    RowsPass(h.q, a, cache, rows, i), SameFams(st0, z))
    decreases |rows| - i
  {
    hide RunRow, RowPasses, Tracked, CellsStay, Coherent, GoodSheet, Later, Alike, SameFams;
    TrackedParts(h, st0, a, b, cache, from);
    if i < |rows| {
      hide RunRows, SameRun, RowsPass;
      var head := h.q.header && i == 0;
      RowThenRows(h.q, head, true, a, cache, rows, i);
      var r := RunRow(h.q, rows[0], head, true, a, cache, rows[i], 0);
      var u := RunRow(h.q, rows[0], head, false, b, other, rows[i], 0);
      RunRowLater(h.q, rows[0], head, true, a, cache, rows[i], 0);
      if r.Ran? {
        RunRowsLater(h.q, true, r.st, r.cache, rows, i + 1);
        LaterTransitive(r.st, RunRows(h.q, true, r.st, r.cache, rows, i + 1).st, z);
      }
      var from1 := EveryRow(h, head, st0, a, b, cache, other, from, rows[i], 0, z);
      if u.Ran? {
        AllRows(h, st0, r.st, u.st, r.cache, u.cache, from1, rows, i + 1, z);
      }
      RowAndRows(h.q, head, a, b, cache, other, rows, i, SameFams(st0, z));
    }
  }

  function FirstRow(rows: seq<seq<string>>): seq<string> { if rows == [] then [] else rows[0] }

  /** The cache cannot be seen, but for one thing: working out every cell anew gets through
      exactly when the run with the cache does and every cell that it takes from the cache would
      pass the last check as the store is by then; and then it gives the same rows, the same two
      totals and the same store, but for the core index and the family cache. No cell fails that
      check when the batch brings in no family that is new to the session. */
  lemma {:induction false} CacheIsInvisible(q: Request, st: Store, rows: seq<seq<string>>, n: nat)
    requires Coherent(st) && Tagged(st) && ValidRequest(q)
    requires KeysTell(q, FirstRow(rows), n) && forall i | 0 <= i < |rows| :: |rows[i]| <= n
    requires RowsStay(rows, st, RunRows(q, true, st, map[], rows, 0).st)
    ensures var r, u := RunRows(q, true, st, map[], rows, 0), RunRows(q, false, st, map[], rows, 0);
            (u.Ran? <==> r.Ran? && RowsPass(q, st, map[], rows, 0))
            && (u.Ran? ==> u.out == r.out && u.n == r.n && u.t == r.t && Alike(r.st, u.st))
            && (CheckFams(st) == CheckFams(r.st) ==> RowsPass(q, st, map[], rows, 0))
  {
    hide RunRows, RowsPass, CellsStay, Tagged, ValidRequest, KeysTell;
    var z := RunRows(q, true, st, map[], rows, 0).st;
    RunRowsLater(q, true, st, map[], rows, 0);
    RulesStay(st);
    AllRows(Sheet(q, FirstRow(rows), n), st, st, st, map[], map[], map[], rows, 0, z);
  }
}
