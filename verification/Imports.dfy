/** Import history: ingesting, purging and rolling back values of the vault file. */
module Imports {
  import opened Text
  import opened Restore
  import opened Vault
  import opened Filters
  import opened Order

  datatype Record = Record(id: string, vals: seq<string>)

  /** The vault lines as they are read from the file, and the import registry. */
  datatype History = History(lines: seq<string>, records: seq<Record>)

  // ---------- ingest ----------

  /** The value a vault line already stands for. */
  function KnownOf(line: string): Option<string> {
    var t := Strip(line);
    if t == "" || "#" <= t || "re:" <= t then None
    else if "ing:" <= t && HasEquals(t) then Some(t[4..])
    else if HasEquals(t) && IsEntryName(Name(t)) then Some(Behind(t))
    else Some(t)
  }

  predicate IsKnown(lines: seq<string>, v: string) { exists l :: l in lines && KnownOf(l) == Some(v) }

  /** A cell that the line parser would not take for something else. */
  predicate IngestOk(v: string) {
    !("re:" <= v) && !("#" <= v)
    && (HasEquals(v) ==> !IsEntryName(Name(v)) && !("ing:" <= Name(v)))
  }

  /** `v` is the text of a cell, white space around it removed. */
  predicate IsCell(cells: seq<string>, v: string) { v != "" && exists c :: c in cells && Strip(c) == v }

  /** Stripped, non-empty cells, first occurrences in order. */
  function Seen(cells: seq<string>): (r: seq<string>)
    ensures forall v :: v in r <==> IsCell(cells, v)
    ensures Distinct(r)
    decreases |cells|
  {
    if cells == [] then []
    else
      var n := |cells| - 1;
      var r := Seen(cells[..n]);
      var v := Strip(cells[n]);
      CellSnoc(cells, n);
      if v == "" || v in r then r else r + [v]
  }

  lemma CellSnoc(cells: seq<string>, n: nat)
    requires n == |cells| - 1
    ensures forall u :: IsCell(cells, u) <==> IsCell(cells[..n], u) || (u != "" && u == Strip(cells[n]))
  {
    hide Strip;
    assert cells == cells[..n] + [cells[n]];
  }

  lemma SeenSnoc(cells: seq<string>, c: string)
    ensures Seen(cells + [c])
         == if Strip(c) == "" || Strip(c) in Seen(cells) then Seen(cells) else Seen(cells) + [Strip(c)]
  {
    hide Strip;
    assert (cells + [c])[..|cells|] == cells;
  }

  function News(lines: seq<string>): string -> bool { (v: string) => !IsKnown(lines, v) && IngestOk(v) }

  /** The cells that are new and safe. */
  function NewOf(lines: seq<string>, seen: seq<string>): seq<string> { Filter(News(lines), seen) }

  /** The values an ingest appends: every cell that is new and safe, each once, sorted. */
  function Accepted(lines: seq<string>, cells: seq<string>): (r: seq<string>)
    ensures forall v :: v in r <==> IsCell(cells, v) && !IsKnown(lines, v) && IngestOk(v)
    ensures Distinct(r)
  {
    SortLex(NewOf(lines, Seen(cells)))
  }

  lemma AcceptedAre(lines: seq<string>, cells: seq<string>)
    ensures forall v | v in Accepted(lines, cells) :: v != "" && Stripped(v) && IngestOk(v) && !IsKnown(lines, v)
    ensures AllUnbroken(cells) ==> AllUnbroken(Accepted(lines, cells))
  {
    hide Strip, Stripped, Unbroken, IngestOk, IsKnown, SortLex, NewOf, Seen;
    forall v | v in Accepted(lines, cells) ensures v != "" && Stripped(v) && (AllUnbroken(cells) ==> Unbroken(v)) {
      var c :| c in cells && Strip(c) == v;
      StripIs(c);
      if AllUnbroken(cells) {
        StripUnbroken(c);
      }
    }
  }

  lemma SliceUnbroken(s: string, i: nat, j: nat)
    requires Unbroken(s) && i <= j <= |s|
    ensures Unbroken(s[i..j])
  {}

  lemma StripUnbroken(s: string)
    requires Unbroken(s)
    ensures Unbroken(Strip(s))
  {
    hide Unbroken, StripLeft, StripRight;
    var l := StripLeft(s);
    var r := StripRight(l);
    SliceUnbroken(s, |s| - |l|, |s|);
    SliceUnbroken(l, 0, |r|);
    assert s[|s| - |l|..|s|] == l && l[0..|r|] == r;
  }

  /** New values are written behind the lines, read back, and recorded. */
  function Append(h: History, vals: seq<string>, id: string): History {
    if vals == [] then h else History(Reread(h.lines + vals), h.records + [Record(id, vals)])
  }

  function Ingest(h: History, cells: seq<string>, id: string): History {
    Append(h, Accepted(h.lines, cells), id)
  }

  // ---------- cells of a sanitized table ----------

  /** What is appended for the cells that were tagged whole: the new, safe ones as they stand,
      white space and all, each once, sorted. */
  function Offered(lines: seq<string>, vals: set<string>): (r: seq<string>)
    ensures forall v :: v in r <==> v in vals && v != "" && !IsKnown(lines, v) && IngestOk(v)
    ensures Distinct(r)
  {
    Filter(News(lines), Listing(vals - {""}))
  }

  function Persist(h: History, vals: set<string>, id: string): History { Append(h, Offered(h.lines, vals), id) }

  /** An accepted value is the text of no line that is there. */
  lemma {:induction false} AcceptedIsNoLine(lines: seq<string>, v: string, l: string)
    requires v != "" && Stripped(v) && IngestOk(v) && !IsKnown(lines, v) && l in lines
    ensures Strip(l) != v
  {
    if Strip(l) == v {
      assert KnownOf(l) != Some(v);
      if "ing:" <= v && HasEquals(v) {
        LegacyName(v);
      }
      assert false;
    }
  }

  /** The name part of a legacy line still starts with its marker. */
  lemma LegacyName(v: string)
    requires "ing:" <= v && HasEquals(v)
    ensures "ing:" <= Name(v)
  {
    MarkerBefore(v);
    var w := v[..IndexOf(v, '=')];
    MarkerStays(w);
  }

  lemma MarkerBefore(v: string)
    requires "ing:" <= v && HasEquals(v)
    ensures "ing:" <= v[..IndexOf(v, '=')] && StripLeft(v[..IndexOf(v, '=')]) == v[..IndexOf(v, '=')]
  {
    hide IndexOf, StripLeft;
    var m := "ing:";
    assert forall k | 0 <= k < 4 :: v[k] == m[k] && m[k] != '=';
    var i := IndexOf(v, '=');
    assert i >= 4;
    assert v[..i][..4] == v[..4] && v[..i][0] == 'i' && !IsSpace('i');
    hide IsSpace;
    StaysAsItIs(v[..i]);
  }

  lemma {:induction false} MarkerStays(w: string)
    requires "ing:" <= w
    ensures "ing:" <= StripRight(w)
    decreases |w|
  {
    if IsSpace(w[|w| - 1]) {
      assert w[3] == ':';
      MarkerStays(w[..|w| - 1]);
    }
  }

  /** An accepted value is loaded as exactly that plain secret. */
  lemma {:induction false} AcceptedIsPlain(v: string)
    requires v != "" && Stripped(v) && IngestOk(v)
    ensures Classify(v) == Plain(v)
  {
    StripIs(v);
    if "ing:" <= v && HasEquals(v) {
      LegacyName(v);
    }
    assert v[0] == '#' ==> "#" <= v;
  }

  /** The name in front of an equals sign starts where the line starts. */
  lemma NameStarts(v: string)
    requires v != "" && Stripped(v)
    ensures Name(v) <= v
  {
    hide IndexOf, StripRight;
    var p := v[..IndexOf(v, '=')];
    StaysAsItIs(p);
    assert StripRight(p) <= p;
  }

  /** The filter lets a cell through exactly when the loader would read it as that very secret. */
  lemma {:induction false} AcceptedIff(v: string)
    requires v != "" && Stripped(v)
    ensures IngestOk(v) <==> Classify(v) == Plain(v)
  {
    hide Strip, IsEntryName, Name, Stripped;
    if IngestOk(v) {
      AcceptedIsPlain(v);
    } else {
      StripIs(v);
      NameStarts(v);
      if "ing:" <= v && HasEquals(v) {
        assert |v[4..]| < |v|;
      }
    }
  }

  lemma {:induction false} ParseAppends(lines: seq<string>, vals: seq<string>)
    requires forall v | v in vals :: v != "" && Stripped(v) && IngestOk(v)
    ensures Parse(lines + vals) == Parse(lines).(secrets := Parse(lines).secrets + vals)
    decreases |vals|
  {
    hide Classify, IngestOk;
    if vals == [] {
      assert lines + vals == lines;
      assert Parse(lines).secrets + vals == Parse(lines).secrets;
    } else {
      var n := |vals| - 1;
      assert forall v | v in vals[..n] :: v in vals;
      ParseAppends(lines, vals[..n]);
      assert vals[n] in vals;
      AcceptedIsPlain(vals[n]);
      ParseSnoc(lines + vals[..n], vals[n]);
      AppendLast(lines, vals);
      AppendLast(Parse(lines).secrets, vals);
    }
  }

  lemma AppendLast(lines: seq<string>, vals: seq<string>)
    requires vals != []
    ensures lines + vals[..|vals| - 1] + [vals[|vals| - 1]] == lines + vals
  {}

  lemma {:induction false} ParsedUnbroken(lines: seq<string>)
    requires AllUnbroken(lines)
    ensures AllUnbroken(Parse(lines).secrets)
    decreases |lines|
  {
    hide Classify, Unbroken;
    if lines != [] {
      ParsedUnbroken(lines[..|lines| - 1]);
      SecretUnbroken(lines[|lines| - 1]);
    }
  }

  lemma SecretUnbroken(l: string)
    requires Unbroken(l)
    ensures Classify(l).Plain? ==> Unbroken(Classify(l).secret)
  {
    hide Strip, Unbroken;
    StripUnbroken(l);
    var t := Strip(l);
    if |t| >= 4 {
      SliceUnbroken(t, 4, |t|);
      assert t[4..|t|] == t[4..];
    }
  }

  /** Ingesting leaves patterns and named entries as they were and adds exactly the
      accepted cells, in order, to the plain secrets: exactly when no accepted cell has a
      line break in it. */
  lemma {:induction false} IngestKeepsGrammarIff(h: History, cells: seq<string>, id: string)
    requires AllUnbroken(h.lines)
    ensures var vals := Accepted(h.lines, cells);
            Parse(Ingest(h, cells, id).lines) == Parse(h.lines).(secrets := Parse(h.lines).secrets + vals)
            <==> AllUnbroken(vals)
  {
    var vals := Accepted(h.lines, cells);
    AcceptedAre(h.lines, cells);
    if vals == [] {
      assert Parse(h.lines).secrets + [] == Parse(h.lines).secrets;
    } else if AllUnbroken(vals) {
      RereadIs(h.lines + vals);
      ParseAppends(h.lines, vals);
    } else {
      var v :| v in vals && !Unbroken(v);
      var after := Ingest(h, cells, id).lines;
      SplitLinesUnbroken(FileOf(h.lines + vals));
      ParsedUnbroken(after);
      assert v in Parse(h.lines).secrets + vals;
    }
  }

  // ---------- rollback ----------

  predicate InRecords(records: seq<Record>, v: string) { exists r :: r in records && v in r.vals }

  /** A line that the rollback of `rec` takes out. */
  predicate Dropped(rec: Record, earlier: seq<Record>, line: string) {
    var t := Strip(line);
    t != "" && !("#" <= t) && !("re:" <= t) && t in rec.vals && !InRecords(earlier, t)
  }

  function Stays(rec: Record, earlier: seq<Record>): string -> bool { (l: string) => !Dropped(rec, earlier, l) }

  /** The lines that the rollback of `rec` keeps. */
  function KeptBy(rec: Record, earlier: seq<Record>, lines: seq<string>): seq<string> {
    Filter(Stays(rec, earlier), lines)
  }

  function RecordAt(records: seq<Record>, id: string): (i: nat)
    ensures i <= |records| && (i < |records| ==> records[i].id == id)
    decreases |records|
  {
    if records == [] || records[0].id == id then 0 else 1 + RecordAt(records[1..], id)
  }

  /** None when there is no such record. Without a removed line the file is not written. */
  function Rollback(h: History, id: string): Option<History> {
    var i := RecordAt(h.records, id);
    if i == |h.records| then None
    else
      var kept := KeptBy(h.records[i], h.records[..i], h.lines);
      Some(History(if kept == h.lines then h.lines else Reread(kept), h.records[..i] + h.records[i + 1..]))
  }

  // ---------- purge ----------

  predicate IsProtectedText(t: string) { "re:" <= t || IsEntryName(Name(t)) }

  predicate HasText(lines: seq<string>, t: string) { exists l :: l in lines && Strip(l) == t }

  /** Whole-cell matches with lines that are neither comments, patterns nor named entries. */
  predicate Purgeable(lines: seq<string>, t: string) {
    t != "" && !("#" <= t) && !IsProtectedText(t) && HasText(lines, t)
  }

  predicate HitsProtected(lines: seq<string>, t: string) {
    t != "" && !("#" <= t) && IsProtectedText(t) && HasText(lines, t)
  }

  function Spares(gone: seq<string>): string -> bool { (l: string) => Strip(l) !in gone }

  function Without(lines: seq<string>, gone: seq<string>): seq<string> { Filter(Spares(gone), lines) }

  function CanGo(lines: seq<string>): string -> bool { (v: string) => Purgeable(lines, v) }

  function PurgeHits(lines: seq<string>, seen: seq<string>): seq<string> { Filter(CanGo(lines), seen) }

  /** None when a cell names a protected line: the whole request is refused. */
  function Purge(h: History, cells: seq<string>): Option<History> {
    var seen := Seen(cells);
    if exists v :: v in seen && HitsProtected(h.lines, v) then None
    else
      var gone := PurgeHits(h.lines, seen);
      if gone == [] then Some(h) else Some(h.(lines := Reread(Without(h.lines, gone))))
  }

  /** The cell names the line, which is neither empty nor a comment. */
  predicate Names(c: string, l: string) { Strip(c) == Strip(l) && Strip(l) != "" && !("#" <= Strip(l)) }

  ghost predicate NamedBy(cells: seq<string>, l: string) { exists c :: c in cells && Names(c, l) }

  ghost function NotNamed(cells: seq<string>, lines: seq<string>): (r: seq<string>) {
    Filter(SparesAll(cells, lines), lines)
  }

  ghost function SparesAll(cells: seq<string>, lines: seq<string>): string -> bool {
    var gone := set l | l in lines && NamedBy(cells, l);
    (l: string) => l !in gone
  }

  /** A purge is refused exactly when some cell names a protected line; else exactly the lines that a cell names go, the
      others stay in order, and no record changes. */
  lemma {:induction false} PurgeIs(h: History, cells: seq<string>)
    ensures Purge(h, cells).None? <==> exists l :: l in h.lines && NamedBy(cells, l) && IsProtectedText(Strip(l))
    ensures Purge(h, cells).Some? ==>
              var kept := NotNamed(cells, h.lines);
              Purge(h, cells).value == h.(lines := if kept == h.lines then kept else Reread(kept))
  {
    hide Strip, IsProtectedText, Reread, Filter;
    var seen := Seen(cells);
    forall l | l in h.lines ensures NamedBy(cells, l) <==> Strip(l) in seen && !("#" <= Strip(l)) {
      CellNames(cells, l);
    }
    if exists v :: v in seen && HitsProtected(h.lines, v) {
      var v :| v in seen && HitsProtected(h.lines, v);
      var l :| l in h.lines && Strip(l) == v;
      assert NamedBy(cells, l);
    } else {
      forall l | l in h.lines && NamedBy(cells, l) ensures !IsProtectedText(Strip(l)) {
        assert !HitsProtected(h.lines, Strip(l));
      }
      PurgeTakes(h.lines, cells);
    }
  }

  lemma CellNames(cells: seq<string>, l: string)
    ensures NamedBy(cells, l) <==> Strip(l) in Seen(cells) && !("#" <= Strip(l))
  {
    hide Strip, Seen;
    if NamedBy(cells, l) {
      var c :| c in cells && Names(c, l);
      assert IsCell(cells, Strip(l));
    }
    if Strip(l) in Seen(cells) && !("#" <= Strip(l)) {
      var c :| c in cells && Strip(c) == Strip(l);
      assert Names(c, l);
    }
  }

  lemma {:induction false} PurgeTakes(lines: seq<string>, cells: seq<string>)
    requires forall l | l in lines && NamedBy(cells, l) :: !IsProtectedText(Strip(l))
    ensures var gone := PurgeHits(lines, Seen(cells));
            Without(lines, gone) == NotNamed(cells, lines) && (gone == [] <==> NotNamed(cells, lines) == lines)
  {
    hide Strip, IsProtectedText, Seen, NamedBy;
    var gone := PurgeHits(lines, Seen(cells));
    forall l | l in lines ensures Strip(l) in gone <==> NamedBy(cells, l) {
      CellNames(cells, l);
    }
    FilterSame(Spares(gone), SparesAll(cells, lines), lines);
    if gone != [] {
      var v := gone[0];
      assert v in gone && HasText(lines, v);
      var l :| l in lines && Strip(l) == v;
      assert l !in NotNamed(cells, lines);
    } else {
      FilterAll(SparesAll(cells, lines), lines);
    }
  }

  // ---------- histories ----------

  datatype Op =
    | OpIngest(cells: seq<string>, id: string)
    | OpPersist(vals: set<string>, id: string)
    | OpPurge(cells: seq<string>)
    | OpRollback(id: string)

  /** A refused request changes nothing. */
  function Step(h: History, op: Op): History {
    match op
    case OpIngest(cells, id) => Ingest(h, cells, id)
    case OpPersist(vals, id) => Persist(h, vals, id)
    case OpPurge(cells) => (match Purge(h, cells) case Some(g) => g case None => h)
    case OpRollback(id) => (match Rollback(h, id) case Some(g) => g case None => h)
  }

  function Run(h: History, ops: seq<Op>): History
    decreases |ops|
  {
    if ops == [] then h else Run(Step(h, ops[0]), ops[1..])
  }

  /** Ingested cells come from a text that was split into lines first, and the cells of a table
      that are persisted have no line break in them either. */
  predicate OneLine(op: Op) {
    match op
    case OpIngest(cells, _) => AllUnbroken(cells)
    case OpPersist(vals, _) => forall v | v in vals :: Unbroken(v)
    case OpPurge(_) => true
    case OpRollback(_) => true
  }

  /** Persisted cells are as safe without the white space at their ends as with it. */
  predicate Fits(op: Op) {
    OneLine(op) && (op.OpPersist? ==> forall v | v in op.vals :: IngestOk(v) ==> IngestOk(Strip(v)))
  }

  /** Persisted cells have no white space at their ends. */
  predicate Trim(op: Op) { op.OpPersist? ==> forall v | v in op.vals :: Stripped(v) }

  /** The values of all records, record after record. */
  function Flat(records: seq<Record>): seq<string>
    decreases |records|
  {
    if records == [] then [] else Flat(records[..|records| - 1]) + records[|records| - 1].vals
  }

  lemma {:induction false} FlatJoins(a: seq<Record>, b: seq<Record>)
    ensures Flat(a + b) == Flat(a) + Flat(b)
    decreases |b|
  {
    if b == [] {
      assert a + b == a;
    } else {
      var n := |b| - 1;
      FlatJoins(a, b[..n]);
      assert (a + b)[..|a + b| - 1] == a + b[..n];
      assert Flat(a) + Flat(b[..n]) + b[n].vals == Flat(a) + (Flat(b[..n]) + b[n].vals);
    }
  }

  lemma {:induction false} FlatHas(records: seq<Record>, v: string)
    ensures v in Flat(records) <==> InRecords(records, v)
    decreases |records|
  {
    if records != [] {
      var n := |records| - 1;
      FlatHas(records[..n], v);
      assert records == records[..n] + [records[n]];
    }
  }

  /** A recorded value is one an ingest accepts, written on one line. */
  predicate GoodValue(v: string) { v != "" && Stripped(v) && IngestOk(v) && Unbroken(v) }

  /** The file is the initial lines and then the recorded values, record after record; no
      value is recorded twice or stands in the initial lines. */
  ghost predicate InStep(lines0: seq<string>, h: History) {
    lines0 != [] && AllUnbroken(lines0) && h.lines == lines0 + Flat(h.records)
    && Distinct(Flat(h.records))
    && (forall v | v in Flat(h.records) :: GoodValue(v))
    && (forall v, l | v in Flat(h.records) && l in lines0 :: Strip(l) != v)
  }

  lemma InStepUnbroken(lines0: seq<string>, h: History)
    requires InStep(lines0, h)
    ensures AllUnbroken(h.lines) && h.lines != []
  {}

  lemma DistinctSum(a: seq<string>, b: seq<string>)
    requires Distinct(a) && Distinct(b) && forall v | v in a :: v !in b
    ensures Distinct(a + b)
  {
    var s := a + b;
    forall i, j | 0 <= i < j < |s| ensures s[i] != s[j] {
      if j < |a| {
        assert a[i] != a[j];
      } else if i >= |a| {
        assert b[i - |a|] != b[j - |a|];
      } else {
        assert a[i] in a && b[j - |a|] in b;
      }
    }
  }

  /** Values that are safe, new and stripped are recorded in no record and written on no
      line. */
  lemma {:induction false} NewIsNoLine(lines0: seq<string>, h: History, vals: seq<string>)
    requires InStep(lines0, h)
    requires forall v | v in vals :: v != "" && Stripped(v) && IngestOk(v) && !IsKnown(h.lines, v)
    ensures forall v | v in Flat(h.records) :: v !in vals
    ensures forall v, l | v in vals && l in lines0 :: Strip(l) != v
  {
    hide Strip, IngestOk, IsKnown;
    forall v, l | v in vals && l in h.lines ensures Strip(l) != v {
      AcceptedIsNoLine(h.lines, v, l);
    }
    forall v | v in Flat(h.records) ensures v !in vals {
      assert v in h.lines && GoodValue(v);
      StripIs(v);
    }
  }

  lemma {:induction false} AppendInStep(lines0: seq<string>, h: History, vals: seq<string>, id: string)
    requires InStep(lines0, h) && AllUnbroken(vals) && Distinct(vals)
    requires forall v | v in vals :: v != "" && Stripped(v) && IngestOk(v) && !IsKnown(h.lines, v)
    ensures InStep(lines0, Append(h, vals, id))
  {
    hide IngestOk, Strip, Stripped, IsKnown, Flat, Reread, Unbroken;
    if vals != [] {
      InStepUnbroken(lines0, h);
      RereadIs(h.lines + vals);
      FlatJoins(h.records, [Record(id, vals)]);
      FlatOne(Record(id, vals));
      NewIsNoLine(lines0, h, vals);
      DistinctSum(Flat(h.records), vals);
      SumThree(lines0, Flat(h.records), vals);
      var g := Append(h, vals, id);
      assert Flat(g.records) == Flat(h.records) + vals;
      assert forall v | v in vals :: GoodValue(v);
    }
  }

  lemma {:induction false} IngestInStep(lines0: seq<string>, h: History, cells: seq<string>, id: string)
    requires InStep(lines0, h) && AllUnbroken(cells)
    ensures InStep(lines0, Ingest(h, cells, id))
  {
    hide IngestOk, Stripped, IsKnown, Append, Accepted, Unbroken, InStep, IsCell;
    AcceptedAre(h.lines, cells);
    AppendInStep(lines0, h, Accepted(h.lines, cells), id);
  }

  lemma FlatOne(r: Record)
    ensures Flat([r]) == r.vals
  {
    assert [r][..0] == [];
  }

  lemma {:induction false} SplitRecords(records: seq<Record>, i: nat)
    requires i < |records|
    ensures var before, vals, after := Flat(records[..i]), records[i].vals, Flat(records[i + 1..]);
            Flat(records) == before + vals + after
            && Flat(records[..i] + records[i + 1..]) == before + after
  {
    hide Flat;
    AroundRecord(records, i);
    FlatJoins(records[..i] + [records[i]], records[i + 1..]);
    FlatJoins(records[..i], [records[i]]);
    FlatOne(records[i]);
    FlatJoins(records[..i], records[i + 1..]);
  }

  lemma AroundRecord(records: seq<Record>, i: nat)
    requires i < |records|
    ensures records == records[..i] + [records[i]] + records[i + 1..]
  {}

  /** What the rollback of record `i` takes out of a file that is in step. */
  lemma RollbackDrops(lines0: seq<string>, h: History, i: nat)
    requires InStep(lines0, h) && i < |h.records|
    ensures var rec, earlier := h.records[i], h.records[..i];
            (forall l | l in lines0 || l in Flat(earlier) || l in Flat(h.records[i + 1..]) :: !Dropped(rec, earlier, l))
            && (forall l | l in rec.vals :: Dropped(rec, earlier, l))
  {
    hide Strip, Stripped, Flat;
    var rec, earlier := h.records[i], h.records[..i];
    var before, vals, after := Flat(earlier), rec.vals, Flat(h.records[i + 1..]);
    SplitRecords(h.records, i);
    DistinctParts(before, vals, after);
    var all := Flat(h.records);
    forall v | v in before || v in vals || v in after ensures v in all && GoodValue(v) && Strip(v) == v {
      StripIs(v);
    }
    forall v | v in vals ensures Dropped(rec, earlier, v) {
      FlatHas(earlier, v);
      assert GoodValue(v);
    }
    forall l | l in lines0 ensures !Dropped(rec, earlier, l) {
      assert Strip(l) in vals ==> Strip(l) in all;
    }
  }

  /** The lines a rollback keeps of a file that is in step: all but its record's. */
  lemma RollbackKeeps(lines0: seq<string>, h: History, i: nat)
    requires InStep(lines0, h) && i < |h.records|
    ensures KeptBy(h.records[i], h.records[..i], h.lines) == lines0 + Flat(h.records[..i] + h.records[i + 1..])
  {
    hide Dropped, Flat, KeptBy;
    var rec, earlier := h.records[i], h.records[..i];
    SplitRecords(h.records, i);
    RollbackDrops(lines0, h, i);
    KeptParts(rec, earlier, lines0, Flat(earlier), rec.vals, Flat(h.records[i + 1..]));
  }

  lemma KeptParts(rec: Record, earlier: seq<Record>, lines0: seq<string>, before: seq<string>, vals: seq<string>,
                  after: seq<string>)
    requires forall l | l in lines0 || l in before || l in after :: !Dropped(rec, earlier, l)
    requires forall l | l in vals :: Dropped(rec, earlier, l)
    ensures KeptBy(rec, earlier, lines0 + (before + vals + after)) == lines0 + (before + after)
  {
    hide Dropped, Filter;
    var keep := Stays(rec, earlier);
    FilterAll(keep, lines0);
    FilterAll(keep, before);
    FilterNone(keep, vals);
    FilterAll(keep, after);
    FilterSum(keep, lines0, before + vals + after);
    FilterSum(keep, before + vals, after);
    FilterSum(keep, before, vals);
    assert before + [] == before;
  }

  lemma DistinctParts(a: seq<string>, b: seq<string>, c: seq<string>)
    requires Distinct(a + b + c)
    ensures Distinct(a + c) && forall v | v in b :: v !in a && v !in c
  {
    var s := a + b + c;
    assert forall i | 0 <= i < |a| :: s[i] == a[i];
    assert forall i | 0 <= i < |b| :: s[|a| + i] == b[i];
    assert forall i | 0 <= i < |c| :: s[|a| + |b| + i] == c[i];
  }

  lemma {:induction false} RollbackInStep(lines0: seq<string>, h: History, id: string)
    requires InStep(lines0, h) && Rollback(h, id).Some?
    ensures InStep(lines0, Rollback(h, id).value)
    ensures var i := RecordAt(h.records, id);
            Rollback(h, id).value.lines == lines0 + Flat(h.records[..i] + h.records[i + 1..])
  {
    hide Flat, KeptBy, Reread, Strip, GoodValue, Rollback, InStep;
    var i := RecordAt(h.records, id);
    RollbackFinds(h, id);
    var kept := lines0 + Flat(h.records[..i] + h.records[i + 1..]);
    RollbackKeeps(lines0, h, i);
    WithoutInStep(lines0, h, i);
    InStepRereads(lines0, History(kept, h.records[..i] + h.records[i + 1..]));
  }

  lemma RollbackFinds(h: History, id: string)
    requires Rollback(h, id).Some?
    ensures var i := RecordAt(h.records, id);
            i < |h.records|
            && var kept := KeptBy(h.records[i], h.records[..i], h.lines);
               Rollback(h, id).value
               == History(if kept == h.lines then kept else Reread(kept), h.records[..i] + h.records[i + 1..])
  {
    hide KeptBy, Reread;
  }

  lemma InStepRereads(lines0: seq<string>, h: History)
    requires InStep(lines0, h) && AllUnbroken(h.lines)
    ensures Reread(h.lines) == h.lines
  {
    RereadIs(h.lines);
  }

  lemma WithoutInStep(lines0: seq<string>, h: History, i: nat)
    requires InStep(lines0, h) && i < |h.records|
    ensures var records := h.records[..i] + h.records[i + 1..];
            InStep(lines0, History(lines0 + Flat(records), records)) && AllUnbroken(lines0 + Flat(records))
  {
    hide Flat, Strip;
    SplitRecords(h.records, i);
    var before, vals, after := Flat(h.records[..i]), h.records[i].vals, Flat(h.records[i + 1..]);
    DistinctParts(before, vals, after);
    assert forall v | v in before + after :: v in before + vals + after;
  }

  predicate NoPurge(ops: seq<Op>) { forall op | op in ops :: !op.OpPurge? }

  /** Over every run of ingests, persisted tables and rollbacks the file is the initial lines
      followed by the values of the surviving records in order, and records never share a
      value. */
  lemma {:induction false} RunStaysInStep(lines0: seq<string>, h: History, ops: seq<Op>)
    requires InStep(lines0, h) && NoPurge(ops) && forall op | op in ops :: OneLine(op) && Trim(op)
    ensures InStep(lines0, Run(h, ops))
    decreases |ops|
  {
    if ops != [] {
      var op := ops[0];
      assert OneLine(op) && Trim(op);
      match op {
        case OpIngest(cells, id) => IngestInStep(lines0, h, cells, id);
        case OpPersist(vals, id) => AppendInStep(lines0, h, Offered(h.lines, vals), id);
        case OpRollback(id) =>
          if Rollback(h, id).Some? {
            RollbackInStep(lines0, h, id);
          }
        case OpPurge(_) =>
      }
      RunStaysInStep(lines0, Step(h, op), ops[1..]);
    }
  }

  /** All runs of ingests and rollbacks from a vault without imports end in step. */
  ghost predicate HistoryHolds(lines0: seq<string>) {
    forall ops: seq<Op> | NoPurge(ops) && (forall op | op in ops :: OneLine(op) && Trim(op)) ::
      Run(History(lines0, []), ops).lines == lines0 + Flat(Run(History(lines0, []), ops).records)
  }

  /** The file is the initial lines and the surviving records after every run exactly when
      there was a line to begin with: an emptied file is read back as one blank line. */
  lemma HistoryIff(lines0: seq<string>)
    requires AllUnbroken(lines0)
    ensures HistoryHolds(lines0) <==> lines0 != []
  {
    if lines0 != [] {
      var h0 := History(lines0, []);
      assert lines0 + Flat([]) == lines0;
      assert InStep(lines0, h0);
      forall ops: seq<Op> | NoPurge(ops) && (forall op | op in ops :: OneLine(op) && Trim(op))
        ensures Run(h0, ops).lines == lines0 + Flat(Run(h0, ops).records)
      {
        RunStaysInStep(lines0, h0, ops);
      }
    } else {
      EmptiedFile();
    }
  }

  /** Cells in, the import out again: an empty file gains a blank line. */
  lemma {:induction false} InAndOut(cells: seq<string>, id: string, vals: seq<string>)
    requires vals == Accepted([], cells) && vals != [] && AllUnbroken(vals)
    ensures Run(History([], []), [OpIngest(cells, id), OpRollback(id)]) == History([""], [])
  {
    hide Accepted, Reread, Dropped, Stripped, IngestOk, Unbroken, Run, Filter;
    var h, rec := History([], []), Record(id, vals);
    AcceptedAre([], cells);
    RereadIs(vals);
    assert [] + vals == vals && [] + [rec] == [rec];
    assert Ingest(h, cells, id) == History(vals, [rec]);
    assert [rec][..0] == [] && [rec][..0] + [rec][1..] == [] && RecordAt([rec], id) == 0;
    OwnValuesDropped(rec);
    FilterNone(Stays(rec, []), vals);
    RereadIs([]);
    TwoSteps(h, OpIngest(cells, id), OpRollback(id));
  }

  lemma OwnValuesDropped(rec: Record)
    requires forall v | v in rec.vals :: v != "" && Stripped(v) && IngestOk(v)
    ensures forall v | v in rec.vals :: Dropped(rec, [], v)
  {
    hide Strip, Stripped;
    forall v | v in rec.vals ensures Dropped(rec, [], v) {
      StripIs(v);
    }
  }

  lemma SomeCell(x: string)
    requires GoodValue(x)
    ensures AllUnbroken([x]) && Accepted([], [x]) != [] && AllUnbroken(Accepted([], [x]))
  {
    hide Strip, Stripped, IngestOk, Accepted, Unbroken;
    StripIs(x);
    AcceptedAre([], [x]);
    var cells := [x];
    assert cells[0] == x;
    assert IsCell(cells, x) && !IsKnown([], x);
    assert x in Accepted([], cells);
  }

  lemma EmptiedBy(x: string)
    requires GoodValue(x)
    ensures !HistoryHolds([])
  {
    hide Run, Accepted, Unbroken, GoodValue, Flat;
    SomeCell(x);
    InAndOut([x], x, Accepted([], [x]));
    var ops := [OpIngest([x], x), OpRollback(x)];
    assert OneLine(ops[0]) && OneLine(ops[1]) && Trim(ops[0]) && Trim(ops[1]);
    FlatNone();
    assert Run(History([], []), ops).lines != [] + Flat(Run(History([], []), ops).records);
  }

  lemma FlatNone()
    ensures Flat([]) == [] && [] + Flat([]) == []
  {}

  lemma EmptiedFile()
    ensures !HistoryHolds([])
  {
    hide HistoryHolds, Name, Strip;
    EmptiedBy("x");
  }

  lemma {:induction false} TwoSteps(h: History, a: Op, b: Op)
    ensures Run(h, [a, b]) == Step(Step(h, a), b)
  {
    hide Step;
    assert [a, b][1..] == [b] && [b][1..] == [];
    assert Run(Step(h, a), [b]) == Run(Step(Step(h, a), b), []);
  }

  // ---------- protected lines ----------

  /** Comments, patterns and named entries. */
  predicate IsProtected(line: string) {
    var t := Strip(line);
    "#" <= t || "re:" <= t || (HasEquals(t) && IsEntryName(Name(t)))
  }

  function Protects(): string -> bool { (l: string) => IsProtected(l) }

  function ProtectedOf(lines: seq<string>): seq<string> { Filter(Protects(), lines) }

  lemma NotProtected(v: string)
    requires IngestOk(Strip(v))
    ensures !IsProtected(v)
  {
    hide Strip, HasEquals, IsEntryName, Name;
  }

  lemma DroppedNotProtected(rec: Record, earlier: seq<Record>, line: string)
    requires forall v | v in rec.vals :: IngestOk(v)
    ensures Dropped(rec, earlier, line) ==> !IsProtected(line)
  {
    hide Strip;
    if Dropped(rec, earlier, line) {
      assert Strip(line) in rec.vals;
    }
  }

  /** The file is unbroken and every recorded value passed the ingest filter. */
  ghost predicate Filtered(h: History) {
    AllUnbroken(h.lines)
    && forall r, v | r in h.records && v in r.vals :: IngestOk(v)
  }

  lemma RereadProtected(lines: seq<string>)
    requires AllUnbroken(lines)
    ensures ProtectedOf(Reread(lines)) == ProtectedOf(lines) && AllUnbroken(Reread(lines))
  {
    RereadIs(lines);
    BlankLine();
  }

  lemma BlankLine()
    ensures ProtectedOf([""]) == []
  {
    hide Filter;
    assert Strip("") == "";
    FilterNone(Protects(), [""]);
  }

  /** Appending keeps the protected lines exactly when nothing that is appended is one. */
  lemma {:induction false} AppendProtectsIff(h: History, vals: seq<string>, id: string)
    requires Filtered(h) && AllUnbroken(vals) && forall v | v in vals :: IngestOk(v)
    ensures Filtered(Append(h, vals, id))
    ensures ProtectedOf(Append(h, vals, id).lines) == ProtectedOf(h.lines) <==> forall v | v in vals :: !IsProtected(v)
  {
    hide IngestOk, Unbroken, Reread, IsProtected, Filter;
    if vals != [] {
      RereadProtected(h.lines + vals);
      FilterSum(Protects(), h.lines, vals);
      if forall v | v in vals :: !IsProtected(v) {
        FilterNone(Protects(), vals);
        assert ProtectedOf(h.lines) + [] == ProtectedOf(h.lines);
      } else {
        var v :| v in vals && IsProtected(v);
        assert v in Filter(Protects(), vals);
        assert |Filter(Protects(), h.lines) + Filter(Protects(), vals)| > |ProtectedOf(h.lines)|;
      }
    }
  }

  lemma {:induction false} IngestProtects(h: History, cells: seq<string>, id: string)
    requires Filtered(h) && AllUnbroken(cells)
    ensures Filtered(Ingest(h, cells, id)) && ProtectedOf(Ingest(h, cells, id).lines) == ProtectedOf(h.lines)
  {
    hide IngestOk, Stripped, Unbroken, Append, Accepted, IsProtected, Strip, Filtered;
    var vals := Accepted(h.lines, cells);
    AcceptedAre(h.lines, cells);
    forall v | v in vals ensures !IsProtected(v) {
      StripIs(v);
      NotProtected(v);
    }
    AppendProtectsIff(h, vals, id);
  }

  lemma {:induction false} PersistProtects(h: History, vals: set<string>, id: string)
    requires Filtered(h) && Fits(OpPersist(vals, id))
    ensures Filtered(Persist(h, vals, id)) && ProtectedOf(Persist(h, vals, id).lines) == ProtectedOf(h.lines)
  {
    hide IngestOk, Stripped, Unbroken, Append, IsProtected, Strip, Filtered;
    var new_ := Offered(h.lines, vals);
    forall v | v in new_ ensures !IsProtected(v) {
      NotProtected(v);
    }
    AppendProtectsIff(h, new_, id);
  }

  lemma {:induction false} PurgeProtects(h: History, cells: seq<string>)
    requires Filtered(h)
    ensures var p := Purge(h, cells);
            p.Some? ==> Filtered(p.value) && ProtectedOf(p.value.lines) == ProtectedOf(h.lines)
  {
    hide IngestOk, Stripped, Unbroken, Reread, Seen, Strip, IsEntryName, Filter;
    var gone := PurgeHits(h.lines, Seen(cells));
    assert forall l | l in h.lines && IsProtected(l) :: Strip(l) !in gone;
    FilterTwice(Protects(), Spares(gone), h.lines);
    RereadProtected(Without(h.lines, gone));
  }

  lemma {:induction false} RollbackProtects(h: History, id: string)
    requires Filtered(h)
    ensures var p := Rollback(h, id);
            p.Some? ==> Filtered(p.value) && ProtectedOf(p.value.lines) == ProtectedOf(h.lines)
  {
    hide IngestOk, Stripped, Unbroken, Reread, IsProtected, Dropped, Filter;
    var i := RecordAt(h.records, id);
    if i < |h.records| {
      var rec, earlier := h.records[i], h.records[..i];
      assert rec in h.records;
      forall l | l in h.lines && IsProtected(l) ensures !Dropped(rec, earlier, l) {
        DroppedNotProtected(rec, earlier, l);
      }
      FilterTwice(Protects(), Stays(rec, earlier), h.lines);
      RereadProtected(KeptBy(rec, earlier, h.lines));
      assert forall r | r in h.records[..i] + h.records[i + 1..] :: r in h.records;
    }
  }

  lemma {:induction false} StepProtects(h: History, op: Op)
    requires Filtered(h) && Fits(op)
    ensures Filtered(Step(h, op)) && ProtectedOf(Step(h, op).lines) == ProtectedOf(h.lines)
  {
    hide Filtered, ProtectedOf, Ingest, Persist, Purge, Rollback;
    match op
    case OpIngest(cells, id) => IngestProtects(h, cells, id);
    case OpPersist(vals, id) => PersistProtects(h, vals, id);
    case OpPurge(cells) =>
      if Purge(h, cells).Some? {
        PurgeProtects(h, cells);
      }
    case OpRollback(id) =>
      if Rollback(h, id).Some? {
        RollbackProtects(h, id);
      }
  }

  /** Over every run of ingests, persisted tables, purges and rollbacks the comments, patterns and named
      entries of the vault are the same lines in the same order. */
  lemma {:induction false} RunProtects(h: History, ops: seq<Op>)
    requires Filtered(h) && forall op | op in ops :: Fits(op)
    ensures Filtered(Run(h, ops)) && ProtectedOf(Run(h, ops).lines) == ProtectedOf(h.lines)
    decreases |ops|
  {
    hide ProtectedOf, Step, Filtered;
    if ops != [] {
      assert ops[0] in ops;
      StepProtects(h, ops[0]);
      RunProtects(Step(h, ops[0]), ops[1..]);
    }
  }

  /** For named entries this rests on the ingest filter alone: a rollback spares the line of
      a named entry exactly when its record does not list it or an earlier one does. */
  lemma {:induction false} RollbackTrustsRecords(rec: Record, earlier: seq<Record>, lines: seq<string>, line: string)
    ensures Classify(line).Named? && line in lines ==>
              (line in KeptBy(rec, earlier, lines) <==> Strip(line) !in rec.vals || InRecords(earlier, Strip(line)))
  {
    hide Strip, Filter;
  }

  lemma {:induction false} StepFiltered(h: History, op: Op)
    requires Filtered(h) && OneLine(op)
    ensures Filtered(Step(h, op))
  {
    hide Filtered, Append, Accepted, Purge, Rollback, IngestOk, Unbroken;
    match op
    case OpIngest(cells, id) => IngestProtects(h, cells, id);
    case OpPersist(vals, id) => AppendProtectsIff(h, Offered(h.lines, vals), id);
    case OpPurge(cells) =>
      if Purge(h, cells).Some? {
        PurgeProtects(h, cells);
      }
    case OpRollback(id) =>
      if Rollback(h, id).Some? {
        RollbackProtects(h, id);
      }
  }

  /** Over every run of operations on unbroken cells the file stays unbroken, and what is
      recorded passed the filter. */
  lemma {:induction false} RunFiltered(h: History, ops: seq<Op>)
    requires Filtered(h) && forall op | op in ops :: OneLine(op)
    ensures Filtered(Run(h, ops))
    decreases |ops|
  {
    hide Step, Filtered, OneLine;
    if ops != [] {
      assert ops[0] in ops;
      StepFiltered(h, ops[0]);
      RunFiltered(Step(h, ops[0]), ops[1..]);
    }
  }

  // ---------- values that several imports list ----------

  /** The value stands on a line of the file. */
  predicate OnFile(lines: seq<string>, v: string) { HasText(lines, v) }

  /** A rollback takes a value off the file exactly when its record lists the value and no
      earlier record does; a later one does not count. */
  lemma {:induction false} RollbackLeaves(h: History, id: string, v: string)
    requires Filtered(h) && Rollback(h, id).Some? && v != "" && IngestOk(v) && OnFile(h.lines, v)
    ensures var i := RecordAt(h.records, id);
            OnFile(Rollback(h, id).value.lines, v) <==> v !in h.records[i].vals || InRecords(h.records[..i], v)
  {
    hide IngestOk, Strip, Unbroken, Reread, Rollback, InRecords, Filter;
    RollbackFinds(h, id);
    var i := RecordAt(h.records, id);
    var rec, earlier := h.records[i], h.records[..i];
    var kept := KeptBy(rec, earlier, h.lines);
    RereadIs(kept);
    SafeStart(v);
    assert Strip("") == "" by { StripNothing(); }
    var l :| l in h.lines && Strip(l) == v;
    assert Dropped(rec, earlier, l) <==> v in rec.vals && !InRecords(earlier, v);
    if !Dropped(rec, earlier, l) {
      assert l in kept;
    } else {
      forall x | x in kept ensures Strip(x) != v {
        assert !Dropped(rec, earlier, x);
      }
    }
  }

  lemma SafeStart(v: string)
    requires IngestOk(v)
    ensures !("#" <= v) && !("re:" <= v)
  {}

  lemma StripNothing()
    ensures Strip("") == ""
  {}

  /** Every value that a surviving record lists is still on file, if it was. */
  ghost predicate SharedStay(h: History, id: string) {
    Rollback(h, id).Some? ==>
      forall v | InRecords(Rollback(h, id).value.records, v) && OnFile(h.lines, v) ::
        OnFile(Rollback(h, id).value.lines, v)
  }

  /** What the record and a later one list, an earlier one lists too, if it is on file. */
  ghost predicate LaterAreEarlier(h: History, id: string) {
    var i := RecordAt(h.records, id);
    i < |h.records| ==>
      forall v | v in h.records[i].vals && InRecords(h.records[i + 1..], v) && OnFile(h.lines, v) && v != "" ::
        InRecords(h.records[..i], v)
  }

  /** After any run, purges included: what the surviving records list stays on file when a
      record is rolled back exactly when no value is shared with a later record alone. */
  lemma {:induction false} SharedStayIff(lines0: seq<string>, ops: seq<Op>, id: string)
    requires AllUnbroken(lines0) && forall op | op in ops :: OneLine(op)
    ensures var h := Run(History(lines0, []), ops);
            SharedStay(h, id) <==> LaterAreEarlier(h, id)
  {
    hide Run, Filtered, SharedStay, LaterAreEarlier, OneLine;
    var h0 := History(lines0, []);
    assert Filtered(h0) by { StartFiltered(lines0); }
    RunFiltered(h0, ops);
    SharedFiltered(Run(h0, ops), id);
  }

  lemma StartFiltered(lines0: seq<string>)
    requires AllUnbroken(lines0)
    ensures Filtered(History(lines0, []))
  {}

  lemma {:induction false} SharedFiltered(h: History, id: string)
    requires Filtered(h)
    ensures SharedStay(h, id) <==> LaterAreEarlier(h, id)
  {
    hide IngestOk, OnFile, Rollback, Unbroken;
    var i := RecordAt(h.records, id);
    RollbackSome(h, id);
    if i < |h.records| {
      RollbackFinds(h, id);
      var rest := h.records[..i] + h.records[i + 1..];
      RestRecords(h.records, i);
      forall v | InRecords(rest, v) && OnFile(h.lines, v)
        ensures OnFile(Rollback(h, id).value.lines, v) <==>
                  !(v in h.records[i].vals && v != "" && !InRecords(h.records[..i], v))
      {
        assert InRecords(h.records, v);
        if v != "" {
          RollbackLeaves(h, id, v);
        } else {
          BlankLeaves(h, id);
        }
      }
    }
  }

  lemma RollbackSome(h: History, id: string)
    ensures Rollback(h, id).Some? <==> RecordAt(h.records, id) < |h.records|
  {
    hide KeptBy, Reread;
  }

  lemma RestRecords(records: seq<Record>, i: nat)
    requires i < |records|
    ensures forall v :: InRecords(records[..i] + records[i + 1..], v) <==>
                          InRecords(records[..i], v) || InRecords(records[i + 1..], v)
    ensures forall v :: InRecords(records[..i] + records[i + 1..], v) ==> InRecords(records, v)
  {
    forall v ensures InRecords(records[..i] + records[i + 1..], v) <==>
                       InRecords(records[..i], v) || InRecords(records[i + 1..], v)
    {
      if InRecords(records[..i], v) {
        var r :| r in records[..i] && v in r.vals;
        assert r in records[..i] + records[i + 1..];
      }
      if InRecords(records[i + 1..], v) {
        var r :| r in records[i + 1..] && v in r.vals;
        assert r in records[..i] + records[i + 1..];
      }
    }
  }

  /** A blank line is never taken out. */
  lemma {:induction false} BlankLeaves(h: History, id: string)
    requires Filtered(h) && Rollback(h, id).Some? && OnFile(h.lines, "")
    ensures OnFile(Rollback(h, id).value.lines, "")
  {
    hide IngestOk, Strip, Unbroken, Reread, Rollback, InRecords, Filter;
    RollbackFinds(h, id);
    var i := RecordAt(h.records, id);
    var kept := KeptBy(h.records[i], h.records[..i], h.lines);
    RereadIs(kept);
    var l :| l in h.lines && Strip(l) == "";
    assert !Dropped(h.records[i], h.records[..i], l);
    assert l in kept;
  }

  /** Without purges no two records share a value, so nothing of the kind can happen. */
  lemma {:induction false} SharedNeedsPurge(lines0: seq<string>, ops: seq<Op>, id: string)
    requires lines0 != [] && AllUnbroken(lines0) && NoPurge(ops) && forall op | op in ops :: OneLine(op) && Trim(op)
    ensures SharedStay(Run(History(lines0, []), ops), id)
  {
    hide Run, OnFile, Rollback, InRecords, Flat, SharedStay, OneLine, Trim, Strip, GoodValue;
    var h0 := History(lines0, []);
    FlatNone();
    assert lines0 + [] == lines0;
    RunStaysInStep(lines0, h0, ops);
    SharedStayIff(lines0, ops, id);
    var h := Run(h0, ops);
    var i := RecordAt(h.records, id);
    if i < |h.records| {
      SplitRecords(h.records, i);
      DistinctParts(Flat(h.records[..i]), h.records[i].vals, Flat(h.records[i + 1..]));
      forall v | v in h.records[i].vals ensures !InRecords(h.records[i + 1..], v) {
        FlatHas(h.records[i + 1..], v);
      }
    }
  }

  /** A purge makes a value new again, so that a second import lists it too. */
  lemma {:induction false} PurgeMakesShared(x: string, a: string, b: string)
    requires GoodValue(x) && !IsProtectedText(x) && x != "#" && a != b
    ensures var h := Run(History(["#"], []), [OpIngest([x], a), OpPurge([x]), OpIngest([x], b)]);
            h == History(["#", x], [Record(a, [x]), Record(b, [x])])
            && Rollback(h, a) == Some(History(["#"], [Record(b, [x])])) && !SharedStay(h, a)
            && Rollback(h, b) == Some(History(["#", x], [Record(a, [x])]))
  {
    hide Ingest, Purge, Rollback, Unbroken, GoodValue, IsProtectedText;
    var h0, h1 := History(["#"], []), History(["#", x], [Record(a, [x])]);
    var h2, h3 := History(["#"], [Record(a, [x])]), History(["#", x], [Record(a, [x]), Record(b, [x])]);
    IngestOne(h0, x, a);
    assert h0.lines + [x] == h1.lines && [] + [Record(a, [x])] == h1.records;
    PurgeOne(h1, x);
    IngestOne(h2, x, b);
    assert h2.records + [Record(b, [x])] == h3.records;
    ThreeSteps(h0, OpIngest([x], a), OpPurge([x]), OpIngest([x], b));
    RollbackFirst(h3, x, a, b);
    RollbackSecond(h3, x, a, b);
    NotShared(h3, x, a, b);
  }

  lemma NotShared(h: History, x: string, a: string, b: string)
    requires GoodValue(x) && x != "#" && h.lines == ["#", x]
    requires Rollback(h, a) == Some(History(["#"], [Record(b, [x])]))
    ensures !SharedStay(h, a)
  {
    hide Rollback, Strip, IngestOk, Stripped, Unbroken;
    StripIs(x);
    StripHash();
    assert h.lines[1] == x;
    assert Rollback(h, a).value.records[0] == Record(b, [x]);
    assert InRecords(Rollback(h, a).value.records, x) && OnFile(h.lines, x);
    assert !OnFile(["#"], x);
  }

  lemma StripHash()
    ensures Strip("#") == "#" && Stripped("#") && Unbroken("#") && KnownOf("#").None?
  {
    hide Strip, HasEquals, IsEntryName, Name;
    assert !IsSpace('#') && !IsBreak('#');
    StripIs("#");
  }

  lemma {:induction false} ThreeSteps(h: History, a: Op, b: Op, c: Op)
    ensures Run(h, [a, b, c]) == Step(Step(Step(h, a), b), c)
  {
    hide Step;
    assert [a, b, c][1..] == [b, c];
    TwoSteps(Step(h, a), b, c);
  }

  lemma {:induction false} IngestOne(h: History, x: string, id: string)
    requires GoodValue(x) && x != "#" && h.lines == ["#"]
    ensures Ingest(h, [x], id) == History(["#", x], h.records + [Record(id, [x])])
  {
    hide Strip, Stripped, IngestOk, Unbroken, Reread, KnownOf, Accepted;
    StripIs(x);
    StripHash();
    assert !IsKnown(h.lines, x);
    var vals := Accepted(h.lines, [x]);
    assert [x][0] == x;
    assert IsCell([x], x);
    forall v | v in vals ensures v == x {}
    assert x in vals;
    LoneList(vals, x);
    assert h.lines + [x] == ["#", x];
    RereadIs(["#", x]);
  }

  lemma {:induction false} PurgeOne(h: History, x: string)
    requires GoodValue(x) && !IsProtectedText(x) && x != "#" && h.lines == ["#", x]
    ensures Purge(h, [x]) == Some(h.(lines := ["#"]))
  {
    hide Strip, Stripped, Unbroken, Reread, IsProtectedText, Filter, Seen;
    StripIs(x);
    StripHash();
    SafeStart(x);
    assert [x][0] == x;
    var seen := Seen([x]);
    assert IsCell([x], x);
    LoneList(seen, x);
    assert h.lines[1] == x;
    var gone := PurgeHits(h.lines, seen);
    FilterAll(CanGo(h.lines), seen);
    assert Without(h.lines, gone) == ["#"] by {
      FilterAll(Spares(gone), ["#"]);
      FilterSnoc(Spares(gone), ["#"], x);
      assert ["#"] + [x] == h.lines && ["#"] + [] == ["#"];
    }
    RereadIs(["#"]);
  }

  lemma {:induction false} RollbackFirst(h: History, x: string, a: string, b: string)
    requires GoodValue(x) && x != "#" && h == History(["#", x], [Record(a, [x]), Record(b, [x])])
    ensures Rollback(h, a) == Some(History(["#"], [Record(b, [x])]))
  {
    hide Strip, Stripped, Unbroken, Reread, Filter, IngestOk;
    StripIs(x);
    StripHash();
    SafeStart(x);
    var rec := Record(a, [x]);
    assert h.records[..0] == [] && [] + h.records[1..] == [Record(b, [x])];
    assert Dropped(rec, [], x) && !Dropped(rec, [], "#");
    FilterAll(Stays(rec, []), ["#"]);
    FilterSnoc(Stays(rec, []), ["#"], x);
    assert ["#"] + [x] == h.lines && ["#"] + [] == ["#"];
    RereadIs(["#"]);
  }

  lemma {:induction false} RollbackSecond(h: History, x: string, a: string, b: string)
    requires GoodValue(x) && x != "#" && a != b && h == History(["#", x], [Record(a, [x]), Record(b, [x])])
    ensures Rollback(h, b) == Some(History(["#", x], [Record(a, [x])]))
  {
    hide Strip, Stripped, Unbroken, Reread, Filter, IngestOk;
    StripIs(x);
    StripHash();
    var rec, earlier := Record(b, [x]), [Record(a, [x])];
    assert RecordAt(h.records, b) == 1 by {
      assert h.records[1..][0] == rec;
    }
    assert h.records[..1] == earlier && earlier + h.records[2..] == earlier;
    assert earlier[0].vals == [x] && InRecords(earlier, x);
    FilterAll(Stays(rec, earlier), h.lines);
  }
}
