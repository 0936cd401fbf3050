/** The vault file and its import registry as service.py changes them in place: an object
    with the lines and the records, and the loops that choose, append and drop lines. Each
    method is proved equal to the step of `Imports` that specifies it. */
module ImportService {
  import opened Text
  import opened Vault
  import opened Filters
  import opened Order
  import opened Imports

  /** Data cells, stripped, without blanks and repetitions. */
  method CollectCells(cells: seq<string>) returns (seen: seq<string>)
    ensures seen == Seen(cells)
  {
    hide Strip, Seen;
    seen := [];
    assert Seen(cells[..0]) == [] by { SeenNone(cells[..0]); }
    var i := 0;
    while i < |cells|
      invariant 0 <= i <= |cells| && seen == Seen(cells[..i])
    {
      var c := Strip(cells[i]);
      Init(cells, i);
      SeenSnoc(cells[..i], cells[i]);
      if c != "" && c !in seen {
        seen := seen + [c];
      }
      i := i + 1;
    }
    assert cells[..i] == cells;
  }

  lemma SeenNone(cells: seq<string>)
    requires cells == []
    ensures Seen(cells) == []
  {}

  lemma Init<T>(xs: seq<T>, i: nat)
    requires i < |xs|
    ensures xs[..i + 1] != [] && xs[..i + 1][..|xs[..i + 1]| - 1] == xs[..i] && xs[..i + 1][|xs[..i + 1]| - 1] == xs[i]
    ensures xs[..i + 1] == xs[..i] + [xs[i]]
  {}

  /** The values the lines already stand for. */
  method KnownValues(lines: seq<string>) returns (known: set<string>)
    ensures forall v :: v in known <==> IsKnown(lines, v)
  {
    hide KnownOf;
    known := {};
    var i := 0;
    while i < |lines|
      invariant 0 <= i <= |lines|
      invariant forall v :: v in known <==> IsKnown(lines[..i], v)
    {
      var k := KnownOf(lines[i]);
      KnownGrows(lines, i);
      if k.Some? {
        known := known + {k.value};
      }
      i := i + 1;
    }
    assert lines[..i] == lines;
  }

  lemma KnownGrows(lines: seq<string>, i: nat)
    requires i < |lines|
    ensures forall v :: IsKnown(lines[..i + 1], v) <==> IsKnown(lines[..i], v) || KnownOf(lines[i]) == Some(v)
  {
    hide KnownOf;
    Init(lines, i);
    forall v ensures IsKnown(lines[..i + 1], v) <==> IsKnown(lines[..i], v) || KnownOf(lines[i]) == Some(v) {
      if IsKnown(lines[..i], v) {
        var l :| l in lines[..i] && KnownOf(l) == Some(v);
        assert l in lines[..i + 1];
      }
      if KnownOf(lines[i]) == Some(v) {
        assert lines[i] in lines[..i + 1];
      }
    }
  }

  class VaultFile {
    var lines: seq<string>
    var records: seq<Record>

    function State(): History
      reads this
    {
      History(lines, records)
    }

    constructor (lines: seq<string>)
      ensures State() == History(lines, [])
    {
      this.lines, records := lines, [];
    }

    /** Appends the new, safe cells and registers the import. */
    method CsvIngest(cells: seq<string>, id: string) returns (added: seq<string>)
      modifies this
      ensures State() == Ingest(old(State()), cells, id)
      ensures added == Accepted(old(lines), cells)
    {
      hide Seen, NewOf, SortLex, IngestOk, Reread;
      var seen := CollectCells(cells);
      var known := KnownValues(lines);
      var chosen := SelectNew(seen, known);
      added := SortLex(chosen);
      if added != [] {
        lines := Reread(lines + added);
        records := records + [Record(id, added)];
      }
    }

    method SelectNew(seen: seq<string>, known: set<string>) returns (chosen: seq<string>)
      requires forall v :: v in known <==> IsKnown(lines, v)
      ensures chosen == NewOf(lines, seen)
    {
      hide IngestOk, IsKnown, Filter;
      chosen := [];
      FilterNone(News(lines), seen[..0]);
      var i := 0;
      while i < |seen|
        invariant 0 <= i <= |seen| && chosen == NewOf(lines, seen[..i])
      {
        Init(seen, i);
        FilterSnoc(News(lines), seen[..i], seen[i]);
        if seen[i] !in known && IngestOk(seen[i]) {
          chosen := chosen + [seen[i]];
        }
        i := i + 1;
      }
      assert seen[..i] == seen;
    }

    /** Appends the cells that a batch tagged whole, as they stand, and registers them. */
    method PersistValues(pairs: seq<(string, string)>, id: string) returns (added: nat)
      modifies this
      ensures var vals := set p | p in pairs :: p.1;
              State() == Persist(old(State()), vals, id) && added == |Offered(old(lines), vals)|
    {
      hide IngestOk, IsKnown, Reread, Listing, Filter;
      added := 0;
      var vals := set p | p in pairs :: p.1;
      var known := KnownValues(lines);
      var chosen := SelectNew(Listing(vals - {""}), known);
      if chosen != [] {
        lines := Reread(lines + chosen);
        records := records + [Record(id, chosen)];
        added := |chosen|;
      }
    }

    /** Takes one import back; false when it is not in the registry. */
    method ImportRollback(id: string) returns (found: bool, removed: nat)
      modifies this
      ensures found == Imports.Rollback(old(State()), id).Some?
      ensures State() == if found then Imports.Rollback(old(State()), id).value else old(State())
      ensures found ==> var i := RecordAt(old(records), id);
                        removed == |old(lines)| - |KeptBy(old(records)[i], old(records)[..i], old(lines))|
    {
      hide Reread, Filter, Strip;
      removed := 0;
      var idx := RecordAt(records, id);
      if idx == |records| {
        return false, 0;
      }
      var rec := records[idx];
      var earlier := records[..idx];
      var before := ValuesOf(earlier);
      var kept := DropLines(rec, earlier, before);
      removed := |lines| - |kept|;
      if removed > 0 {
        lines := Reread(kept);
      }
      records := earlier + records[idx + 1..];
      found := true;
    }

    method ValuesOf(rs: seq<Record>) returns (vals: set<string>)
      ensures forall v :: v in vals <==> InRecords(rs, v)
    {
      vals := {};
      var i := 0;
      while i < |rs|
        invariant 0 <= i <= |rs|
        invariant forall v :: v in vals <==> InRecords(rs[..i], v)
      {
        RecordsGrow(rs, i);
        vals := vals + set v | v in rs[i].vals;
        i := i + 1;
      }
      assert rs[..i] == rs;
    }

    method DropLines(rec: Record, earlier: seq<Record>, before: set<string>) returns (kept: seq<string>)
      requires forall v :: v in before <==> InRecords(earlier, v)
      ensures kept == KeptBy(rec, earlier, lines)
    {
      hide Strip, InRecords;
      kept := [];
      var i := 0;
      while i < |lines|
        invariant 0 <= i <= |lines| && kept == KeptBy(rec, earlier, lines[..i])
      {
        Init(lines, i);
        var st := Strip(lines[i]);
        if !(st != "" && !("#" <= st) && !("re:" <= st) && st in rec.vals && st !in before) {
          kept := kept + [lines[i]];
        }
        i := i + 1;
      }
      assert lines[..i] == lines;
    }

    /** Removes whole-cell matches; false when a cell names a protected line. */
    method CsvPurge(cells: seq<string>) returns (done: bool)
      modifies this
      ensures done == Imports.Purge(old(State()), cells).Some?
      ensures State() == if done then Imports.Purge(old(State()), cells).value else old(State())
    {
      hide Seen, Reread, HitsProtected, Purgeable, Without, PurgeHits;
      var seen := CollectCells(cells);
      var shielded, purgeable := ClassifyLines();
      if exists v :: v in seen && v in shielded {
        return false;
      }
      var gone := SelectGone(seen, purgeable);
      if gone != [] {
        var kept := RemoveLines(gone);
        lines := Reread(kept);
      }
      return true;
    }

    method ClassifyLines() returns (shielded: set<string>, purgeable: set<string>)
      ensures forall t :: t in shielded <==> HitsProtected(lines, t)
      ensures forall t :: t in purgeable <==> Purgeable(lines, t)
    {
      hide Strip, IsProtectedText;
      shielded, purgeable := {}, {};
      var i := 0;
      while i < |lines|
        invariant 0 <= i <= |lines|
        invariant forall t :: t in shielded <==> HitsProtected(lines[..i], t)
        invariant forall t :: t in purgeable <==> Purgeable(lines[..i], t)
      {
        var t := Strip(lines[i]);
        LinesGrow(lines, i);
        if t != "" && !("#" <= t) {
          if IsProtectedText(t) {
            shielded := shielded + {t};
          } else {
            purgeable := purgeable + {t};
          }
        }
        i := i + 1;
      }
      assert lines[..i] == lines;
    }

    method SelectGone(seen: seq<string>, purgeable: set<string>) returns (gone: seq<string>)
      requires forall t :: t in purgeable <==> Purgeable(lines, t)
      ensures gone == PurgeHits(lines, seen)
    {
      hide Purgeable;
      gone := [];
      var i := 0;
      while i < |seen|
        invariant 0 <= i <= |seen| && gone == PurgeHits(lines, seen[..i])
      {
        Init(seen, i);
        if seen[i] in purgeable {
          gone := gone + [seen[i]];
        }
        i := i + 1;
      }
      assert seen[..i] == seen;
    }

    method RemoveLines(gone: seq<string>) returns (kept: seq<string>)
      ensures kept == Without(lines, gone)
    {
      hide Strip;
      kept := [];
      var i := 0;
      while i < |lines|
        invariant 0 <= i <= |lines| && kept == Without(lines[..i], gone)
      {
        Init(lines, i);
        if Strip(lines[i]) !in gone {
          kept := kept + [lines[i]];
        }
        i := i + 1;
      }
      assert lines[..i] == lines;
    }
  }

  lemma RecordsGrow(rs: seq<Record>, i: nat)
    requires i < |rs|
    ensures forall v :: InRecords(rs[..i + 1], v) <==> InRecords(rs[..i], v) || v in rs[i].vals
  {
    Init(rs, i);
    assert rs[i] in rs[..i + 1];
  }

  /** One line more to match. */
  lemma LinesGrow(lines: seq<string>, i: nat)
    requires i < |lines|
    ensures forall t :: HitsProtected(lines[..i + 1], t) <==>
              HitsProtected(lines[..i], t) || (t == Strip(lines[i]) && t != "" && !("#" <= t) && IsProtectedText(t))
    ensures forall t :: Purgeable(lines[..i + 1], t) <==>
              Purgeable(lines[..i], t) || (t == Strip(lines[i]) && t != "" && !("#" <= t) && !IsProtectedText(t))
  {
    hide Strip, IsProtectedText;
    Init(lines, i);
    forall t ensures HasText(lines[..i + 1], t) <==> HasText(lines[..i], t) || t == Strip(lines[i]) {
      if t == Strip(lines[i]) {
        assert lines[i] in lines[..i + 1];
      }
      if HasText(lines[..i], t) {
        var l :| l in lines[..i] && Strip(l) == t;
        assert l in lines[..i + 1];
      }
    }
  }
}
