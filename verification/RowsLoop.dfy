/** The loops over rows and cells. What has been put out so far is a prefix of the result,
    what is left is a run from the present state on, and each step moves one cell or one
    row from the second to the first. The lemmas here are those steps, for sanitizing and
    for restoring; they say nothing about the program beyond its loops. */
module RowsLoop {
  import opened Text
  import opened Restore
  import opened TagStore
  import opened Rows
  import opened RowsBack

  // ---------- sanitizing ----------

  /** A run with something put out before it. */
  function Onto<T>(out: seq<T>, n: nat, t: nat, r: Run<seq<T>>): Run<seq<T>> {
    match r
    case Stopped(st) => Stopped(st)
    case Ran(st, cache, more, n2, t2) => Ran(st, cache, out + more, n + n2, t + t2)
  }

  lemma OntoNothing<T>(r: Run<seq<T>>)
    ensures Onto([], 0, 0, r) == r
  {
    if r.Ran? {
      assert [] + r.out == r.out;
    }
  }

  lemma OntoMore<T>(out: seq<T>, n: nat, t: nat, x: T, n1: nat, t1: nat, r: Run<seq<T>>)
    ensures r.Ran? ==>
              Onto(out, n, t, Ran(r.st, r.cache, [x] + r.out, n1 + r.n, t1 + r.t)) == Onto(out + [x], n + n1, t + t1, r)
  {
    if r.Ran? {
      assert out + ([x] + r.out) == out + [x] + r.out;
    }
  }

  lemma {:induction false} NextCell(q: Request, first: seq<string>, head: bool, st: Store, cache: Cache,
                                    row: seq<string>, j: nat,
                 out: seq<string>, n: nat, t: nat)
    requires j < |row|
    ensures var r := RunCell(q, PlanOf(q, first, j), head, true, st, cache, row[j]);
            Onto(out, n, t, RunRow(q, first, head, true, st, cache, row, j))
            == if r.Stopped? then Stopped(r.st)
               else Onto(out + [r.out], n + r.n, t + r.t, RunRow(q, first, head, true, r.st, r.cache, row, j + 1))
  {
    hide RunCell, PlanOf;
    var r := RunCell(q, PlanOf(q, first, j), head, true, st, cache, row[j]);
    if r.Ran? {
      OntoMore(out, n, t, r.out, r.n, r.t, RunRow(q, first, head, true, r.st, r.cache, row, j + 1));
    }
  }

  lemma {:induction false} NextRow(q: Request, st: Store, cache: Cache, rows: seq<seq<string>>, i: nat,
                out: seq<seq<string>>, n: nat, t: nat)
    requires i < |rows|
    ensures var r := RunRow(q, rows[0], q.header && i == 0, true, st, cache, rows[i], 0);
            Onto(out, n, t, RunRows(q, true, st, cache, rows, i))
            == if r.Stopped? then Stopped(r.st)
               else Onto(out + [r.out], n + r.n, t + r.t, RunRows(q, true, r.st, r.cache, rows, i + 1))
  {
    hide RunRow;
    var r := RunRow(q, rows[0], q.header && i == 0, true, st, cache, rows[i], 0);
    if r.Ran? {
      OntoMore(out, n, t, r.out, r.n, r.t, RunRows(q, true, r.st, r.cache, rows, i + 1));
    }
  }

  lemma RowEnds(q: Request, first: seq<string>, head: bool, st: Store, cache: Cache, row: seq<string>,
                out: seq<string>, n: nat, t: nat)
    ensures Onto(out, n, t, RunRow(q, first, head, true, st, cache, row, |row|)) == Ran(st, cache, out, n, t)
  {
    assert out + [] == out;
  }

  lemma RowsEnd(q: Request, st: Store, cache: Cache, rows: seq<seq<string>>, out: seq<seq<string>>, n: nat, t: nat)
    ensures Onto(out, n, t, RunRows(q, true, st, cache, rows, |rows|)) == Ran(st, cache, out, n, t)
  {
    assert out + [] == out;
  }

  /** What a caller sees of a cell or of a run: output and the two counts, or a refusal. */
  function CellOutcome(w: CellWork): Option<(string, nat, nat)> {
    match w
    case CellFailed(_) => None
    case CellDone(_, out, n, t) => Some((out, n, t))
  }

  function RunOutcome<T>(r: Run<T>): Option<(T, nat, nat)> {
    match r
    case Stopped(_) => None
    case Ran(_, _, out, n, t) => Some((out, n, t))
  }

  // ---------- restoring ----------

  lemma FamsStartWith(prefix: string, families: seq<string>)
    requires IsPrefix(prefix)
    ensures var fams := RestoreFams(prefix, families);
            fams != [] && fams[0] == prefix && forall f | f in fams :: IsPrefix(f)
  {
    KeepHas(families, [prefix]);
    KeepExtends(families, [prefix]);
  }

  lemma {:induction false} KeepExtends(families: seq<string>, kept: seq<string>)
    ensures kept <= Keep(families, kept)
    decreases |families|
  {
    if families != [] {
      var more := if IsPrefix(families[0]) && families[0] !in kept then kept + [families[0]] else kept;
      KeepExtends(families[1..], more);
    }
  }

  function BackOnto<T>(out: seq<T>, count: nat, b: Back<seq<T>>): Back<seq<T>> {
    Back(out + b.out, count + b.count, b.unresolved)
  }

  lemma BackOntoMore<T>(out: seq<T>, count: nat, x: T, k: nat, b: Back<seq<T>>)
    ensures BackOnto(out, count, Back([x] + b.out, k + b.count, b.unresolved)) == BackOnto(out + [x], count + k, b)
  {
    assert out + ([x] + b.out) == out + [x] + b.out;
  }

  lemma BackOntoNothing<T>(b: Back<seq<T>>)
    ensures BackOnto([], 0, b) == b
  {
    assert [] + b.out == b.out;
  }

  lemma {:induction false} NextBack(t: Tables, prefix: string, families: seq<string>, row: seq<string>, j: nat,
                                    met: seq<string>,
                 out: seq<string>, count: nat)
    requires j < |row|
    ensures var r := RestoreCell(t, prefix, families, row[j]);
            BackOnto(out, count, BackRow(t, prefix, families, row, j, met))
            == BackOnto(out + [r.text], count + r.count,
                        BackRow(t, prefix, families, row, j + 1, AddNew(met, r.unresolved)))
  {
    hide RestoreCell;
    var r := RestoreCell(t, prefix, families, row[j]);
    BackOntoMore(out, count, r.text, r.count, BackRow(t, prefix, families, row, j + 1, AddNew(met, r.unresolved)));
  }

  lemma {:induction false} NextBackRow(t: Tables, prefix: string, families: seq<string>, rows: seq<seq<string>>,
                                       i: nat, met: seq<string>,
                    out: seq<seq<string>>, count: nat)
    requires i < |rows|
    ensures var r := BackRow(t, prefix, families, rows[i], 0, met);
            BackOnto(out, count, BackRows(t, prefix, families, rows, i, met))
            == BackOnto(out + [r.out], count + r.count, BackRows(t, prefix, families, rows, i + 1, r.unresolved))
  {
    hide BackRow;
    var r := BackRow(t, prefix, families, rows[i], 0, met);
    BackOntoMore(out, count, r.out, r.count, BackRows(t, prefix, families, rows, i + 1, r.unresolved));
  }

  lemma BackRowEnds(t: Tables, prefix: string, families: seq<string>, row: seq<string>, met: seq<string>,
                    out: seq<string>, count: nat)
    ensures BackOnto(out, count, BackRow(t, prefix, families, row, |row|, met)) == Back(out, count, met)
  {
    assert out + [] == out;
  }

  lemma BackRowsEnd(t: Tables, prefix: string, families: seq<string>, rows: seq<seq<string>>, met: seq<string>,
                    out: seq<seq<string>>, count: nat)
    ensures BackOnto(out, count, BackRows(t, prefix, families, rows, |rows|, met)) == Back(out, count, met)
  {
    assert out + [] == out;
  }
}
