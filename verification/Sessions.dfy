/** Whole sessions: calls that sanitize texts, tables and bodies are runs of single steps of
    the store, so what holds over runs holds over any interleaving of calls. */
module Sessions {
  import opened Text
  import opened Restore
  import opened TagStore
  import opened StoreRuns
  import opened Sweep
  import opened Sanitize
  import opened RoundTrip
  import opened Repeats
  import opened Rows
  import opened RowsBack
  import opened Json
  import opened JsonBody
  import opened BodyService

  datatype Call =
    | CallStep(op: Op)
    | CallText(text: string, prefix: string)
    | CallTable(request: Request, rows: seq<seq<string>>)
    | CallBody(codec: Codec, raw: string)

  /** What a call leaves behind, also when it is refused half way. */
  function Serve(st: Store, c: Call): Store {
    match c
    case CallStep(op) => Step(st, op)
    case CallText(text, prefix) => if st.loaded then SanitizeText(st, text, prefix).st else st
    case CallTable(q, rows) => (match SanitizeRows(q, st, rows) case Some(r) => r.st case None => st)
    case CallBody(codec, raw) => SendBody(codec, st, raw).st
  }

  function ServeAll(st: Store, calls: seq<Call>): Store
    decreases |calls|
  {
    if calls == [] then st else ServeAll(Serve(st, calls[0]), calls[1..])
  }

  // ---------- calls are runs ----------

  lemma RunStep(st: Store, op: Op, ops: seq<Op>)
    ensures StoreRuns.Run(st, [op] + ops) == StoreRuns.Run(Step(st, op), ops)
    ensures StoreRuns.Run(st, [op]) == Step(st, op)
  {
    hide Step;
    assert ([op] + ops)[1..] == ops && [op][1..] == [];
  }

  lemma {:induction false} RunJoins(st: Store, a: seq<Op>, b: seq<Op>)
    ensures StoreRuns.Run(st, a + b) == StoreRuns.Run(StoreRuns.Run(st, a), b)
    ensures OneEpoch(a) && OneEpoch(b) ==> OneEpoch(a + b)
    decreases |a|
  {
    hide Step;
    if a == [] {
      assert a + b == b;
    } else {
      RunJoins(Step(st, a[0]), a[1..], b);
      assert (a + b)[1..] == a[1..] + b;
    }
  }

  /** The steps lead from one state to the other within an epoch. */
  ghost predicate Leads(a: Store, ops: seq<Op>, b: Store) { OneEpoch(ops) && StoreRuns.Run(a, ops) == b }

  lemma LeadsOn(a: Store, x: seq<Op>, b: Store, y: seq<Op>, c: Store)
    requires Leads(a, x, b) && Leads(b, y, c)
    ensures Leads(a, x + y, c)
  {
    RunJoins(a, x, y);
  }

  lemma LeadsOne(a: Store, op: Op)
    requires !op.OpLoad? && !op.OpLock?
    ensures Leads(a, [op], Step(a, op))
  {
    RunStep(a, op, []);
  }

  lemma LeadsNowhere(a: Store)
    ensures Leads(a, [], a)
  {}

  lemma {:induction false} ReplaceIsRun(st: Store, s: string, i: nat, ps: seq<Span>, prefix: string)
    returns (ops: seq<Op>)
    requires InOrder(ps, st.values, s, i)
    ensures Leads(st, ops, Replace(st, s, i, ps, prefix).st)
    decreases |ps|
  {
    hide TagValue, Leads;
    if ps == [] {
      ops := [];
      LeadsNowhere(st);
    } else {
      var v := s[ps[0].start..ps[0].end];
      var m := TagValue(st, v, prefix);
      TagValueKeepsVault(st, v, prefix);
      ops := [OpTagValue(v, prefix)];
      LeadsOne(st, OpTagValue(v, prefix));
      if m.tag.Some? {
        var rest := ReplaceIsRun(m.st, s, ps[0].end, ps[1..], prefix);
        LeadsOn(st, ops, m.st, rest, Replace(m.st, s, ps[0].end, ps[1..], prefix).st);
        ops := ops + rest;
      }
    }
  }

  lemma {:induction false} GapIsRun(st: Store, s: string, prefix: string) returns (ops: seq<Op>)
    ensures Leads(st, ops, Gap(st, s, prefix).st)
  {
    hide Replace, Leads, GetFams;
    if s == "" {
      ops := [];
      LeadsNowhere(st);
    } else {
      ScanIs(st.values, s, 0);
      ops := ReplaceIsRun(st, s, 0, Scan(st.values, s, 0), prefix);
      var w := Replace(st, s, 0, Scan(st.values, s, 0), prefix);
      if w.Done? {
        LeadsOne(w.st, OpGetFams);
        LeadsOn(st, ops, w.st, [OpGetFams], GetFams(w.st));
        ops := ops + [OpGetFams];
      }
    }
  }

  lemma {:induction false} OneCutIsRun(st: Store, g: string, tok: string, known: bool, prefix: string)
    returns (ops: seq<Op>)
    ensures Leads(st, ops, OneCut(st, g, tok, known, prefix).st)
  {
    hide Gap, Leads, Retag;
    ops := GapIsRun(st, g, prefix);
    var w := Gap(st, g, prefix);
    if w.Done? && !known {
      LeadsOne(w.st, OpRetag(tok, prefix));
      LeadsOn(st, ops, w.st, [OpRetag(tok, prefix)], Retag(w.st, tok, prefix).st);
      ops := ops + [OpRetag(tok, prefix)];
    }
  }

  lemma {:induction false} ProcessIsRun(st: Store, c: Cuts, known: map<string, string>, prefix: string)
    returns (ops: seq<Op>)
    ensures Leads(st, ops, Process(st, c, known, prefix).st)
    decreases c
  {
    hide Gap, OneCut, Leads;
    match c
    case Last(g) => ops := GapIsRun(st, g, prefix);
    case Cut(g, tok, rest) =>
      ops := OneCutIsRun(st, g, tok, tok in known, prefix);
      var w := OneCut(st, g, tok, tok in known, prefix);
      if w.CutDone? {
        var more := ProcessIsRun(w.st, rest, known, prefix);
        LeadsOn(st, ops, w.st, more, Process(w.st, rest, known, prefix).st);
        ops := ops + more;
      }
  }

  /** Sanitizing a text is a run of steps, whether it goes through or is refused. */
  lemma {:induction false} TextIsRun(st: Store, s: string, prefix: string) returns (ops: seq<Op>)
    ensures Leads(st, ops, SanitizeText(st, s, prefix).st)
  {
    hide Process, Leads, Segment, GetFams;
    ops := ProcessIsRun(st, Segment(st.values, s), st.tags, prefix);
    var w := Draft(st, s, prefix);
    if w.Done? {
      LeadsOne(w.st, OpGetFams);
      LeadsOn(st, ops, w.st, [OpGetFams], GetFams(w.st));
      ops := ops + [OpGetFams];
    }
  }

  lemma {:induction false} CellIsRun(st: Store, cell: string, p: Plan, typed: bool) returns (ops: seq<Op>)
    ensures Leads(st, ops, SanitizeCell(st, cell, p, typed).st)
  {
    hide SanitizeText, Leads, MintCell, CellFamily, StaysClear;
    ops := [];
    LeadsNowhere(st);
    if cell != "" && st.loaded {
      ops := TextIsRun(st, cell, p.prefix);
      var w := SanitizeText(st, cell, p.prefix);
      if w.Done? && !(Changes(w.doc) > 0 || !p.missing || |cell| < SENSITIVE_CELL_MIN) && !StaysClear(p, typed) {
        var op := OpMintCell(CellFamily(p, typed), cell);
        LeadsOne(w.st, op);
        LeadsOn(st, ops, w.st, [op], MintCell(w.st, CellFamily(p, typed), cell).st);
        ops := ops + [op];
      }
    }
  }

  lemma {:induction false} RowIsRun(q: Request, first: seq<string>, head: bool, st: Store, cache: Cache,
                                    row: seq<string>, j: nat)
    returns (ops: seq<Op>)
    requires j <= |row|
    ensures Leads(st, ops, RunRow(q, first, head, true, st, cache, row, j).st)
    decreases |row| - j
  {
    hide SanitizeCell, PlanOf, Leads;
    ops := [];
    LeadsNowhere(st);
    if j < |row| {
      var p := PlanOf(q, first, j);
      var r := RunCell(q, p, head, true, st, cache, row[j]);
      if row[j] != "" && (head || KeyOf(p, row[j]) !in cache) {
        ops := CellIsRun(st, row[j], if head then HEAD else p, !head && q.typed);
      }
      if r.Ran? {
        var rest := RowIsRun(q, first, head, r.st, r.cache, row, j + 1);
        LeadsOn(st, ops, r.st, rest, RunRow(q, first, head, true, r.st, r.cache, row, j + 1).st);
        ops := ops + rest;
      }
    }
  }

  lemma {:induction false} TableIsRun(q: Request, st: Store, cache: Cache, rows: seq<seq<string>>, i: nat)
    returns (ops: seq<Op>)
    requires i <= |rows|
    ensures Leads(st, ops, RunRows(q, true, st, cache, rows, i).st)
    decreases |rows| - i
  {
    hide RunRow, Leads;
    ops := [];
    LeadsNowhere(st);
    if i < |rows| {
      var head := q.header && i == 0;
      ops := RowIsRun(q, rows[0], head, st, cache, rows[i], 0);
      var r := RunRow(q, rows[0], head, true, st, cache, rows[i], 0);
      if r.Ran? {
        var rest := TableIsRun(q, r.st, r.cache, rows, i + 1);
        LeadsOn(st, ops, r.st, rest, RunRows(q, true, r.st, r.cache, rows, i + 1).st);
        ops := ops + rest;
      }
    }
  }

  lemma {:induction false} WalkIsRun(st: Store, j: Json) returns (ops: seq<Op>)
    ensures Leads(st, ops, WalkJson(st, j).st)
    decreases j
  {
    hide SanitizeText, Leads;
    match j
    case Str(s) => ops := TextIsRun(st, s, PWD);
    case Arr(items) => ops := ItemsAreRun(st, items);
    case Obj(fields) => ops := FieldsAreRun(st, fields);
    case _ =>
      ops := [];
      LeadsNowhere(st);
  }

  lemma {:induction false} ItemsAreRun(st: Store, items: seq<Json>) returns (ops: seq<Op>)
    ensures Leads(st, ops, WalkItems(st, items).st)
    decreases items
  {
    hide WalkJson, Leads;
    ops := [];
    LeadsNowhere(st);
    if items != [] {
      ops := WalkIsRun(st, items[0]);
      var w := WalkJson(st, items[0]);
      if w.Walked? {
        var rest := ItemsAreRun(w.st, items[1..]);
        LeadsOn(st, ops, w.st, rest, WalkItems(w.st, items[1..]).st);
        ops := ops + rest;
      }
    }
  }

  lemma {:induction false} FieldsAreRun(st: Store, fields: seq<Field>) returns (ops: seq<Op>)
    ensures Leads(st, ops, WalkFields(st, fields).st)
    decreases fields
  {
    hide WalkJson, Leads;
    ops := [];
    LeadsNowhere(st);
    if fields != [] {
      ops := WalkIsRun(st, fields[0].value);
      var w := WalkJson(st, fields[0].value);
      if w.Walked? {
        var rest := FieldsAreRun(w.st, fields[1..]);
        LeadsOn(st, ops, w.st, rest, WalkFields(w.st, fields[1..]).st);
        ops := ops + rest;
      }
    }
  }

  lemma {:induction false} BodyIsRun(codec: Codec, st: Store, raw: string) returns (ops: seq<Op>)
    ensures Leads(st, ops, SendBody(codec, st, raw).st)
  {
    hide SanitizeText, WalkJson, Leads;
    ops := [];
    LeadsNowhere(st);
    if st.loaded {
      var j := codec.parse(raw);
      if j.None? {
        ops := TextIsRun(st, raw, PWD);
      } else {
        ops := WalkIsRun(st, j.value);
      }
    }
  }

  /** A call other than a single step is a run within the epoch. */
  lemma {:induction false} CallIsRun(st: Store, c: Call) returns (ops: seq<Op>)
    ensures StoreRuns.Run(st, ops) == Serve(st, c)
    ensures if c.CallStep? then ops == [c.op] else OneEpoch(ops)
  {
    hide SanitizeText, RunRows, SendBody, Step;
    match c
    case CallStep(op) =>
      ops := [op];
      RunStep(st, op, []);
    case CallText(text, prefix) =>
      ops := [];
      if st.loaded {
        ops := TextIsRun(st, text, prefix);
      }
    case CallTable(q, rows) =>
      ops := [];
      if ValidRequest(q) {
        ops := TableIsRun(q, st, map[], rows, 0);
      }
    case CallBody(codec, raw) => ops := BodyIsRun(codec, st, raw);
  }

  /** Any sequence of calls is a run of steps; the loads and locks in it are those that were
      called. */
  lemma {:induction false} SessionIsRun(st: Store, calls: seq<Call>) returns (ops: seq<Op>)
    ensures StoreRuns.Run(st, ops) == ServeAll(st, calls)
    ensures forall op | op in ops && (op.OpLoad? || op.OpLock?) :: CallStep(op) in calls
    decreases |calls|
  {
    hide Serve;
    ops := [];
    if calls != [] {
      var first := CallIsRun(st, calls[0]);
      var rest := SessionIsRun(Serve(st, calls[0]), calls[1..]);
      RunJoins(st, first, rest);
      ops := first + rest;
      assert calls == [calls[0]] + calls[1..];
      assert forall op | op in rest && (op.OpLoad? || op.OpLock?) :: CallStep(op) in calls[1..];
    }
  }

  // ---------- what every session keeps ----------

  /** The session goes on: no load and no lock is called. */
  ghost predicate GoesOn(calls: seq<Call>) { forall c | c in calls && c.CallStep? :: !c.op.OpLoad? && !c.op.OpLock? }

  ghost predicate NoLoad(calls: seq<Call>) { forall c | c in calls && c.CallStep? :: !c.op.OpLoad? }

  /** Whatever is called, in whatever order: the family cache is right when it is there, every
      key of the core index is a core or the end of a whole-cell tag, and families are forgotten
      by a load only; within an epoch no entry is removed or remapped, and every vault value
      keeps a default tag. */
  lemma {:induction false} SessionKeeps(st: Store, calls: seq<Call>)
    requires Coherent(st) && Keyed(st)
    ensures Coherent(ServeAll(st, calls)) && Keyed(ServeAll(st, calls))
    ensures NoLoad(calls) ==> st.session <= ServeAll(st, calls).session
    ensures GoesOn(calls) ==> Later(st, ServeAll(st, calls)) && (Tagged(st) ==> Tagged(ServeAll(st, calls)))
  {
    hide StoreRuns.Run, ServeAll, Coherent, Keyed, Later, Tagged;
    var ops := SessionIsRun(st, calls);
    RunKeepsFamilies(st, ops);
    RunKeyed(st, ops);
    if NoLoad(calls) {
      assert forall op | op in ops :: !op.OpLoad?;
    }
    if GoesOn(calls) {
      assert OneEpoch(ops);
      RunIsLater(st, ops);
      if Tagged(st) {
        TaggedLater(st, ServeAll(st, calls));
      }
    }
  }

  /** A text that was sanitized restores at any later time of the session, whatever texts,
      tables and bodies were sanitized and whatever was tagged in between. */
  lemma {:induction false} SessionRoundTrip(st: Store, s: string, prefix: string, calls: seq<Call>)
    requires Coherent(st) && GoesOn(calls) && SanitizeText(st, s, prefix).Done?
    requires var w := SanitizeText(st, s, prefix);
             ExtraFree(w.st) && Separated(w.doc) && QuietLits(TablesOf(ServeAll(w.st, calls)), w.doc)
    ensures var w := SanitizeText(st, s, prefix);
            var t := TablesOf(ServeAll(w.st, calls));
            RestoreAll(t, Render(w.doc)) == Expand(t, w.doc)
            && (Fresh(w.doc) ==> RestoreAll(t, Render(w.doc)) == Output(s, Changes(w.doc)))
  {
    hide SanitizeText, ServeAll, StoreRuns.Run, RestoreAll, Separated, QuietLits, Expand, Coherent, ExtraFree;
    var w := SanitizeText(st, s, prefix);
    SanitizeIsGood(st, s, prefix);
    var ops := SessionIsRun(w.st, calls);
    assert OneEpoch(ops);
    RunIsLater(w.st, ops);
    RoundTrip.RoundTrip(st, s, prefix, TablesOf(ServeAll(w.st, calls)));
  }
}
