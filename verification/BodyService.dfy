/** Whole bodies: walked string by string where they are JSON, and printed anew. */
module BodyService {
  import opened Text
  import opened Restore
  import opened TagStore
  import opened Sanitize
  import opened RoundTrip
  import opened Json
  import opened JsonBody
  import opened BodyCover
  import E = Engine

  // ---------- what becomes of a body ----------

  /** A body that went through, with its count, or a refusal. */
  datatype Sent = Sent(st: Store, text: string, count: nat) | NotSent(st: Store)

  function SendBody(c: Codec, st: Store, raw: string): Sent {
    if !st.loaded then NotSent(st)
    else
      match c.parse(raw)
      case None =>
        (match SanitizeText(st, raw, PWD)
         case Failed(st1) => NotSent(st1)
         case Done(st1, d) => Sent(st1, Render(d), Changes(d)))
      case Some(j) =>
        match WalkJson(st, j)
        case Refused(st1) => NotSent(st1)
        case Walked(st1, v, n) => if n == 0 then Sent(st1, raw, 0) else Sent(st1, c.dump(v), n)
  }

  /** The unresolved tags of all strings, in order. */
  function Missed(t: Tables, seen: set<string>, j: Json): seq<string>
    decreases j
  {
    match j
    case Str(s) => RestoreAllReport(t, seen, s).unresolved
    case Arr(items) => MissedItems(t, seen, items)
    case Obj(fields) => MissedFields(t, seen, fields)
    case _ => []
  }

  function MissedItems(t: Tables, seen: set<string>, items: seq<Json>): seq<string>
    decreases items
  {
    if items == [] then [] else Missed(t, seen, items[0]) + MissedItems(t, seen, items[1..])
  }

  function MissedFields(t: Tables, seen: set<string>, fields: seq<Field>): seq<string>
    decreases fields
  {
    if fields == [] then [] else Missed(t, seen, fields[0].value) + MissedFields(t, seen, fields[1..])
  }

  function ReceiveBody(c: Codec, t: Tables, seen: set<string>, text: string): Restored {
    match c.parse(text)
    case None => RestoreAllReport(t, seen, text)
    case Some(j) =>
      var b := BackJson(t, j);
      Restored(if b.count == 0 then text else c.dump(b.value), b.count, Missed(t, seen, j))
  }

  /** The tags that the restores of some strings report, in order. */
  function Reported(t: Tables, seen: set<string>, strings: seq<string>): seq<string>
    decreases |strings|
  {
    if strings == [] then []
    else RestoreAllReport(t, seen, strings[0]).unresolved + Reported(t, seen, strings[1..])
  }

  lemma {:induction false} ReportedJoins(t: Tables, seen: set<string>, a: seq<string>, b: seq<string>)
    ensures Reported(t, seen, a + b) == Reported(t, seen, a) + Reported(t, seen, b)
    decreases |a|
  {
    hide RestoreAllReport;
    if a == [] {
      assert a + b == b;
    } else {
      assert (a + b)[1..] == a[1..] + b;
      ReportedJoins(t, seen, a[1..], b);
    }
  }

  /** A body reports what its strings report, from left to right. */
  lemma {:induction false} MissedIsLeaves(t: Tables, seen: set<string>, j: Json)
    ensures Missed(t, seen, j) == Reported(t, seen, Leaves(j))
    decreases j
  {
    hide RestoreAllReport;
    match j
    case Str(s) =>
      assert [s][1..] == [];
    case Arr(items) => MissedOfItems(t, seen, items);
    case Obj(fields) => MissedOfFields(t, seen, fields);
    case _ =>
  }

  lemma {:induction false} MissedOfItems(t: Tables, seen: set<string>, items: seq<Json>)
    ensures MissedItems(t, seen, items) == Reported(t, seen, LeavesOf(items))
    decreases items
  {
    hide Missed, Leaves, Reported;
    if items == [] {
      NothingReported(t, seen);
    } else {
      MissedIsLeaves(t, seen, items[0]);
      MissedOfItems(t, seen, items[1..]);
      ReportedJoins(t, seen, Leaves(items[0]), LeavesOf(items[1..]));
    }
  }

  lemma {:induction false} MissedOfFields(t: Tables, seen: set<string>, fields: seq<Field>)
    ensures MissedFields(t, seen, fields) == Reported(t, seen, LeavesIn(fields))
    decreases fields
  {
    hide Missed, Leaves, Reported;
    if fields == [] {
      NothingReported(t, seen);
    } else {
      MissedIsLeaves(t, seen, fields[0].value);
      MissedOfFields(t, seen, fields[1..]);
      ReportedJoins(t, seen, Leaves(fields[0].value), LeavesIn(fields[1..]));
    }
  }

  lemma NothingReported(t: Tables, seen: set<string>)
    ensures Reported(t, seen, []) == []
  {}

  // ---------- the body comes back ----------

  /** A document that differs from a parsed one in nothing but its strings is printed so that
      it is parsed again: a parser gives distinct keys and numbers that can be printed. */
  ghost predicate Faithful(c: Codec, j: Json) { forall k | SameShape(j, k) :: c.parse(c.dump(k)) == Some(k) }

  lemma {:induction false} SameAsItself(j: Json)
    ensures SameShape(j, j)
    decreases j
  {
    match j
    case Arr(items) =>
      forall i | 0 <= i < |items| ensures SameShape(items[i], items[i]) {
        SameAsItself(items[i]);
      }
    case Obj(fields) =>
      forall i | 0 <= i < |fields| ensures SameShape(fields[i].value, fields[i].value) {
        SameAsItself(fields[i].value);
      }
    case _ =>
  }

  /** A JSON body that was sent and comes back restored parses to what it was, with as many
      restorations as there were replacements; one in which nothing was replaced is sent
      as it stands, byte for byte. */
  lemma {:induction false} BodyRoundTrip(c: Codec, st: Store, raw: string, t: Tables, seen: set<string>)
    requires Coherent(st) && c.parse(raw).Some? && Faithful(c, c.parse(raw).value)
    requires SendBody(c, st, raw).Sent? && Reaches(SendBody(c, st, raw).st, t) && Readable(st, c.parse(raw).value, t)
    ensures var s := SendBody(c, st, raw);
            var r := ReceiveBody(c, t, seen, s.text);
            c.parse(r.text) == c.parse(raw) && r.count == s.count && (s.count == 0 ==> s.text == raw == r.text)
  {
    hide WalkJson, BackJson, Readable, Coherent, Reaches, Missed, SameShape;
    var j := c.parse(raw).value;
    SameAsItself(j);
    WalkKeepsShape(st, j);
    JsonRoundTrip(st, j, t);
    var w := WalkJson(st, j);
    if w.count == 0 {
      ZeroMeansSame(st, j);
    } else {
      assert c.parse(c.dump(w.value)) == Some(w.value);
      assert c.parse(c.dump(j)) == Some(j);
    }
  }

  // ---------- what is sent ----------

  /** What is sent for a body, `n` replacements in all: of one that is no JSON, what a document of it spells;
      of a JSON body, a tree that differs in its strings only, each spelled by a document of the string that stood
      there, printed unless it is the same tree. */
  ghost predicate Guarded(c: Codec, values: seq<string>, st: Store, raw: string, text: string, n: nat) {
    match c.parse(raw)
    case None => Covers(st, values, [raw], [text], n)
    case Some(j) =>
      exists v :: SameShape(j, v) && Covers(st, values, Leaves(j), Leaves(v), n)
                  && if n == 0 then v == j && text == raw else text == c.dump(v)
  }

  /** Whatever is sent is guarded like this; what a faithful codec reads in it is the tree. */
  lemma {:induction false} BodyIsGuarded(c: Codec, st: Store, raw: string)
    requires Coherent(st) && SendBody(c, st, raw).Sent?
    ensures var s := SendBody(c, st, raw);
            Later(st, s.st) && Guarded(c, st.values, s.st, raw, s.text, s.count)
            && (c.parse(raw).Some? && Faithful(c, c.parse(raw).value) ==>
                  c.parse(s.text).Some? && SameShape(c.parse(raw).value, c.parse(s.text).value)
                  && Covers(s.st, st.values, Leaves(c.parse(raw).value), Leaves(c.parse(s.text).value), s.count))
  {
    hide SanitizeText, WalkJson, SameShape, Covers, Coherent, Leaves;
    match c.parse(raw)
    case None =>
      SanitizeIsGood(st, raw, PWD);
      TextCovers(st, raw, PWD);
    case Some(j) =>
      WalkIsLater(st, j);
      WalkKeepsShape(st, j);
      WalkCovers(st, j);
      var w := WalkJson(st, j);
      if w.count == 0 {
        ZeroMeansSame(st, j);
      }
      assert SameShape(j, w.value);
  }

  /** A body that is no JSON comes back as it was, with as many restorations as there were replacements, exactly when
      what was sent is no JSON either. */
  lemma {:induction false} TextBodyRoundTripIff(c: Codec, st: Store, raw: string, t: Tables, seen: set<string>)
    requires Coherent(st) && c.parse(raw).None? && SendBody(c, st, raw).Sent?
    requires Reaches(SendBody(c, st, raw).st, t) && Readable(st, Str(raw), t)
    requires var s := SendBody(c, st, raw).text; c.parse(s).Some? ==> Faithful(c, c.parse(s).value)
    ensures var s := SendBody(c, st, raw);
            var r := ReceiveBody(c, t, seen, s.text);
            (r.text == raw <==> c.parse(s.text).None?) && (c.parse(s.text).None? ==> r.count == s.count)
  {
    hide SanitizeText, BackJson, Coherent, Reaches, Missed, SameShape, RestoreAll, RestoreAllReport;
    var s := SendBody(c, st, raw);
    JsonRoundTrip(st, Str(raw), t) by { assert WalkJson(st, Str(raw)).Walked?; }
    BackOfString(t, s.text);
    ReportIsRestore(t, seen, s.text);
    if c.parse(s.text).Some? {
      var j := c.parse(s.text).value;
      BackKeepsShape(t, j);
      assert c.parse(c.dump(BackJson(t, j).value)).Some?;
    }
  }

  lemma BackOfString(t: Tables, s: string)
    ensures BackJson(t, Str(s)) == Back(Str(RestoreAll(t, s).text), RestoreAll(t, s).count)
  {}

  /** Nothing is sent in clear without a vault. */
  lemma LockedSendsNothing(c: Codec, st: Store, salt: string, raw: string)
    ensures SendBody(c, Lock(st, salt), raw) == NotSent(Lock(st, salt))
  {}

  // ---------- the walks ----------

  /** A walk with something done before it. */
  function WalkOnto<T>(done: seq<T>, n: nat, w: Walk<seq<T>>): Walk<seq<T>> {
    match w
    case Refused(st) => Refused(st)
    case Walked(st, more, m) => Walked(st, done + more, n + m)
  }

  function WalkOutcome<T>(w: Walk<T>): Option<(T, nat)> {
    match w
    case Refused(_) => None
    case Walked(_, v, n) => Some((v, n))
  }

  lemma WalkOntoNothing<T>(w: Walk<seq<T>>)
    ensures WalkOnto([], 0, w) == w
  {
    if w.Walked? {
      assert [] + w.value == w.value;
    }
  }

  lemma WalkOntoMore<T>(done: seq<T>, n: nat, x: T, k: nat, w: Walk<seq<T>>)
    ensures w.Walked? ==> WalkOnto(done, n, Walked(w.st, [x] + w.value, k + w.count)) == WalkOnto(done + [x], n + k, w)
  {
    if w.Walked? {
      assert done + ([x] + w.value) == done + [x] + w.value;
    }
  }

  lemma {:induction false} NextItem(st: Store, items: seq<Json>, done: seq<Json>, n: nat)
    requires items != []
    ensures var w := WalkJson(st, items[0]);
            WalkOnto(done, n, WalkItems(st, items))
            == if w.Refused? then Refused(w.st)
               else WalkOnto(done + [w.value], n + w.count, WalkItems(w.st, items[1..]))
  {
    hide WalkJson;
    var w := WalkJson(st, items[0]);
    if w.Walked? {
      WalkOntoMore(done, n, w.value, w.count, WalkItems(w.st, items[1..]));
    }
  }

  lemma {:induction false} NextField(st: Store, fields: seq<Field>, done: seq<Field>, n: nat)
    requires fields != []
    ensures var w := WalkJson(st, fields[0].value);
            WalkOnto(done, n, WalkFields(st, fields))
            == if w.Refused? then Refused(w.st)
               else WalkOnto(done + [Field(fields[0].key, w.value)], n + w.count, WalkFields(w.st, fields[1..]))
  {
    hide WalkJson;
    var w := WalkJson(st, fields[0].value);
    if w.Walked? {
      WalkOntoMore(done, n, Field(fields[0].key, w.value), w.count, WalkFields(w.st, fields[1..]));
    }
  }

  lemma NothingLeft<T>(done: seq<T>, n: nat, st: Store)
    ensures WalkOnto(done, n, Walked(st, [], 0)) == Walked(st, done, n)
  {
    assert done + [] == done;
  }

  /** Every string value sanitized, and how many replacements that took. */
  method WalkStrings(san: E.Sanitizer, j: Json) returns (r: Option<(Json, nat)>)
    requires san.loaded && Coherent(san.State())
    modifies san`tags, san`cores, san`fams, san`session, san`replaced
    ensures san.State() == WalkJson(old(san.State()), j).st
    ensures r == WalkOutcome(WalkJson(old(san.State()), j))
    decreases j
  {
    hide SanitizeText, Draft, WalkItems, WalkFields, Coherent;
    match j
    case Str(s) =>
      var out := san.Sanitize(s, PWD);
      r := if out.Clean? then Some((Str(out.text), out.count)) else None;
    case Arr(items) =>
      var xs := WalkList(san, items);
      r := if xs.None? then None else Some((Arr(xs.value.0), xs.value.1));
    case Obj(fields) =>
      var fs := WalkDict(san, fields);
      r := if fs.None? then None else Some((Obj(fs.value.0), fs.value.1));
    case _ =>
      r := Some((j, 0));
  }

  method WalkList(san: E.Sanitizer, items: seq<Json>) returns (r: Option<(seq<Json>, nat)>)
    requires san.loaded && Coherent(san.State())
    modifies san`tags, san`cores, san`fams, san`session, san`replaced
    ensures san.State() == WalkItems(old(san.State()), items).st
    ensures r == WalkOutcome(WalkItems(old(san.State()), items))
    decreases items
  {
    hide WalkJson, WalkItems, Coherent;
    var out: seq<Json>, total: nat, i := [], 0, 0;
    WalkOntoNothing(WalkItems(san.State(), items));
    assert items[0..] == items;
    while i < |items|
      invariant 0 <= i <= |items| && san.loaded && Coherent(san.State())
      invariant WalkOnto(out, total, WalkItems(san.State(), items[i..])) == WalkItems(old(san.State()), items)
    {
      Shift(items, i);
      NextItem(san.State(), items[i..], out, total);
      WalkIsLater(san.State(), items[i]);
      var x := WalkStrings(san, items[i]);
      if x.None? {
        return None;
      }
      out, total, i := out + [x.value.0], total + x.value.1, i + 1;
    }
    assert items[i..] == [];
    NoItems(san.State());
    NothingLeft(out, total, san.State());
    r := Some((out, total));
  }

  method WalkDict(san: E.Sanitizer, fields: seq<Field>) returns (r: Option<(seq<Field>, nat)>)
    requires san.loaded && Coherent(san.State())
    modifies san`tags, san`cores, san`fams, san`session, san`replaced
    ensures san.State() == WalkFields(old(san.State()), fields).st
    ensures r == WalkOutcome(WalkFields(old(san.State()), fields))
    decreases fields
  {
    hide WalkJson, WalkFields, Coherent;
    var out: seq<Field>, total: nat, i := [], 0, 0;
    WalkOntoNothing(WalkFields(san.State(), fields));
    assert fields[0..] == fields;
    while i < |fields|
      invariant 0 <= i <= |fields| && san.loaded && Coherent(san.State())
      invariant WalkOnto(out, total, WalkFields(san.State(), fields[i..])) == WalkFields(old(san.State()), fields)
    {
      Shift(fields, i);
      NextField(san.State(), fields[i..], out, total);
      WalkIsLater(san.State(), fields[i].value);
      var x := WalkStrings(san, fields[i].value);
      if x.None? {
        return None;
      }
      out, total, i := out + [Field(fields[i].key, x.value.0)], total + x.value.1, i + 1;
    }
    assert fields[i..] == [];
    NoFields(san.State());
    NothingLeft(out, total, san.State());
    r := Some((out, total));
  }

  lemma NoItems(st: Store)
    ensures WalkItems(st, []) == Walked(st, [], 0)
  {}

  lemma NoFields(st: Store)
    ensures WalkFields(st, []) == Walked(st, [], 0)
  {}

  /** Refused without a vault; text and count otherwise, unless no tag is left to mint. */
  method SanitizeBody(san: E.Sanitizer, c: Codec, raw: string) returns (r: Option<(string, nat)>)
    requires Coherent(san.State())
    modifies san`tags, san`cores, san`fams, san`session, san`replaced
    ensures san.State() == SendBody(c, old(san.State()), raw).st
    ensures var s := SendBody(c, old(san.State()), raw);
            r == if s.NotSent? then None else Some((s.text, s.count))
    ensures r.Some? ==> old(san.loaded) && Guarded(c, old(san.values), san.State(), raw, r.value.0, r.value.1)
  {
    hide SanitizeText, Draft, WalkJson, Coherent, Guarded;
    if SendBody(c, san.State(), raw).Sent? {
      BodyIsGuarded(c, san.State(), raw);
    }
    if !san.loaded {
      return None;
    }
    var payload := c.parse(raw);
    if payload.None? {
      var out := san.Sanitize(raw, PWD);
      return if out.Clean? then Some((out.text, out.count)) else None;
    }
    var out := WalkStrings(san, payload.value);
    if out.None? {
      return None;
    }
    if out.value.1 == 0 {
      return Some((raw, 0));
    }
    return Some((c.dump(out.value.0), out.value.1));
  }

  // ---------- the way back ----------

  /** Restored value, restorations, and unresolved tags in order. */
  datatype Returned<T> = Returned(value: T, count: nat, missed: seq<string>)

  function ReturnOnto<T>(done: seq<T>, n: nat, missed: seq<string>, b: Back<seq<T>>,
                         more: seq<string>): Returned<seq<T>> {
    Returned(done + b.value, n + b.count, missed + more)
  }

  lemma ReturnOntoMore<T>(done: seq<T>, n: nat, missed: seq<string>, x: T, k: nat, m: seq<string>, b: Back<seq<T>>,
                          more: seq<string>)
    ensures ReturnOnto(done, n, missed, Back([x] + b.value, k + b.count), m + more)
         == ReturnOnto(done + [x], n + k, missed + m, b, more)
  {
    assert done + ([x] + b.value) == done + [x] + b.value;
    assert missed + (m + more) == missed + m + more;
  }

  lemma ReturnOntoNothing<T>(b: Back<seq<T>>, more: seq<string>)
    ensures ReturnOnto([], 0, [], b, more) == Returned(b.value, b.count, more)
  {
    assert [] + b.value == b.value && [] + more == more;
  }

  lemma {:induction false} NextItemBack(t: Tables, seen: set<string>, items: seq<Json>, done: seq<Json>, n: nat,
                                        missed: seq<string>)
    requires items != []
    ensures var b := BackJson(t, items[0]);
            ReturnOnto(done, n, missed, BackItems(t, items), MissedItems(t, seen, items))
            == ReturnOnto(done + [b.value], n + b.count, missed + Missed(t, seen, items[0]),
                          BackItems(t, items[1..]), MissedItems(t, seen, items[1..]))
  {
    hide BackJson, Missed;
    var b := BackJson(t, items[0]);
    ReturnOntoMore(done, n, missed, b.value, b.count, Missed(t, seen, items[0]),
                   BackItems(t, items[1..]), MissedItems(t, seen, items[1..]));
  }

  lemma {:induction false} NextFieldBack(t: Tables, seen: set<string>, fields: seq<Field>, done: seq<Field>, n: nat,
                                         missed: seq<string>)
    requires fields != []
    ensures var b := BackJson(t, fields[0].value);
            ReturnOnto(done, n, missed, BackFields(t, fields), MissedFields(t, seen, fields))
            == ReturnOnto(done + [Field(fields[0].key, b.value)], n + b.count,
                          missed + Missed(t, seen, fields[0].value),
                          BackFields(t, fields[1..]), MissedFields(t, seen, fields[1..]))
  {
    hide BackJson, Missed;
    var b := BackJson(t, fields[0].value);
    ReturnOntoMore(done, n, missed, Field(fields[0].key, b.value), b.count, Missed(t, seen, fields[0].value),
                   BackFields(t, fields[1..]), MissedFields(t, seen, fields[1..]));
  }

  /** The families that make an unknown tag worth reporting. */
  function SeenBy(st: Store): set<string> { Families(st.tags) + st.session }

  method ReturnStrings(san: E.Sanitizer, j: Json) returns (r: Returned<Json>)
    requires Coherent(san.State())
    modifies san`fams
    ensures Coherent(san.State())
    ensures var t, seen := TablesOf(san.State()), SeenBy(san.State());
            r == Returned(BackJson(t, j).value, BackJson(t, j).count, Missed(t, seen, j))
    decreases j
  {
    hide RestoreAllReport, RestoreAll, Families, BackItems, BackFields;
    ghost var t, seen := TablesOf(san.State()), SeenBy(san.State());
    match j
    case Str(s) =>
      GetFamsKeeps(san.State());
      var o := san.DesanitizeMulti(s);
      ReportIsRestore(t, seen, s);
      r := Returned(Str(o.text), o.count, o.unresolved);
    case Arr(items) =>
      var xs := ReturnList(san, items);
      r := Returned(Arr(xs.value), xs.count, xs.missed);
    case Obj(fields) =>
      var fs := ReturnDict(san, fields);
      r := Returned(Obj(fs.value), fs.count, fs.missed);
    case _ =>
      r := Returned(j, 0, []);
  }

  method ReturnList(san: E.Sanitizer, items: seq<Json>) returns (r: Returned<seq<Json>>)
    requires Coherent(san.State())
    modifies san`fams
    ensures Coherent(san.State())
    ensures var t, seen := TablesOf(san.State()), SeenBy(san.State());
            r == Returned(BackItems(t, items).value, BackItems(t, items).count, MissedItems(t, seen, items))
    decreases items
  {
    hide BackJson, Missed, Coherent, Families, BackItems, MissedItems;
    ghost var t, seen := TablesOf(san.State()), SeenBy(san.State());
    r := Returned([], 0, []);
    var i := 0;
    ReturnOntoNothing(BackItems(t, items), MissedItems(t, seen, items));
    assert items[0..] == items;
    while i < |items|
      invariant 0 <= i <= |items| && Coherent(san.State())
      invariant ReturnOnto(r.value, r.count, r.missed, BackItems(t, items[i..]), MissedItems(t, seen, items[i..]))
             == Returned(BackItems(t, items).value, BackItems(t, items).count, MissedItems(t, seen, items))
    {
      Shift(items, i);
      NextItemBack(t, seen, items[i..], r.value, r.count, r.missed);
      var x := ReturnStrings(san, items[i]);
      r := Returned(r.value + [x.value], r.count + x.count, r.missed + x.missed);
      i := i + 1;
    }
    assert items[i..] == [];
    NoItemsBack(t, seen);
    assert r.value + [] == r.value && r.missed + [] == r.missed;
  }

  method ReturnDict(san: E.Sanitizer, fields: seq<Field>) returns (r: Returned<seq<Field>>)
    requires Coherent(san.State())
    modifies san`fams
    ensures Coherent(san.State())
    ensures var t, seen := TablesOf(san.State()), SeenBy(san.State());
            r == Returned(BackFields(t, fields).value, BackFields(t, fields).count, MissedFields(t, seen, fields))
    decreases fields
  {
    hide BackJson, Missed, Coherent, Families, BackFields, MissedFields;
    ghost var t, seen := TablesOf(san.State()), SeenBy(san.State());
    r := Returned([], 0, []);
    var i := 0;
    ReturnOntoNothing(BackFields(t, fields), MissedFields(t, seen, fields));
    assert fields[0..] == fields;
    while i < |fields|
      invariant 0 <= i <= |fields| && Coherent(san.State())
      invariant ReturnOnto(r.value, r.count, r.missed, BackFields(t, fields[i..]), MissedFields(t, seen, fields[i..]))
             == Returned(BackFields(t, fields).value, BackFields(t, fields).count, MissedFields(t, seen, fields))
    {
      Shift(fields, i);
      NextFieldBack(t, seen, fields[i..], r.value, r.count, r.missed);
      var x := ReturnStrings(san, fields[i].value);
      r := Returned(r.value + [Field(fields[i].key, x.value)], r.count + x.count, r.missed + x.missed);
      i := i + 1;
    }
    assert fields[i..] == [];
    NoFieldsBack(t, seen);
    assert r.value + [] == r.value && r.missed + [] == r.missed;
  }

  lemma NoItemsBack(t: Tables, seen: set<string>)
    ensures BackItems(t, []) == Back([], 0) && MissedItems(t, seen, []) == []
  {}

  lemma NoFieldsBack(t: Tables, seen: set<string>)
    ensures BackFields(t, []) == Back([], 0) && MissedFields(t, seen, []) == []
  {}

  method RestoreResponse(san: E.Sanitizer, c: Codec, text: string) returns (r: Restored)
    requires Coherent(san.State())
    modifies san`fams
    ensures r == ReceiveBody(c, TablesOf(san.State()), SeenBy(san.State()), text)
  {
    hide BackJson, Missed, RestoreAllReport, Families;
    var payload := c.parse(text);
    if payload.None? {
      r := san.DesanitizeMulti(text);
      return;
    }
    var b := ReturnStrings(san, payload.value);
    r := Restored(if b.count == 0 then text else c.dump(b.value), b.count, b.missed);
  }
}
