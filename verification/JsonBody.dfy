/** Sanitizing and restoring JSON bodies: every string value, in order, while the store
    grows; keys and other leaves are never touched. */
module JsonBody {
  import opened Text
  import opened Restore
  import opened TagStore
  import opened Sanitize
  import opened RoundTrip
  import opened Json

  datatype Walk<T> = Walked(st: Store, value: T, count: nat) | Refused(st: Store)

  function WalkJson(st: Store, j: Json): Walk<Json>
    decreases j
  {
    match j
    case Str(s) =>
      (match SanitizeText(st, s, PWD)
       case Failed(st1) => Refused(st1)
       case Done(st1, d) => Walked(st1, Str(Render(d)), Changes(d)))
    case Arr(items) =>
      (match WalkItems(st, items)
       case Refused(st1) => Refused(st1)
       case Walked(st1, xs, n) => Walked(st1, Arr(xs), n))
    case Obj(fields) =>
      (match WalkFields(st, fields)
       case Refused(st1) => Refused(st1)
       case Walked(st1, fs, n) => Walked(st1, Obj(fs), n))
    case _ => Walked(st, j, 0)
  }

  function WalkItems(st: Store, items: seq<Json>): Walk<seq<Json>>
    decreases items
  {
    if items == [] then Walked(st, [], 0)
    else
      match WalkJson(st, items[0])
      case Refused(st1) => Refused(st1)
      case Walked(st1, x, n) =>
        match WalkItems(st1, items[1..])
        case Refused(st2) => Refused(st2)
        case Walked(st2, xs, m) => Walked(st2, [x] + xs, n + m)
  }

  function WalkFields(st: Store, fields: seq<Field>): Walk<seq<Field>>
    decreases fields
  {
    if fields == [] then Walked(st, [], 0)
    else
      match WalkJson(st, fields[0].value)
      case Refused(st1) => Refused(st1)
      case Walked(st1, x, n) =>
        match WalkFields(st1, fields[1..])
        case Refused(st2) => Refused(st2)
        case Walked(st2, fs, m) => Walked(st2, [Field(fields[0].key, x)] + fs, n + m)
  }

  /** Restoring every string value, with the number of restorations. */
  datatype Back<T> = Back(value: T, count: nat)

  function BackJson(t: Tables, j: Json): Back<Json>
    decreases j
  {
    match j
    case Str(s) => Back(Str(RestoreAll(t, s).text), RestoreAll(t, s).count)
    case Arr(items) => (var b := BackItems(t, items); Back(Arr(b.value), b.count))
    case Obj(fields) => (var b := BackFields(t, fields); Back(Obj(b.value), b.count))
    case _ => Back(j, 0)
  }

  function BackItems(t: Tables, items: seq<Json>): Back<seq<Json>>
    decreases items
  {
    if items == [] then Back([], 0)
    else
      var a, b := BackJson(t, items[0]), BackItems(t, items[1..]);
      Back([a.value] + b.value, a.count + b.count)
  }

  function BackFields(t: Tables, fields: seq<Field>): Back<seq<Field>>
    decreases fields
  {
    if fields == [] then Back([], 0)
    else
      var a, b := BackJson(t, fields[0].value), BackFields(t, fields[1..]);
      Back([Field(fields[0].key, a.value)] + b.value, a.count + b.count)
  }

  // ---------- what the walk leaves alone ----------

  /** Same keys, same lengths, same leaves that are no strings. */
  predicate SameShape(a: Json, b: Json)
    decreases a
  {
    match (a, b)
    case (Str(_), Str(_)) => true
    case (Arr(xs), Arr(ys)) => |xs| == |ys| && forall i | 0 <= i < |xs| :: SameShape(xs[i], ys[i])
    case (Obj(xs), Obj(ys)) =>
      |xs| == |ys| && forall i | 0 <= i < |xs| :: xs[i].key == ys[i].key && SameShape(xs[i].value, ys[i].value)
    case _ => a == b
  }

  predicate SameItems(xs: seq<Json>, ys: seq<Json>) {
    |xs| == |ys| && forall i | 0 <= i < |xs| :: SameShape(xs[i], ys[i])
  }

  predicate SameFields(xs: seq<Field>, ys: seq<Field>) {
    |xs| == |ys| && forall i | 0 <= i < |xs| :: xs[i].key == ys[i].key && SameShape(xs[i].value, ys[i].value)
  }

  lemma {:induction false} WalkKeepsShape(st: Store, j: Json)
    ensures WalkJson(st, j).Walked? ==> SameShape(j, WalkJson(st, j).value)
    decreases j
  {
    hide SanitizeText;
    match j
    case Arr(items) => ItemsKeepShape(st, items);
    case Obj(fields) => FieldsKeepShape(st, fields);
    case _ =>
  }

  lemma {:induction false} ItemsKeepShape(st: Store, items: seq<Json>)
    ensures WalkItems(st, items).Walked? ==> SameItems(items, WalkItems(st, items).value)
    decreases items
  {
    hide SameShape, WalkJson;
    if items != [] {
      WalkKeepsShape(st, items[0]);
      var w := WalkJson(st, items[0]);
      if w.Walked? {
        ItemsKeepShape(w.st, items[1..]);
        var r := WalkItems(w.st, items[1..]);
        if r.Walked? {
          assert items == [items[0]] + items[1..];
        }
      }
    }
  }

  lemma {:induction false} FieldsKeepShape(st: Store, fields: seq<Field>)
    ensures WalkFields(st, fields).Walked? ==> SameFields(fields, WalkFields(st, fields).value)
    decreases fields
  {
    hide SameShape, WalkJson;
    if fields != [] {
      WalkKeepsShape(st, fields[0].value);
      var w := WalkJson(st, fields[0].value);
      if w.Walked? {
        FieldsKeepShape(w.st, fields[1..]);
        var r := WalkFields(w.st, fields[1..]);
        if r.Walked? {
          assert fields == [fields[0]] + fields[1..];
        }
      }
    }
  }

  /** A total of zero means that every string is unchanged. */
  lemma {:induction false} ZeroMeansSame(st: Store, j: Json)
    requires Coherent(st) && WalkJson(st, j).Walked? && WalkJson(st, j).count == 0
    ensures WalkJson(st, j).value == j
    decreases j
  {
    hide SanitizeText;
    match j
    case Str(s) =>
      SanitizeIsGood(st, s, PWD);
      NoChangeNoEdit(SanitizeText(st, s, PWD).doc);
    case Arr(items) => ZeroItems(st, items);
    case Obj(fields) => ZeroFields(st, fields);
    case _ =>
  }

  lemma {:induction false} ZeroItems(st: Store, items: seq<Json>)
    requires Coherent(st) && WalkItems(st, items).Walked? && WalkItems(st, items).count == 0
    ensures WalkItems(st, items).value == items
    decreases items
  {
    hide WalkJson;
    if items != [] {
      ZeroMeansSame(st, items[0]);
      WalkIsLater(st, items[0]);
      ZeroItems(WalkJson(st, items[0]).st, items[1..]);
    }
  }

  lemma {:induction false} ZeroFields(st: Store, fields: seq<Field>)
    requires Coherent(st) && WalkFields(st, fields).Walked? && WalkFields(st, fields).count == 0
    ensures WalkFields(st, fields).value == fields
    decreases fields
  {
    hide WalkJson;
    if fields != [] {
      ZeroMeansSame(st, fields[0].value);
      WalkIsLater(st, fields[0].value);
      ZeroFields(WalkJson(st, fields[0].value).st, fields[1..]);
    }
  }

  /** The walk stays in the epoch of the state it starts from. */
  lemma {:induction false} WalkIsLater(st: Store, j: Json)
    requires Coherent(st)
    ensures Later(st, WalkJson(st, j).st) && Coherent(WalkJson(st, j).st)
    decreases j
  {
    hide SanitizeText;
    match j
    case Str(s) => SanitizeIsGood(st, s, PWD);
    case Arr(items) => ItemsAreLater(st, items);
    case Obj(fields) => FieldsAreLater(st, fields);
    case _ =>
  }

  lemma {:induction false} ItemsAreLater(st: Store, items: seq<Json>)
    requires Coherent(st)
    ensures Later(st, WalkItems(st, items).st) && Coherent(WalkItems(st, items).st)
    decreases items
  {
    hide WalkJson, Coherent;
    if items != [] {
      WalkIsLater(st, items[0]);
      var w := WalkJson(st, items[0]);
      if w.Walked? {
        ItemsAreLater(w.st, items[1..]);
        LaterTransitive(st, w.st, WalkItems(w.st, items[1..]).st);
      }
    }
  }

  lemma {:induction false} FieldsAreLater(st: Store, fields: seq<Field>)
    requires Coherent(st)
    ensures Later(st, WalkFields(st, fields).st) && Coherent(WalkFields(st, fields).st)
    decreases fields
  {
    hide WalkJson, Coherent;
    if fields != [] {
      WalkIsLater(st, fields[0].value);
      var w := WalkJson(st, fields[0].value);
      if w.Walked? {
        FieldsAreLater(w.st, fields[1..]);
        LaterTransitive(st, w.st, WalkFields(w.st, fields[1..]).st);
      }
    }
  }

  // ---------- the round trip ----------

  /** Every string leaf, sanitized in turn, gives a document that can be read back with
      these tables, and none of its tags was there before. */
  predicate Readable(st: Store, j: Json, t: Tables)
    decreases j
  {
    match j
    case Str(s) =>
      var w := SanitizeText(st, s, PWD);
      w.Done? ==> Separated(w.doc) && QuietLits(t, w.doc) && Fresh(w.doc)
    case Arr(items) => ReadableItems(st, items, t)
    case Obj(fields) => ReadableFields(st, fields, t)
    case _ => true
  }

  predicate ReadableItems(st: Store, items: seq<Json>, t: Tables)
    decreases items
  {
    items == []
    || (Readable(st, items[0], t) && ReadableItems(WalkJson(st, items[0]).st, items[1..], t))
  }

  predicate ReadableFields(st: Store, fields: seq<Field>, t: Tables)
    decreases fields
  {
    fields == []
    || (Readable(st, fields[0].value, t) && ReadableFields(WalkJson(st, fields[0].value).st, fields[1..], t))
  }

  /** Restoring a sanitized body gives the body back, with as many restorations as there
      were replacements, although the store grew from leaf to leaf. */
  lemma {:induction false} JsonRoundTrip(st: Store, j: Json, t: Tables)
    requires Coherent(st) && WalkJson(st, j).Walked? && Reaches(WalkJson(st, j).st, t) && Readable(st, j, t)
    ensures BackJson(t, WalkJson(st, j).value) == Back(j, WalkJson(st, j).count)
    decreases j
  {
    hide SanitizeText, RestoreAll, Separated, QuietLits, Fresh;
    match j
    case Str(s) => RoundTrip.RoundTrip(st, s, PWD, t);
    case Arr(items) => ItemsRoundTrip(st, items, t);
    case Obj(fields) => FieldsRoundTrip(st, fields, t);
    case _ =>
  }

  lemma {:induction false} ItemsRoundTrip(st: Store, items: seq<Json>, t: Tables)
    requires Coherent(st) && WalkItems(st, items).Walked? && Reaches(WalkItems(st, items).st, t)
    requires ReadableItems(st, items, t)
    ensures BackItems(t, WalkItems(st, items).value) == Back(items, WalkItems(st, items).count)
    decreases items
  {
    hide WalkJson, BackJson, Readable, Coherent, Reaches;
    if items != [] {
      var w := WalkJson(st, items[0]);
      WalkIsLater(st, items[0]);
      ItemsAreLater(w.st, items[1..]);
      var r := WalkItems(w.st, items[1..]);
      ReachesBack(w.st, r.st, t);
      JsonRoundTrip(st, items[0], t);
      ItemsRoundTrip(w.st, items[1..], t);
      var out := [w.value] + r.value;
      assert out[0] == w.value && out[1..] == r.value && items == [items[0]] + items[1..];
    }
  }

  lemma {:induction false} FieldsRoundTrip(st: Store, fields: seq<Field>, t: Tables)
    requires Coherent(st) && WalkFields(st, fields).Walked? && Reaches(WalkFields(st, fields).st, t)
    requires ReadableFields(st, fields, t)
    ensures BackFields(t, WalkFields(st, fields).value) == Back(fields, WalkFields(st, fields).count)
    decreases fields
  {
    hide WalkJson, BackJson, Readable, Coherent, Reaches;
    if fields != [] {
      var f := fields[0];
      var w := WalkJson(st, f.value);
      WalkIsLater(st, f.value);
      FieldsAreLater(w.st, fields[1..]);
      var r := WalkFields(w.st, fields[1..]);
      ReachesBack(w.st, r.st, t);
      JsonRoundTrip(st, f.value, t);
      FieldsRoundTrip(w.st, fields[1..], t);
      var out := [Field(f.key, w.value)] + r.value;
      assert out[0] == Field(f.key, w.value) && out[1..] == r.value && fields == [f] + fields[1..];
    }
  }
}
