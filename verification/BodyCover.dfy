/** What is sent of a body, string by string: each is spelled by a document that holds no vault
    value outside its tags. */
module BodyCover {
  import opened Text
  import Restore
  import opened TagStore
  import opened Sanitize
  import opened Json
  import opened JsonBody

  /** The strings of a tree, from left to right. */
  function Leaves(j: Json): seq<string>
    decreases j
  {
    match j
    case Str(s) => [s]
    case Arr(items) => LeavesOf(items)
    case Obj(fields) => LeavesIn(fields)
    case _ => []
  }

  function LeavesOf(items: seq<Json>): seq<string>
    decreases items
  {
    if items == [] then [] else Leaves(items[0]) + LeavesOf(items[1..])
  }

  function LeavesIn(fields: seq<Field>): seq<string>
    decreases fields
  {
    if fields == [] then [] else Leaves(fields[0].value) + LeavesIn(fields[1..])
  }

  function Total(docs: seq<Doc>): nat
    decreases |docs|
  {
    if docs == [] then 0 else Changes(docs[0]) + Total(docs[1..])
  }

  /** A document that spells a string in and a string out, in the state `st`: no value between its
      tags, and every tag stands for what it replaced unless a whole-cell tag was taken. */
  ghost predicate Spells(st: Store, values: seq<string>, d: Doc, from: string, to: string) {
    Source(d) == from && Render(d) == to && LitsFree(d, values) && (ExtraFree(st) ==> AtomsHold(st, d))
  }

  ghost predicate Documents(st: Store, values: seq<string>, docs: seq<Doc>, ins: seq<string>, outs: seq<string>) {
    |docs| == |ins| == |outs| && forall i | 0 <= i < |docs| :: Spells(st, values, docs[i], ins[i], outs[i])
  }

  /** The strings out are spelled by documents of the strings in, with `n` replacements in all. */
  ghost predicate Covers(st: Store, values: seq<string>, ins: seq<string>, outs: seq<string>, n: nat) {
    exists docs :: Documents(st, values, docs, ins, outs) && Total(docs) == n
  }

  lemma {:induction false} TotalJoins(a: seq<Doc>, b: seq<Doc>)
    ensures Total(a + b) == Total(a) + Total(b)
    decreases |a|
  {
    if a == [] {
      assert a + b == b;
    } else {
      TotalJoins(a[1..], b);
      assert (a + b)[1..] == a[1..] + b;
    }
  }

  lemma CoversNothing(st: Store, values: seq<string>)
    ensures Covers(st, values, [], [], 0)
  {
    assert Documents(st, values, [], [], []) && Total([]) == 0;
  }

  lemma CoversOne(st: Store, values: seq<string>, d: Doc, from: string)
    requires Spells(st, values, d, from, Render(d))
    ensures Covers(st, values, [from], [Render(d)], Changes(d))
  {
    hide Spells;
    assert [d][1..] == [] && Total([d]) == Changes(d);
    assert Documents(st, values, [d], [from], [Render(d)]);
  }

  /** What was spelled earlier is spelled later, and the rest is put behind it. */
  lemma {:induction false} CoversJoin(a: Store, b: Store, values: seq<string>, i1: seq<string>, o1: seq<string>,
                                      n: nat, i2: seq<string>, o2: seq<string>, m: nat)
    requires Later(a, b) && Covers(a, values, i1, o1, n) && Covers(b, values, i2, o2, m)
    ensures Covers(b, values, i1 + i2, o1 + o2, n + m)
  {
    hide Spells;
    var d1 :| Documents(a, values, d1, i1, o1) && Total(d1) == n;
    var d2 :| Documents(b, values, d2, i2, o2) && Total(d2) == m;
    var docs := d1 + d2;
    TotalJoins(d1, d2);
    forall k | 0 <= k < |docs| ensures Spells(b, values, docs[k], (i1 + i2)[k], (o1 + o2)[k]) {
      if k < |d1| {
        SpellsLater(a, b, values, d1[k], i1[k], o1[k]);
      }
    }
    assert Documents(b, values, docs, i1 + i2, o1 + o2);
  }

  lemma SpellsLater(a: Store, b: Store, values: seq<string>, d: Doc, from: string, to: string)
    requires Later(a, b) && Spells(a, values, d, from, to)
    ensures Spells(b, values, d, from, to)
  {
    if ExtraFree(b) {
      ExtraFreeBack(a, b);
      AtomsHoldLater(a, b, d);
    }
  }

  lemma TextCovers(st: Store, s: string, prefix: string)
    requires Coherent(st) && SanitizeText(st, s, prefix).Done?
    ensures var w := SanitizeText(st, s, prefix); Covers(w.st, st.values, [s], [Render(w.doc)], Changes(w.doc))
  {
    hide SanitizeText;
    SanitizeIsGood(st, s, prefix);
    var w := SanitizeText(st, s, prefix);
    CoversOne(w.st, st.values, w.doc, s);
  }

  /** Every string of a walked tree is spelled by a document of the string that stood there. */
  lemma {:induction false} WalkCovers(st: Store, j: Json)
    requires Coherent(st) && WalkJson(st, j).Walked?
    ensures var w := WalkJson(st, j); Covers(w.st, st.values, Leaves(j), Leaves(w.value), w.count)
    decreases j
  {
    hide SanitizeText, Covers;
    match j
    case Str(s) => TextCovers(st, s, PWD);
    case Arr(items) => ItemsCover(st, items);
    case Obj(fields) => FieldsCover(st, fields);
    case _ => CoversNothing(st, st.values);
  }

  lemma {:induction false} ItemsCover(st: Store, items: seq<Json>)
    requires Coherent(st) && WalkItems(st, items).Walked?
    ensures var w := WalkItems(st, items); Covers(w.st, st.values, LeavesOf(items), LeavesOf(w.value), w.count)
    decreases items
  {
    hide WalkJson, Covers, Leaves, Coherent;
    if items == [] {
      CoversNothing(st, st.values);
    } else {
      var w := WalkJson(st, items[0]);
      WalkIsLater(st, items[0]);
      ItemsAreLater(w.st, items[1..]);
      var r := WalkItems(w.st, items[1..]);
      WalkCovers(st, items[0]);
      ItemsCover(w.st, items[1..]);
      CoversJoin(w.st, r.st, st.values, Leaves(items[0]), Leaves(w.value), w.count,
                 LeavesOf(items[1..]), LeavesOf(r.value), r.count);
      assert ([w.value] + r.value)[1..] == r.value;
    }
  }

  lemma {:induction false} FieldsCover(st: Store, fields: seq<Field>)
    requires Coherent(st) && WalkFields(st, fields).Walked?
    ensures var w := WalkFields(st, fields); Covers(w.st, st.values, LeavesIn(fields), LeavesIn(w.value), w.count)
    decreases fields
  {
    hide WalkJson, Covers, Leaves, Coherent;
    if fields == [] {
      CoversNothing(st, st.values);
    } else {
      var f := fields[0];
      var w := WalkJson(st, f.value);
      WalkIsLater(st, f.value);
      FieldsAreLater(w.st, fields[1..]);
      var r := WalkFields(w.st, fields[1..]);
      WalkCovers(st, f.value);
      FieldsCover(w.st, fields[1..]);
      CoversJoin(w.st, r.st, st.values, Leaves(f.value), Leaves(w.value), w.count,
                 LeavesIn(fields[1..]), LeavesIn(r.value), r.count);
      assert ([Field(f.key, w.value)] + r.value)[1..] == r.value;
    }
  }

  /** Restoring changes nothing but strings. */
  lemma {:induction false} BackKeepsShape(t: Restore.Tables, j: Json)
    ensures SameShape(j, BackJson(t, j).value)
    decreases j
  {
    match j
    case Arr(items) => ItemsBackShape(t, items);
    case Obj(fields) => FieldsBackShape(t, fields);
    case _ =>
  }

  lemma {:induction false} ItemsBackShape(t: Restore.Tables, items: seq<Json>)
    ensures SameItems(items, BackItems(t, items).value)
    decreases items
  {
    hide SameShape, BackJson;
    if items != [] {
      BackKeepsShape(t, items[0]);
      ItemsBackShape(t, items[1..]);
      assert items == [items[0]] + items[1..];
    }
  }

  lemma {:induction false} FieldsBackShape(t: Restore.Tables, fields: seq<Field>)
    ensures SameFields(fields, BackFields(t, fields).value)
    decreases fields
  {
    hide SameShape, BackJson;
    if fields != [] {
      BackKeepsShape(t, fields[0].value);
      FieldsBackShape(t, fields[1..]);
      assert fields == [fields[0]] + fields[1..];
    }
  }
}
