/** JSON values as the service walks them: objects keep their keys in order, numbers keep
    their digits, and only string values are ever looked into. Reading and writing the text
    of a document is a pair of functions of which nothing is known; a theorem that needs them
    to agree says so. */
module Json {
  import opened Text

  datatype Json =
    | Null
    | Bool(b: bool)
    | Number(digits: string)
    | Str(s: string)
    | Arr(items: seq<Json>)
    | Obj(fields: seq<Field>)

  datatype Field = Field(key: string, value: Json)

  /** Reading and writing JSON text, as the library does it. */
  datatype Codec = Codec(parse: string -> Option<Json>, dump: Json -> string)

  /** Index of the first field with this key. */
  function Lookup(fs: seq<Field>, key: string): (i: nat)
    ensures i <= |fs| && (i < |fs| ==> fs[i].key == key)
    ensures forall k | 0 <= k < i :: fs[k].key != key
    decreases |fs|
  {
    if fs == [] || fs[0].key == key then 0 else 1 + Lookup(fs[1..], key)
  }

  predicate Has(fs: seq<Field>, key: string) { Lookup(fs, key) < |fs| }

  function Get(fs: seq<Field>, key: string): Json
    requires Has(fs, key)
  {
    fs[Lookup(fs, key)].value
  }

  function Put(fs: seq<Field>, key: string, v: Json): seq<Field>
    requires Has(fs, key)
  {
    fs[Lookup(fs, key) := Field(key, v)]
  }

  lemma {:induction false} LookupSame(a: seq<Field>, b: seq<Field>, key: string)
    requires |a| == |b| && forall i | 0 <= i < |a| :: a[i].key == b[i].key
    ensures Lookup(a, key) == Lookup(b, key)
    decreases |a|
  {
    if a != [] {
      LookupSame(a[1..], b[1..], key);
    }
  }

  lemma PutGet(fs: seq<Field>, key: string, v: Json, other: string)
    requires Has(fs, key)
    ensures Has(Put(fs, key, v), other) <==> Has(fs, other)
    ensures Has(fs, other) ==> Get(Put(fs, key, v), other) == if other == key then v else Get(fs, other)
  {
    LookupSame(fs, Put(fs, key, v), other);
  }
}
