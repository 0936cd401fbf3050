/** The tag store as a value: one operation on the sanitizer's fields at a time. A digest
    is any function into 64 hex digits: nothing is assumed about collisions. */
module TagStore {
  import opened Text
  import opened Restore

  type Digest = d: string | |d| == 64 && AllHex(d) witness seq(64, i => '0')

  /** salt, message -> digest */
  type Mac = (string, string) -> Digest

  /** Core widths in bytes; a digest has thirty-two. */
  type Width = n: nat | 4 <= n <= 32 witness 4

  datatype Store = Store(
    mac: Mac,
    salt: string,
    values: seq<string>,            // plain secrets, then named values, each once
    tags: map<string, string>,      // tag -> value
    cores: map<string, string>,     // core -> value, whatever the family
    prefixes: map<string, string>,  // value -> column family
    extra: map<string, string>,     // cell -> whole-cell tag
    fams: Option<set<string>>,      // cached families of the tags
    session: set<string>,           // families seen since the last load
    loaded: bool)

  /** The first `2 * n` hex digits of the digest: shorter cores are prefixes of longer. */
  function Core(st: Store, v: string, n: Width): (c: string)
    ensures |c| == 2 * n && AllHex(c)
  {
    st.mac(st.salt, v)[..2 * n]
  }

  /** Position behind the last underscore, zero when there is none. */
  function FamilyEnd(t: string): (k: nat)
    ensures k <= |t| && (k > 0 ==> t[k - 1] == '_')
    ensures forall i | k <= i < |t| :: t[i] != '_'
    decreases |t|
  {
    if t == "" then 0
    else if t[|t| - 1] == '_' then |t|
    else FamilyEnd(t[..|t| - 1])
  }

  lemma FamilyEndIs(fam: string, core: string)
    requires fam != "" && fam[|fam| - 1] == '_' && AllHex(core)
    ensures FamilyEnd(fam + core) == |fam|
  {
    var t := fam + core;
    var k := FamilyEnd(t);
    assert t[|fam| - 1] == '_';
    assert forall i | 0 <= i < |core| :: t[|fam| + i] == core[i];
  }

  /** Families recorded for a tag: the text up to its last underscore, unless the
      underscore comes first. */
  function FamilyOf(t: string): set<string> {
    if FamilyEnd(t) > 1 then {t[..FamilyEnd(t)]} else {}
  }

  function Families(tags: map<string, string>): set<string> {
    set t, f | t in tags && f in FamilyOf(t) :: f
  }

  function TablesOf(st: Store): Tables { Tables(st.tags, st.cores) }

  // ---------- steps ----------

  /** Deriving a core refreshes the core index. */
  function Indexed(st: Store, v: string, n: Width): Store
  {
    st.(cores := st.cores[Core(st, v, n) := v])
  }

  /** Drop the cache and remember the family. */
  function Touched(st: Store, tag: string): Store {
    st.(fams := None, session := st.session + FamilyOf(tag))
  }

  /** An entry is added, never overwritten. */
  function Default(m: map<string, string>, k: string, v: string): map<string, string> {
    if k in m then m else m[k := v]
  }

  function Entered(st: Store, tag: string, v: string): Store {
    Touched(st.(tags := Default(st.tags, tag, v)), tag)
  }

  predicate Free(st: Store, tag: string, v: string) { tag in st.tags ==> st.tags[tag] == v }

  /** A state and, when an operation succeeded, the tag it returned. */
  datatype Minted = Minted(st: Store, tag: Option<string>)

  const MINT_WIDTHS: seq<Width> := [4, 6, 8, 10, 12]
  const RETAG_WIDTHS: seq<Width> := [4, 5, 6]
  const LOAD_WIDTHS: seq<Width> := [4, 6]

  /** The first width whose tag is free or already this value's. */
  function MintAt(st: Store, fam: string, v: string, ws: seq<Width>): Minted
    decreases |ws|
  {
    if ws == [] then Minted(st, None)
    else
      var tag := fam + Core(st, v, ws[0]);
      var st1 := Indexed(st, v, ws[0]);
      if Free(st1, tag, v) then Minted(Entered(st1, tag, v), Some(tag))
      else MintAt(st1, fam, v, ws[1..])
  }

  function Mint(st: Store, fam: string, v: string): Minted { MintAt(st, fam, v, MINT_WIDTHS) }

  function OrDefault(prefix: string): string { if prefix == "" then PWD else prefix }

  /** A foreign tag-shaped token: the core index keeps what it has. */
  function RetagAt(st: Store, fam: string, tok: string, ws: seq<Width>): Minted
    decreases |ws|
  {
    if ws == [] then Mint(st, fam, tok)
    else
      var core := Core(st, tok, ws[0]);
      var tag := fam + core;
      if Free(st, tag, tok) then
        Minted(Entered(st.(cores := Default(st.cores, core, tok)), tag, tok), Some(tag))
      else RetagAt(st, fam, tok, ws[1..])
  }

  function Retag(st: Store, tok: string, prefix: string): Minted {
    RetagAt(st, OrDefault(prefix), tok, RETAG_WIDTHS)
  }

  /** The family of a value: its column family, else the requested one. */
  function FamilyFor(st: Store, v: string, prefix: string): string {
    if v in st.prefixes && st.prefixes[v] != "" then st.prefixes[v] else OrDefault(prefix)
  }

  /** The registered default-family tag, if there is one at some of these widths. */
  function Registered(st: Store, v: string, ws: seq<Width>): Minted
    decreases |ws|
  {
    if ws == [] then Minted(st, None)
    else
      var tag := PWD + Core(st, v, ws[0]);
      var st1 := Indexed(st, v, ws[0]);
      if tag in st1.tags && st1.tags[tag] == v then Minted(st1, Some(tag))
      else Registered(st1, v, ws[1..])
  }

  function TagFor(st: Store, v: string, prefix: string): Minted {
    var fam := FamilyFor(st, v, prefix);
    if fam != PWD then Mint(st, fam, v)
    else
      var r := Registered(st, v, LOAD_WIDTHS);
      if r.tag.Some? then r else Mint(r.st, PWD, v)
  }

  /** What is left of a tag behind the length of a family, whatever family it has. */
  function KeyBehind(fam: string, tag: string): string { if |fam| <= |tag| then tag[|fam|..] else "" }

  /** A value with a whole-cell tag keeps that tag. */
  function UseExtra(st: Store, v: string): Minted
    requires v in st.extra
  {
    var tag := st.extra[v];
    var key := KeyBehind(FamilyFor(st, v, PWD), tag);
    var st1 := st.(tags := Default(st.tags, tag, v), cores := Default(st.cores, key, v));
    Minted(Touched(st1, tag), Some(tag))
  }

  /** The tag that replaces an occurrence of a value in a text. */
  function TagValue(st: Store, v: string, prefix: string): Minted {
    if v in st.extra then UseExtra(st, v) else TagFor(st, v, prefix)
  }

  /** A whole cell of a table gets a tag of its own. */
  function MintCell(st: Store, fam: string, cell: string): Minted {
    var m := Mint(st, fam, cell);
    match m.tag
    case None => m
    case Some(tag) => Minted(Entered(m.st, tag, cell).(extra := Default(m.st.extra, cell, tag)), m.tag)
  }

  function SetPrefixes(st: Store, m: map<string, string>): Store {
    st.(prefixes := st.prefixes + map v | v in m && IsPrefix(m[v]) :: m[v])
  }

  function GetFams(st: Store): Store {
    if st.fams.Some? then st else st.(fams := Some(Families(st.tags)))
  }

  function Lock(st: Store, salt: string): Store {
    st.(salt := salt, values := [], tags := map[], fams := None, cores := map[],
        prefixes := map[], extra := map[], loaded := false)
  }

  // ---------- what holds between a load and the next load or lock ----------

  /** `b` is a later state of the epoch of `a`: same keys, same vault, no entry removed
      or remapped, no family forgotten. */
  ghost predicate Later(a: Store, b: Store) {
    a.mac == b.mac && a.salt == b.salt && a.values == b.values && a.loaded == b.loaded
    && (forall k | k in a.tags :: k in b.tags && b.tags[k] == a.tags[k])
    && (forall k | k in a.extra :: k in b.extra && b.extra[k] == a.extra[k])
    && (forall k | k in a.cores :: k in b.cores)
    && a.session <= b.session
  }

  lemma LaterTransitive(a: Store, b: Store, c: Store)
    requires Later(a, b) && Later(b, c)
    ensures Later(a, c)
  {}

  /** A cache that is there is right, every family of the table is remembered, and no
      whole-cell tag is empty. */
  ghost predicate Coherent(st: Store) {
    (st.fams.Some? ==> st.fams.value == Families(st.tags)) && Families(st.tags) <= st.session
    && forall v | v in st.extra :: st.extra[v] != ""
  }

  lemma FamiliesOfDefault(tags: map<string, string>, k: string, v: string)
    ensures Families(Default(tags, k, v)) == Families(tags) + FamilyOf(k)
  {
    var m := Default(tags, k, v);
    assert m.Keys == tags.Keys + {k};
    if k in tags {
      assert forall f | f in FamilyOf(k) :: f in Families(tags);
    }
  }

  lemma EnteredKeeps(st: Store, tag: string, v: string)
    requires Free(st, tag, v)
    ensures Later(st, Entered(st, tag, v)) && tag in Entered(st, tag, v).tags
    ensures Entered(st, tag, v).tags[tag] == v && FamilyOf(tag) <= Entered(st, tag, v).session
    ensures Coherent(st) ==> Coherent(Entered(st, tag, v))
  {
    FamiliesOfDefault(st.tags, tag, v);
  }

  lemma {:induction false} MintAtKeeps(st: Store, fam: string, v: string, ws: seq<Width>)
    ensures var m := MintAt(st, fam, v, ws);
            Later(st, m.st) && (Coherent(st) ==> Coherent(m.st)) && MintedHolds(st, m, v)
    decreases |ws|
  {
    if ws != [] {
      var tag := fam + Core(st, v, ws[0]);
      var st1 := Indexed(st, v, ws[0]);
      if Free(st1, tag, v) {
        EnteredKeeps(st1, tag, v);
      } else {
        MintAtKeeps(st1, fam, v, ws[1..]);
        LaterTransitive(st, st1, MintAt(st1, fam, v, ws[1..]).st);
      }
    }
  }

  /** A returned tag is in the table, stands for the value, and its family is remembered. */
  ghost predicate MintedHolds(st: Store, m: Minted, v: string) {
    m.tag.Some? ==> m.tag.value != "" && m.tag.value in m.st.tags && m.st.tags[m.tag.value] == v
                    && FamilyOf(m.tag.value) <= m.st.session
  }

  lemma {:induction false} RetagAtKeeps(st: Store, fam: string, tok: string, ws: seq<Width>)
    ensures var m := RetagAt(st, fam, tok, ws);
            Later(st, m.st) && (Coherent(st) ==> Coherent(m.st)) && MintedHolds(st, m, tok)
    decreases |ws|
  {
    if ws == [] {
      MintAtKeeps(st, fam, tok, MINT_WIDTHS);
    } else {
      var core := Core(st, tok, ws[0]);
      var tag := fam + core;
      if Free(st, tag, tok) {
        EnteredKeeps(st.(cores := Default(st.cores, core, tok)), tag, tok);
      } else {
        RetagAtKeeps(st, fam, tok, ws[1..]);
      }
    }
  }

  lemma {:induction false} RegisteredKeeps(st: Store, v: string, ws: seq<Width>)
    ensures var m := Registered(st, v, ws);
            Later(st, m.st) && m.st.tags == st.tags && m.st.fams == st.fams && m.st.session == st.session
            && m.st == st.(cores := m.st.cores)
            && (m.tag.Some? ==> m.tag.value != "" && m.tag.value in st.tags && st.tags[m.tag.value] == v)
    decreases |ws|
  {
    if ws != [] {
      RegisteredKeeps(Indexed(st, v, ws[0]), v, ws[1..]);
    }
  }

  lemma FamilyRemembered(st: Store, tag: string)
    requires Coherent(st) && tag in st.tags
    ensures FamilyOf(tag) <= st.session
  {
    assert forall f | f in FamilyOf(tag) :: f in Families(st.tags);
  }

  lemma {:induction false} TagForKeeps(st: Store, v: string, prefix: string)
    requires Coherent(st)
    ensures var m := TagFor(st, v, prefix);
            Later(st, m.st) && Coherent(m.st) && MintedHolds(st, m, v)
  {
    var fam := FamilyFor(st, v, prefix);
    if fam != PWD {
      MintAtKeeps(st, fam, v, MINT_WIDTHS);
    } else {
      RegisteredKeeps(st, v, LOAD_WIDTHS);
      var r := Registered(st, v, LOAD_WIDTHS);
      if r.tag.Some? {
        FamilyRemembered(st, r.tag.value);
      } else {
        MintAtKeeps(r.st, PWD, v, MINT_WIDTHS);
        LaterTransitive(st, r.st, Mint(r.st, PWD, v).st);
      }
    }
  }
}
