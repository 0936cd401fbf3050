/** The tag store over whole runs: what an epoch keeps, and what a load establishes. */
module StoreRuns {
  import opened Text
  import opened Restore
  import opened TagStore

  // ---------- loading a vault ----------

  /** First occurrences, in order. */
  function Dedup(vs: seq<string>): (r: seq<string>)
    ensures forall v :: v in r <==> v in vs
    ensures Distinct(r)
    decreases |vs|
  {
    if vs == [] then []
    else
      var r := Dedup(vs[..|vs| - 1]);
      var v := vs[|vs| - 1];
      assert vs == vs[..|vs| - 1] + [v];
      if v in r then r else r + [v]
  }

  /** Another value of the vault has the same short core. */
  predicate Colliding(st: Store, all: seq<string>, v: string) {
    exists u :: u in all && u != v && Core(st, u, 4) == Core(st, v, 4)
  }

  function LoadWidth(st: Store, all: seq<string>, v: string): Width {
    if Colliding(st, all, v) then 6 else 4
  }

  /** The tag a vault value gets when it is loaded. */
  function LoadTag(st: Store, all: seq<string>, v: string): string {
    PWD + Core(st, v, LoadWidth(st, all, v))
  }

  function IndexAll(st: Store, vs: seq<string>): Store
    decreases |vs|
  {
    if vs == [] then st else IndexAll(Indexed(st, vs[0], 4), vs[1..])
  }

  datatype Loading = Loading(st: Store, ok: bool)

  /** Registering the values in order; a taken tag refuses the whole vault. */
  function Fill(st: Store, vs: seq<string>, all: seq<string>): Loading
    decreases |vs|
  {
    if vs == [] then Loading(st.(loaded := true), true)
    else
      var v := vs[0];
      var st1 := Indexed(st, v, LoadWidth(st, all, v));
      var tag := LoadTag(st, all, v);
      if !Free(st1, tag, v) then Loading(st1, false)
      else Fill(Filled(st1, tag, v), vs[1..], all)
  }

  lemma FillUnfolds(st: Store, vs: seq<string>, all: seq<string>, v: string, n: Width)
    requires vs != [] && v == vs[0] && n == LoadWidth(st, all, v)
    ensures var tag := PWD + Core(st, v, n);
            var st1 := Indexed(st, v, n);
            Fill(st, vs, all) == if !Free(st1, tag, v) then Loading(st1, false)
                                 else Fill(Filled(st1, tag, v), vs[1..], all)
  {}

  lemma FillEnds(st: Store, all: seq<string>)
    ensures Fill(st, [], all) == Loading(st.(loaded := true), true)
  {}

  function Filled(st: Store, tag: string, v: string): Store {
    Touched(st.(tags := st.tags[tag := v]), tag)
  }

  function Emptied(st: Store, values: seq<string>, salt: string): Store {
    st.(salt := salt, values := values, tags := map[], fams := None, session := {},
        cores := map[], prefixes := map[])
  }

  /** Loading plain secrets and named values under a given salt. */
  function Load(st: Store, secrets: seq<string>, named: seq<string>, salt: string): Loading {
    var values := Dedup(Dedup(secrets) + named);
    Fill(IndexAll(Emptied(st, values, salt), values), values, values)
  }

  lemma CorePrefix(st: Store, v: string)
    ensures Core(st, v, 4) == Core(st, v, 6)[..8]
  {}

  ghost predicate SameKeys(a: Store, b: Store) { a.mac == b.mac && a.salt == b.salt }

  /** Two values get the same load tag exactly when they share the long core. */
  lemma LoadTagsMeet(st: Store, all: seq<string>, u: string, v: string)
    requires u in all && v in all && u != v
    ensures LoadTag(st, all, u) == LoadTag(st, all, v) <==> Core(st, u, 6) == Core(st, v, 6)
  {
    CorePrefix(st, u);
    CorePrefix(st, v);
    var a, b := LoadTag(st, all, u), LoadTag(st, all, v);
    assert a[4..] == Core(st, u, LoadWidth(st, all, u)) && b[4..] == Core(st, v, LoadWidth(st, all, v));
  }

  /** The condition under which a vault can be loaded: values that share the short core
      differ in the long one. */
  ghost predicate Separable(st: Store, all: seq<string>) {
    forall u, v | u in all && v in all && u != v && Core(st, u, 4) == Core(st, v, 4) ::
      Core(st, u, 6) != Core(st, v, 6)
  }

  /** The table holds exactly the load tags of these values. */
  ghost predicate TableOf(k: Store, tags: map<string, string>, done: seq<string>, all: seq<string>) {
    (forall v | v in done :: LoadTag(k, all, v) in tags && tags[LoadTag(k, all, v)] == v)
    && (forall t | t in tags :: tags[t] in done && LoadTag(k, all, tags[t]) == t)
  }

  lemma SameTags(a: Store, b: Store, all: seq<string>, v: string)
    requires SameKeys(a, b)
    ensures LoadTag(a, all, v) == LoadTag(b, all, v) && LoadWidth(a, all, v) == LoadWidth(b, all, v)
  {
    assert forall u, n: Width :: Core(a, u, n) == Core(b, u, n);
  }

  lemma TableGrows(k: Store, tags: map<string, string>, done: seq<string>, v: string, all: seq<string>)
    requires TableOf(k, tags, done, all) && v !in done && LoadTag(k, all, v) !in tags
    ensures TableOf(k, tags[LoadTag(k, all, v) := v], done + [v], all)
  {}

  /** An earlier value of the vault has the load tag of the value at `i`. */
  predicate TakenBefore(k: Store, all: seq<string>, i: nat)
    requires i < |all|
  {
    exists j :: 0 <= j < i && LoadTag(k, all, all[j]) == LoadTag(k, all, all[i])
  }

  predicate NoneTaken(k: Store, all: seq<string>, from: nat) {
    forall i | from <= i < |all| :: !TakenBefore(k, all, i)
  }

  lemma FreeUnlessTaken(k: Store, tags: map<string, string>, done: seq<string>, all: seq<string>)
    requires TableOf(k, tags, done, all) && Distinct(all)
    requires |done| < |all| && all[..|done|] == done
    ensures LoadTag(k, all, all[|done|]) in tags <==> TakenBefore(k, all, |done|)
    ensures all[|done|] !in done
  {
    var tag := LoadTag(k, all, all[|done|]);
    forall j | 0 <= j < |done| ensures done[j] == all[j] && all[j] != all[|done|] {}
    if tag in tags {
      var j :| 0 <= j < |done| && done[j] == tags[tag];
      assert LoadTag(k, all, all[j]) == tag;
    }
  }

  /** A load keeps what it does not rebuild. */
  lemma {:induction false} FillKeeps(st: Store, vs: seq<string>, all: seq<string>)
    ensures var r := Fill(st, vs, all).st;
            SameKeys(st, r) && r.values == st.values && r.prefixes == st.prefixes && r.extra == st.extra
            && st.session <= r.session && (Coherent(st) ==> Coherent(r))
    decreases |vs|
  {
    if vs != [] {
      var v := vs[0];
      var st1 := Indexed(st, v, LoadWidth(st, all, v));
      var tag := LoadTag(st, all, v);
      if Free(st1, tag, v) {
        var st2 := Filled(st1, tag, v);
        assert st1.tags[tag := v] == Default(st1.tags, tag, v);
        EnteredKeeps(st1, tag, v);
        FillKeeps(st2, vs[1..], all);
      }
    }
  }

  lemma {:induction false} FillIs(k: Store, st: Store, done: seq<string>, vs: seq<string>, all: seq<string>)
    requires SameKeys(k, st) && done + vs == all && Distinct(all) && TableOf(k, st.tags, done, all)
    ensures Fill(st, vs, all).ok <==> NoneTaken(k, all, |done|)
    ensures Fill(st, vs, all).ok ==> Fill(st, vs, all).st.loaded && TableOf(k, Fill(st, vs, all).st.tags, all, all)
    decreases |vs|
  {
    if vs == [] {
      assert done == all;
    } else {
      var v := vs[0];
      NextValue(done, vs, all);
      SameTags(k, st, all, v);
      FreeUnlessTaken(k, st.tags, done, all);
      assert LoadTag(k, all, v) in st.tags ==> st.tags[LoadTag(k, all, v)] in done;
      var st1 := Indexed(st, v, LoadWidth(st, all, v));
      if LoadTag(k, all, v) !in st.tags {
        TableGrows(k, st.tags, done, v, all);
        NoneTakenStep(k, all, |done|);
        FillIs(k, Filled(st1, LoadTag(k, all, v), v), done + [v], vs[1..], all);
      }
    }
  }

  lemma NextValue(done: seq<string>, vs: seq<string>, all: seq<string>)
    requires done + vs == all && vs != []
    ensures |done| < |all| && all[|done|] == vs[0] && all[..|done|] == done
    ensures done + [vs[0]] + vs[1..] == all
  {}

  lemma NoneTakenStep(k: Store, all: seq<string>, i: nat)
    requires i < |all|
    ensures NoneTaken(k, all, i) <==> !TakenBefore(k, all, i) && NoneTaken(k, all, i + 1)
  {}

  lemma NoneTakenIff(k: Store, all: seq<string>)
    requires Distinct(all)
    ensures NoneTaken(k, all, 0) <==> Separable(k, all)
  {
    if Separable(k, all) {
      forall i, j | 0 <= j < i < |all| ensures LoadTag(k, all, all[j]) != LoadTag(k, all, all[i]) {
        LoadTagsMeet(k, all, all[j], all[i]);
        CorePrefix(k, all[i]);
        CorePrefix(k, all[j]);
      }
    }
    if NoneTaken(k, all, 0) {
      forall u, v | u in all && v in all && u != v ensures Core(k, u, 6) != Core(k, v, 6) {
        var i :| 0 <= i < |all| && all[i] == u;
        var j :| 0 <= j < |all| && all[j] == v;
        LoadTagsMeet(k, all, u, v);
        assert !TakenBefore(k, all, i) && !TakenBefore(k, all, j);
      }
    }
  }

  lemma {:induction false} IndexAllKeeps(st: Store, vs: seq<string>)
    ensures IndexAll(st, vs) == st.(cores := IndexAll(st, vs).cores)
    decreases |vs|
  {
    if vs != [] {
      IndexAllKeeps(Indexed(st, vs[0], 4), vs[1..]);
    }
  }

  /** The vault a load is asked to load. */
  function Vault(secrets: seq<string>, named: seq<string>): seq<string> {
    Dedup(Dedup(secrets) + named)
  }

  lemma {:induction false} DedupSame(vs: seq<string>)
    requires Distinct(vs)
    ensures Dedup(vs) == vs
    decreases |vs|
  {
    if vs != [] {
      var n := |vs| - 1;
      DedupSame(vs[..n]);
      assert vs[..n] + [vs[n]] == vs;
    }
  }

  /** Values that differ are loaded in file order, plain ones before named ones. */
  lemma VaultIs(secrets: seq<string>, named: seq<string>)
    requires Distinct(secrets + named)
    ensures Vault(secrets, named) == secrets + named
  {
    assert forall i | 0 <= i < |secrets| :: (secrets + named)[i] == secrets[i];
    DedupSame(secrets);
    DedupSame(secrets + named);
  }

  /** The state in which a load starts to register tags. */
  function LoadStart(st: Store, secrets: seq<string>, named: seq<string>, salt: string): Store {
    IndexAll(Emptied(st, Vault(secrets, named), salt), Vault(secrets, named))
  }

  /** Loading succeeds exactly when values that share the 8-hex core differ in the 12-hex
      core; then the table is a bijection between the vault and its tags, and a tag has
      12 hex digits exactly when its value shares the short core. */
  lemma LoadIff(st: Store, secrets: seq<string>, named: seq<string>, salt: string)
    ensures var r := Load(st, secrets, named, salt);
            var all := Vault(secrets, named);
            r.st.values == all && r.st.salt == salt && r.st.mac == st.mac
            && r.st.prefixes == map[] && r.st.extra == st.extra
            && (r.ok <==> Separable(r.st, all))
            && (r.ok ==> r.st.loaded && TableOf(r.st, r.st.tags, all, all))
            && (r.ok ==> forall u, v | u in all && v in all && u != v :: LoadTag(r.st, all, u) != LoadTag(r.st, all, v))
  {
    var all := Vault(secrets, named);
    var k := LoadStart(st, secrets, named, salt);
    IndexAllKeeps(Emptied(st, all, salt), all);
    FillKeeps(k, all, all);
    var r := Load(st, secrets, named, salt);
    assert [] + all == all;
    FillIs(r.st, k, [], all, all);
    NoneTakenIff(r.st, all);
  }

  // ---------- after a load ----------

  lemma WidthOfLoadTag(k: Store, all: seq<string>, v: string)
    ensures |LoadTag(k, all, v)| == if Colliding(k, all, v) then 16 else 12
    ensures LoadTag(k, all, v)[4..] == Core(k, v, LoadWidth(k, all, v))
    ensures LoadTag(k, all, v)[..4] == PWD
  {}

  /** Later in the session, a vault value without a column family is given the very tag
      it was loaded with. */
  lemma TagForAfterLoad(st: Store, all: seq<string>, v: string)
    requires TableOf(st, st.tags, all, all) && v in all && v !in st.prefixes
    ensures TagFor(st, v, PWD).tag == Some(LoadTag(st, all, v))
    ensures TagFor(st, v, PWD).st.tags == st.tags
  {
    var t4, t6 := PWD + Core(st, v, 4), PWD + Core(st, v, 6);
    var st1 := Indexed(st, v, 4);
    assert LOAD_WIDTHS[1..] == [6];
    assert Core(st1, v, 6) == Core(st, v, 6);
    if Colliding(st, all, v) {
      ShortTagIsFree(st, all, v);
      assert Registered(st, v, LOAD_WIDTHS) == Registered(st1, v, [6]);
    }
  }

  lemma NotLoadTag(k: Store, all: seq<string>, u: string, v: string)
    requires u in all && v in all && Colliding(k, all, v)
    ensures LoadTag(k, all, u) != PWD + Core(k, v, 4)
  {
    WidthOfLoadTag(k, all, u);
    var short := PWD + Core(k, v, 4);
    assert short[4..] == Core(k, v, 4);
    if !Colliding(k, all, u) {
      assert u != v;
      assert Core(k, u, 4) != Core(k, v, 4);
    }
  }

  /** The short tag of a value that shares its short core is not handed out. */
  lemma ShortTagIsFree(st: Store, all: seq<string>, v: string)
    requires TableOf(st, st.tags, all, all) && v in all && Colliding(st, all, v)
    ensures PWD + Core(st, v, 4) !in st.tags
  {
    forall t | t in st.tags ensures t != PWD + Core(st, v, 4) {
      NotLoadTag(st, all, st.tags[t], v);
    }
  }

  /** The last listed value with this short core. */
  function LastWith(k: Store, vs: seq<string>, core: string): Option<string>
    decreases |vs|
  {
    if vs == [] then None
    else
      var later := LastWith(k, vs[1..], core);
      if later.Some? then later
      else if Core(k, vs[0], 4) == core then Some(vs[0]) else None
  }

  lemma {:induction false} LastWithIs(k: Store, vs: seq<string>, v: string)
    requires v in vs
    ensures var w := LastWith(k, vs, Core(k, v, 4));
            w.Some? && w.value in vs && Core(k, w.value, 4) == Core(k, v, 4)
    decreases |vs|
  {
    if v in vs[1..] {
      LastWithIs(k, vs[1..], v);
    } else {
      assert v == vs[0];
      if LastWith(k, vs[1..], Core(k, v, 4)).Some? {
        LastWithSome(k, vs[1..], Core(k, v, 4));
      }
    }
  }

  lemma {:induction false} LastWithSome(k: Store, vs: seq<string>, core: string)
    requires LastWith(k, vs, core).Some?
    ensures LastWith(k, vs, core).value in vs && Core(k, LastWith(k, vs, core).value, 4) == core
    decreases |vs|
  {
    if LastWith(k, vs[1..], core).Some? {
      LastWithSome(k, vs[1..], core);
    }
  }

  /** The first pass leaves the last value of every short core in the index. */
  lemma {:induction false} IndexAllIs(k: Store, st: Store, vs: seq<string>, core: string)
    requires SameKeys(k, st)
    ensures var m := IndexAll(st, vs).cores;
            match LastWith(k, vs, core)
            case Some(w) => core in m && m[core] == w
            case None => (core in m <==> core in st.cores) && (core in m ==> m[core] == st.cores[core])
    decreases |vs|
  {
    if vs != [] {
      assert Core(k, vs[0], 4) == Core(st, vs[0], 4);
      IndexAllIs(k, Indexed(st, vs[0], 4), vs[1..], core);
    }
  }

  /** The second pass does not change what the index says of a short core. */
  lemma {:induction false} FillShort(k: Store, st: Store, vs: seq<string>, all: seq<string>, core: string)
    requires SameKeys(k, st) && |core| == 8 && (forall v | v in vs :: v in all)
    requires LastWith(k, all, core).Some? && core in st.cores && st.cores[core] == LastWith(k, all, core).value
    ensures var m := Fill(st, vs, all).st.cores; core in m && m[core] == LastWith(k, all, core).value
    decreases |vs|
  {
    if vs != [] {
      var v := vs[0];
      var n := LoadWidth(st, all, v);
      assert v in all;
      assert Core(k, v, n) == Core(st, v, n);
      if Core(st, v, n) == core {
        LastWithSome(k, all, core);
        var w := LastWith(k, all, core).value;
        assert Core(st, w, 4) == Core(k, w, 4);
        assert w == v;
      }
      var st1 := Indexed(st, v, n);
      var tag := LoadTag(st, all, v);
      if Free(st1, tag, v) {
        FillShort(k, Filled(st1, tag, v), vs[1..], all, core);
      }
    }
  }

  lemma {:induction false} IndexAfterLoad(st: Store, secrets: seq<string>, named: seq<string>, v: string)
    requires v in Vault(secrets, named)
    ensures var all := Vault(secrets, named);
            var core := Core(st, v, 4);
            var m := Load(st, secrets, named, st.salt).st.cores;
            core in m && LastWith(st, all, core) == Some(m[core])
  {
    var all := Vault(secrets, named);
    var core := Core(st, v, 4);
    var start := Emptied(st, all, st.salt);
    IndexAllKeeps(start, all);
    LastWithIs(st, all, v);
    IndexAllIs(st, start, all, core);
    FillShort(st, IndexAll(start, all), all, all, core);
  }

  /** A tag of eight hex digits, of any family, issued for a value under the salt that is
      preserved, restores after the reload to the last vault value with that core. */
  lemma {:induction false} ReloadRestores(st: Store, secrets: seq<string>, named: seq<string>, fam: string, v: string)
    requires fam != "" && fam[|fam| - 1] == '_'
    requires Load(st, secrets, named, st.salt).ok && v in Vault(secrets, named)
    ensures Resolve(TablesOf(Load(st, secrets, named, st.salt).st), fam, Core(st, v, 4))
         == LastWith(st, Vault(secrets, named), Core(st, v, 4))
  {
    var r := Load(st, secrets, named, st.salt).st;
    LoadIff(st, secrets, named, st.salt);
    IndexAfterLoad(st, secrets, named, v);
    ShortTagRestores(st, r, Vault(secrets, named), fam, v);
  }

  lemma ShortTagRestores(st: Store, r: Store, all: seq<string>, fam: string, v: string)
    requires SameKeys(st, r) && TableOf(r, r.tags, all, all) && v in all
    requires fam != "" && fam[|fam| - 1] == '_'
    requires Core(st, v, 4) in r.cores && LastWith(st, all, Core(st, v, 4)) == Some(r.cores[Core(st, v, 4)])
    ensures Resolve(TablesOf(r), fam, Core(st, v, 4)) == LastWith(st, all, Core(st, v, 4))
  {
    if fam + Core(st, v, 4) in r.tags {
      ShortTagIsOnlyOnes(st, r, all, fam, v);
    }
  }

  /** A short tag that the load registered belongs to the only value with its core. */
  lemma ShortTagIsOnlyOnes(st: Store, r: Store, all: seq<string>, fam: string, v: string)
    requires SameKeys(st, r) && TableOf(r, r.tags, all, all) && v in all
    requires fam != "" && fam[|fam| - 1] == '_' && fam + Core(st, v, 4) in r.tags
    ensures LastWith(st, all, Core(st, v, 4)) == Some(r.tags[fam + Core(st, v, 4)])
  {
    var core := Core(st, v, 4);
    var t := fam + core;
    var u := r.tags[t];
    WidthOfLoadTag(r, all, u);
    FamilyEndIs(fam, core);
    FamilyEndIs(PWD, Core(r, u, LoadWidth(r, all, u)));
    assert t[|fam|..] == core;
    assert t == LoadTag(r, all, u) && |fam| == 4;
    assert Core(r, u, LoadWidth(r, all, u)) == core && LoadWidth(r, all, u) == 4;
    LastWithIs(st, all, v);
    var w := LastWith(st, all, core).value;
    assert Core(r, w, 4) == Core(st, w, 4) && Core(r, u, 4) == core;
  }

  /** It restores to the value it was issued for exactly when no value listed later in the
      vault has the same short core. */
  lemma ReloadRestoresIff(st: Store, secrets: seq<string>, named: seq<string>, fam: string, i: nat)
    requires fam != "" && fam[|fam| - 1] == '_'
    requires Load(st, secrets, named, st.salt).ok && i < |Vault(secrets, named)|
    ensures var all := Vault(secrets, named);
            Resolve(TablesOf(Load(st, secrets, named, st.salt).st), fam, Core(st, all[i], 4)) == Some(all[i])
            <==> forall j | i < j < |all| :: Core(st, all[j], 4) != Core(st, all[i], 4)
  {
    var all := Vault(secrets, named);
    ReloadRestores(st, secrets, named, fam, all[i]);
    LastWithAt(st, all, i);
  }

  lemma {:induction false} LastWithAt(k: Store, vs: seq<string>, i: nat)
    requires i < |vs| && Distinct(vs)
    ensures LastWith(k, vs, Core(k, vs[i], 4)) == Some(vs[i])
       <==> forall j | i < j < |vs| :: Core(k, vs[j], 4) != Core(k, vs[i], 4)
    decreases |vs|
  {
    var core := Core(k, vs[i], 4);
    var rest := vs[1..];
    assert forall j | 0 <= j < |rest| :: rest[j] == vs[j + 1];
    if i > 0 {
      LastWithAt(k, rest, i - 1);
      LastWithIs(k, rest, vs[i]);
      assert (forall j | i < j < |vs| :: Core(k, vs[j], 4) != core)
        <==> (forall j | i - 1 < j < |rest| :: Core(k, rest[j], 4) != core) by {
        if forall j | i - 1 < j < |rest| :: Core(k, rest[j], 4) != core {
          forall j | i < j < |vs| ensures Core(k, vs[j], 4) != core {
            assert vs[j] == rest[j - 1];
          }
        }
      }
    } else {
      if LastWith(k, rest, core).Some? {
        LastWithSome(k, rest, core);
        var j :| 0 <= j < |rest| && rest[j] == LastWith(k, rest, core).value;
        assert vs[j + 1] == rest[j];
      } else {
        forall j | 0 < j < |vs| ensures Core(k, vs[j], 4) != core {
          if Core(k, vs[j], 4) == core {
            assert vs[j] == rest[j - 1];
            LastWithIs(k, rest, vs[j]);
          }
        }
      }
    }
  }

  // ---------- runs ----------

  datatype Op =
    | OpMint(fam: string, value: string)
    | OpRetag(token: string, prefix: string)
    | OpTagFor(value: string, prefix: string)
    | OpTagValue(value: string, prefix: string)
    | OpMintCell(fam: string, cell: string)
    | OpSetPrefixes(prefixes: map<string, string>)
    | OpGetFams
    | OpLoad(secrets: seq<string>, named: seq<string>, salt: string)
    | OpLock(salt: string)

  function Step(st: Store, op: Op): Store {
    match op
    case OpMint(fam, v) => Mint(st, fam, v).st
    case OpRetag(tok, prefix) => Retag(st, tok, prefix).st
    case OpTagFor(v, prefix) => TagFor(st, v, prefix).st
    case OpTagValue(v, prefix) => TagValue(st, v, prefix).st
    case OpMintCell(fam, cell) => MintCell(st, fam, cell).st
    case OpSetPrefixes(m) => SetPrefixes(st, m)
    case OpGetFams => GetFams(st)
    case OpLoad(secrets, named, salt) => Load(st, secrets, named, salt).st
    case OpLock(salt) => Lock(st, salt)
  }

  function Run(st: Store, ops: seq<Op>): Store
    decreases |ops|
  {
    if ops == [] then st else Run(Step(st, ops[0]), ops[1..])
  }

  /** No load and no lock. */
  predicate OneEpoch(ops: seq<Op>) { forall op | op in ops :: !op.OpLoad? && !op.OpLock? }

  lemma UseExtraKeeps(st: Store, v: string)
    requires v in st.extra
    ensures Later(st, UseExtra(st, v).st) && (Coherent(st) ==> Coherent(UseExtra(st, v).st))
  {
    FamiliesOfDefault(st.tags, st.extra[v], v);
  }

  lemma {:induction false} MintCellKeeps(st: Store, fam: string, cell: string)
    ensures var m := MintCell(st, fam, cell);
            Later(st, m.st) && (Coherent(st) ==> Coherent(m.st)) && MintedHolds(st, m, cell)
    ensures MintCell(st, fam, cell).tag.Some? ==> cell in MintCell(st, fam, cell).st.extra
  {
    MintAtKeeps(st, fam, cell, MINT_WIDTHS);
    var m := Mint(st, fam, cell);
    if m.tag.Some? {
      EnteredKeeps(m.st, m.tag.value, cell);
    }
  }

  lemma StepKeeps(st: Store, op: Op)
    requires Coherent(st)
    ensures Coherent(Step(st, op))
    ensures !op.OpLoad? && !op.OpLock? ==> Later(st, Step(st, op))
    ensures !op.OpLoad? ==> st.session <= Step(st, op).session
  {
    hide MintAt, RetagAt, TagFor, UseExtra, MintCell, SetPrefixes, GetFams, Load, Lock, Coherent, Later;
    match op
    case OpMint(fam, v) => MintAtKeeps(st, fam, v, MINT_WIDTHS);
    case OpRetag(tok, prefix) => RetagAtKeeps(st, OrDefault(prefix), tok, RETAG_WIDTHS);
    case OpTagFor(v, prefix) => TagForKeeps(st, v, prefix);
    case OpTagValue(v, prefix) =>
      if v in st.extra {
        UseExtraKeeps(st, v);
      } else {
        TagForKeeps(st, v, prefix);
      }
    case OpMintCell(fam, cell) => MintCellKeeps(st, fam, cell);
    case OpSetPrefixes(m) => OthersKeep(st, m, "");
    case OpGetFams => OthersKeep(st, map[], "");
    case OpLoad(secrets, named, salt) => LoadCoherent(st, secrets, named, salt);
    case OpLock(salt) => OthersKeep(st, map[], salt);
    LaterSession(st, Step(st, op));
  }

  lemma LaterSession(a: Store, b: Store)
    ensures Later(a, b) ==> a.session <= b.session
  {}

  lemma OthersKeep(st: Store, m: map<string, string>, salt: string)
    requires Coherent(st)
    ensures Later(st, SetPrefixes(st, m)) && Coherent(SetPrefixes(st, m))
    ensures Later(st, GetFams(st)) && Coherent(GetFams(st))
    ensures Coherent(Lock(st, salt)) && st.session <= Lock(st, salt).session
  {}

  lemma LoadCoherent(st: Store, secrets: seq<string>, named: seq<string>, salt: string)
    ensures Coherent(st) ==> Coherent(Load(st, secrets, named, salt).st)
  {
    hide Dedup, Fill, IndexAll;
    var all := Vault(secrets, named);
    IndexAllKeeps(Emptied(st, all, salt), all);
    FillKeeps(LoadStart(st, secrets, named, salt), all, all);
  }

  lemma {:induction false} FillRemembers(st: Store, vs: seq<string>, all: seq<string>)
    requires st.session <= {PWD}
    ensures Fill(st, vs, all).st.session <= {PWD}
    decreases |vs|
  {
    hide Colliding;
    if vs != [] {
      var v := vs[0];
      var st1 := Indexed(st, v, LoadWidth(st, all, v));
      FamilyEndIs(PWD, Core(st, v, LoadWidth(st, all, v)));
      var tag := LoadTag(st, all, v);
      assert tag[..4] == PWD;
      if Free(st1, tag, v) {
        FillRemembers(Filled(st1, tag, v), vs[1..], all);
      }
    }
  }

  /** A load forgets every family but the default one, whose tags it registers. */
  lemma LoadForgets(st: Store, secrets: seq<string>, named: seq<string>, salt: string)
    ensures Load(st, secrets, named, salt).st.session <= {PWD}
  {
    hide Dedup, Fill, IndexAll;
    var all := Vault(secrets, named);
    IndexAllKeeps(Emptied(st, all, salt), all);
    FillRemembers(LoadStart(st, secrets, named, salt), all, all);
  }

  /** Over every run the family cache is right when it is there and every family of the
      table is remembered; only a load forgets families, a lock does not. */
  lemma {:induction false} RunKeepsFamilies(st: Store, ops: seq<Op>)
    requires Coherent(st)
    ensures Coherent(Run(st, ops))
    ensures (forall op | op in ops :: !op.OpLoad?) ==> st.session <= Run(st, ops).session
    decreases |ops|
  {
    if ops != [] {
      StepKeeps(st, ops[0]);
      RunKeepsFamilies(Step(st, ops[0]), ops[1..]);
    }
  }

  /** Between a load and the next load or lock no entry is removed or remapped. */
  lemma {:induction false} RunIsLater(st: Store, ops: seq<Op>)
    requires Coherent(st) && OneEpoch(ops)
    ensures Later(st, Run(st, ops)) && Coherent(Run(st, ops))
    decreases |ops|
  {
    if ops != [] {
      StepKeeps(st, ops[0]);
      RunIsLater(Step(st, ops[0]), ops[1..]);
      LaterTransitive(st, Step(st, ops[0]), Run(st, ops));
    }
  }

  lemma {:induction false} MintAtRepeats(st: Store, fam: string, v: string, ws: seq<Width>, b: Store)
    requires MintAt(st, fam, v, ws).tag.Some? && Later(MintAt(st, fam, v, ws).st, b)
    ensures MintAt(b, fam, v, ws).tag == MintAt(st, fam, v, ws).tag
    ensures MintAt(b, fam, v, ws).st.tags == b.tags
    decreases |ws|
  {
    MintAtKeeps(st, fam, v, ws);
    assert Core(b, v, ws[0]) == Core(st, v, ws[0]);
    var tag := fam + Core(st, v, ws[0]);
    var st1 := Indexed(st, v, ws[0]);
    if !Free(st1, tag, v) {
      MintAtRepeats(st1, fam, v, ws[1..], Indexed(b, v, ws[0]));
    }
  }

  /** Repeating a mint gives the same tag again and adds nothing, whatever was minted,
      retagged or looked up in between. */
  lemma MintRepeats(st: Store, fam: string, v: string, ops: seq<Op>)
    requires Coherent(st) && OneEpoch(ops) && Mint(st, fam, v).tag.Some?
    ensures var b := Run(Mint(st, fam, v).st, ops);
            Mint(b, fam, v).tag == Mint(st, fam, v).tag && Mint(b, fam, v).st.tags == b.tags
  {
    MintAtKeeps(st, fam, v, MINT_WIDTHS);
    RunIsLater(Mint(st, fam, v).st, ops);
    MintAtRepeats(st, fam, v, MINT_WIDTHS, Run(Mint(st, fam, v).st, ops));
  }

  /** Distinct values never share a tag: a tag handed out twice in an epoch was handed
      out for one value. */
  lemma {:induction false} TagsAreDistinct(st: Store, f1: string, v1: string, ops: seq<Op>, f2: string, v2: string)
    requires Coherent(st) && OneEpoch(ops)
    requires var b := Run(Mint(st, f1, v1).st, ops);
             Mint(st, f1, v1).tag.Some? && Mint(b, f2, v2).tag == Mint(st, f1, v1).tag
    ensures v1 == v2
  {
    MintAtKeeps(st, f1, v1, MINT_WIDTHS);
    RunIsLater(Mint(st, f1, v1).st, ops);
    MintAtKeeps(Run(Mint(st, f1, v1).st, ops), f2, v2, MINT_WIDTHS);
  }

  lemma {:induction false} RetagAtRepeats(st: Store, fam: string, tok: string, ws: seq<Width>, b: Store)
    requires RetagAt(st, fam, tok, ws).tag.Some? && Later(RetagAt(st, fam, tok, ws).st, b)
    ensures RetagAt(b, fam, tok, ws).tag == RetagAt(st, fam, tok, ws).tag
    ensures RetagAt(b, fam, tok, ws).st.tags == b.tags
    decreases |ws|
  {
    RetagAtKeeps(st, fam, tok, ws);
    if ws == [] {
      MintAtRepeats(st, fam, tok, MINT_WIDTHS, b);
    } else {
      assert Core(b, tok, ws[0]) == Core(st, tok, ws[0]);
      if !Free(st, fam + Core(st, tok, ws[0]), tok) {
        RetagAtRepeats(st, fam, tok, ws[1..], b);
      }
    }
  }

  /** A foreign token is replaced by the same token of ours in every later round. */
  lemma RetagRepeats(st: Store, tok: string, prefix: string, ops: seq<Op>)
    requires Coherent(st) && OneEpoch(ops) && Retag(st, tok, prefix).tag.Some?
    ensures var b := Run(Retag(st, tok, prefix).st, ops);
            Retag(b, tok, prefix).tag == Retag(st, tok, prefix).tag && Retag(b, tok, prefix).st.tags == b.tags
  {
    RetagAtKeeps(st, OrDefault(prefix), tok, RETAG_WIDTHS);
    RunIsLater(Retag(st, tok, prefix).st, ops);
    RetagAtRepeats(st, OrDefault(prefix), tok, RETAG_WIDTHS, Run(Retag(st, tok, prefix).st, ops));
  }

  /** A vault value in the default family keeps its tag, unless it had a wider one and
      its short tag has been entered for it in between: then the short tag wins. */
  lemma {:induction false} TagForRepeatsIff(st: Store, v: string, prefix: string, b: Store)
    requires Coherent(st) && Coherent(b)
    requires FamilyFor(st, v, prefix) == PWD && FamilyFor(b, v, prefix) == PWD
    requires TagFor(st, v, prefix).tag.Some? && Later(TagFor(st, v, prefix).st, b)
    ensures var short := PWD + Core(st, v, 4);
            TagFor(b, v, prefix).tag == TagFor(st, v, prefix).tag
            <==> (short in b.tags && b.tags[short] == v ==> TagFor(st, v, prefix).tag == Some(short))
  {
    TagForKeeps(st, v, prefix);
    LaterTransitive(st, TagFor(st, v, prefix).st, b);
    RegisteredKeeps(st, v, LOAD_WIDTHS);
    RegisteredIs(st, v);
    RegisteredIs(b, v);
    SameCores(st, b, v);
    if Registered(st, v, LOAD_WIDTHS).tag.None? {
      TagForMinted(st, v, prefix, b);
    }
  }

  lemma SameCores(a: Store, b: Store, v: string)
    requires SameKeys(a, b)
    ensures Core(a, v, 4) == Core(b, v, 4) && Core(a, v, 6) == Core(b, v, 6)
    ensures PWD + Core(a, v, 4) != PWD + Core(a, v, 6)
  {
    assert |PWD + Core(a, v, 4)| == 12 && |PWD + Core(a, v, 6)| == 16;
  }

  /** A default-family tag that had to be minted is found or minted again. */
  lemma {:induction false} TagForMinted(st: Store, v: string, prefix: string, b: Store)
    requires FamilyFor(st, v, prefix) == PWD && FamilyFor(b, v, prefix) == PWD
    requires Registered(st, v, LOAD_WIDTHS).tag.None?
    requires TagFor(st, v, prefix).tag.Some? && Later(TagFor(st, v, prefix).st, b)
    ensures TagFor(b, v, prefix).tag == TagFor(st, v, prefix).tag
  {
    var r, rb := Registered(st, v, LOAD_WIDTHS).st, Registered(b, v, LOAD_WIDTHS).st;
    var m := Mint(r, PWD, v);
    RegisteredKeeps(st, v, LOAD_WIDTHS);
    RegisteredKeeps(b, v, LOAD_WIDTHS);
    MintAtKeeps(r, PWD, v, MINT_WIDTHS);
    LaterTransitive(m.st, b, rb);
    MintAtRepeats(r, PWD, v, MINT_WIDTHS, rb);
    SameCores(st, r, v);
    SameCores(st, b, v);
    MintShape(r, v);
    RegisteredIs(b, v);
  }

  lemma RegisteredIs(st: Store, v: string)
    ensures var short, wide := PWD + Core(st, v, 4), PWD + Core(st, v, 6);
            Registered(st, v, LOAD_WIDTHS).tag ==
              if short in st.tags && st.tags[short] == v then Some(short)
              else if wide in st.tags && st.tags[wide] == v then Some(wide) else None
  {
    var st1 := Indexed(st, v, 4);
    assert LOAD_WIDTHS[1..] == [6] && LOAD_WIDTHS[1..][1..] == [];
    assert Core(st1, v, 6) == Core(st, v, 6);
    assert Registered(st1, v, [6]).tag == if PWD + Core(st1, v, 6) in st.tags && st.tags[PWD + Core(st1, v, 6)] == v
      then Some(PWD + Core(st1, v, 6)) else None;
  }

  /** A mint gives the short tag when that is free, and else none but wider ones. */
  lemma MintShape(st: Store, v: string)
    requires Mint(st, PWD, v).tag.Some?
    ensures var short, wide := PWD + Core(st, v, 4), PWD + Core(st, v, 6);
            (Free(st, short, v) <==> Mint(st, PWD, v).tag == Some(short))
            && (!Free(st, short, v) ==> (Free(st, wide, v) <==> Mint(st, PWD, v).tag == Some(wide)))
  {}

  // ---------- the family of a tag ----------

  /** The family and a core of the value with eight to twenty-four digits. */
  ghost predicate HasForm(st: Store, fam: string, v: string, tag: string) {
    exists n: Width | n <= 12 :: tag == fam + Core(st, v, n)
  }

  lemma {:induction false} MintHasForm(st: Store, fam: string, v: string, ws: seq<Width>)
    requires forall i | 0 <= i < |ws| :: ws[i] <= 12
    ensures var m := MintAt(st, fam, v, ws);
            SameKeys(st, m.st) && (m.tag.Some? ==> HasForm(st, fam, v, m.tag.value))
    decreases |ws|
  {
    if ws != [] {
      var st1 := Indexed(st, v, ws[0]);
      MintHasForm(st1, fam, v, ws[1..]);
      var m := MintAt(st1, fam, v, ws[1..]);
      if m.tag.Some? && !Free(st1, fam + Core(st, v, ws[0]), v) {
        var n: Width :| n <= 12 && m.tag.value == fam + Core(st1, v, n);
        assert m.tag.value == fam + Core(st, v, n);
      }
    }
  }

  /** Families are set for values: a valid entry wins over what was set before, and over the prefix of
      the call; the value's next tag has that family. */
  lemma {:induction false} ColumnFamilyIsUsed(st: Store, m: map<string, string>, v: string, prefix: string)
    ensures var b := SetPrefixes(st, m);
            var fam := if v in m && IsPrefix(m[v]) then m[v]
                       else if v in st.prefixes && st.prefixes[v] != "" then st.prefixes[v]
                       else if prefix == "" then PWD else prefix;
            TagFor(b, v, prefix).tag.Some? ==> HasForm(b, fam, v, TagFor(b, v, prefix).tag.value)
  {
    hide MintAt, Registered, HasForm;
    var b := SetPrefixes(st, m);
    var fam := FamilyFor(b, v, prefix);
    MintHasForm(b, fam, v, MINT_WIDTHS);
    if fam == PWD {
      RegisteredIs(b, v);
      FormIs(b, PWD, v, 4);
      FormIs(b, PWD, v, 6);
      var r := Registered(b, v, LOAD_WIDTHS);
      RegisteredKeeps(b, v, LOAD_WIDTHS);
      if r.tag.None? {
        MintHasForm(r.st, PWD, v, MINT_WIDTHS);
        FormStays(r.st, b, PWD, v, TagFor(b, v, prefix).tag);
      }
    }
  }

  lemma FormIs(st: Store, fam: string, v: string, n: Width)
    requires n <= 12
    ensures HasForm(st, fam, v, fam + Core(st, v, n))
  {}

  lemma FormStays(a: Store, b: Store, fam: string, v: string, tag: Option<string>)
    requires SameKeys(a, b)
    ensures tag.Some? && HasForm(a, fam, v, tag.value) ==> HasForm(b, fam, v, tag.value)
  {
    if tag.Some? && HasForm(a, fam, v, tag.value) {
      var n: Width :| n <= 12 && tag.value == fam + Core(a, v, n);
      assert tag.value == fam + Core(b, v, n);
    }
  }

  /** The last valid family set for a value is the one its tag gets. */
  lemma LastFamilyWins(st: Store, m1: map<string, string>, m2: map<string, string>, v: string, prefix: string)
    requires v in m1 && IsPrefix(m1[v])
    ensures var b := SetPrefixes(SetPrefixes(st, m1), m2);
            var fam := if v in m2 && IsPrefix(m2[v]) then m2[v] else m1[v];
            TagFor(b, v, prefix).tag.Some? ==> HasForm(b, fam, v, TagFor(b, v, prefix).tag.value)
  {
    hide TagFor, HasForm;
    ColumnFamilyIsUsed(SetPrefixes(st, m1), m2, v, prefix);
  }
}
