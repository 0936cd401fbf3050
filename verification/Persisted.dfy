/** The cells of a sanitized table on their way through the vault file to a later chat: what the
    file holds after they are appended as they stand, which of them a load takes as they are, and
    what a rollback finds of them. */
module Persisted {
  import opened Text
  import opened Restore
  import opened Vault
  import opened Filters
  import opened Imports
  import opened TagStore
  import opened StoreRuns
  import opened Sanitize
  import opened RoundTrip
  import opened Cells

  // ---------- what a line is read as ----------

  lemma EqualsBehind(s: string)
    requires HasEquals(s) && s[0] != '='
    ensures HasEquals(s[1..]) && IndexOf(s, '=') == IndexOf(s[1..], '=') + 1
  {
    assert s == [s[0]] + s[1..];
  }

  lemma OneOff(s: string)
    requires s != "" && IsSpace(s[0])
    ensures StripLeft(s) == StripLeft(s[1..])
  {
    hide IsSpace;
  }

  lemma FirstOff(s: string, j: nat)
    requires s != "" && IsSpace(s[0]) && j < |s|
    ensures StripLeft(s) == StripLeft(s[1..]) && StripLeft(s[..j + 1]) == StripLeft(s[1..][..j])
  {
    hide IsSpace, StripLeft;
    var t := s[..j + 1];
    assert t[0] == s[0] && t[1..] == s[1..][..j];
    OneOff(s);
    OneOff(t);
  }

  /** White space in front of a text does not show in its name. */
  lemma {:induction false} NameLeft(s: string)
    requires HasEquals(s)
    ensures HasEquals(StripLeft(s)) && Name(StripLeft(s)) == Name(s)
    decreases |s|
  {
    hide StripRight, IndexOf, HasEquals;
    if s != "" && IsSpace(s[0]) {
      EqualsBehind(s);
      NameLeft(s[1..]);
      FirstOff(s, IndexOf(s[1..], '='));
    } else {
      StaysAsItIs(s);
    }
  }

  lemma EqualsBefore(s: string, n: nat)
    requires HasEquals(s) && n == |s| - 1 && s[n] != '='
    ensures HasEquals(s[..n]) && IndexOf(s[..n], '=') == IndexOf(s, '=') < n
    ensures s[..n][..IndexOf(s, '=')] == s[..IndexOf(s, '=')]
  {
    hide IndexOf;
    assert s == s[..n] + [s[n]];
    EqualsFound(s);
    SameIndex(s, n);
  }

  lemma {:induction false} NameRight(s: string)
    requires HasEquals(s)
    ensures HasEquals(StripRight(s)) && Name(StripRight(s)) == Name(s)
    decreases |s|
  {
    hide Strip, IndexOf, HasEquals;
    if s != "" && IsSpace(s[|s| - 1]) {
      EqualsBefore(s, |s| - 1);
      NameRight(s[..|s| - 1]);
    }
  }

  lemma {:induction false} EqualsFound(s: string)
    requires HasEquals(s)
    ensures IndexOf(s, '=') < |s|
  {
    var k :| 0 <= k < |s| && s[k] == '=';
  }

  lemma {:induction false} SameIndex(s: string, n: nat)
    requires IndexOf(s, '=') < n <= |s|
    ensures IndexOf(s[..n], '=') == IndexOf(s, '=')
  {
    var i, j := IndexOf(s, '='), IndexOf(s[..n], '=');
    assert s[..n][i] == '=';
    assert j < n ==> s[..n][j] == s[j];
  }

  lemma {:induction false} HasEqualsStripped(s: string)
    requires HasEquals(Strip(s))
    ensures HasEquals(s)
  {
    var l := StripLeft(s);
    assert Strip(s) <= l && l == s[|s| - |l|..];
    var k :| 0 <= k < |Strip(s)| && Strip(s)[k] == '=';
    assert l[k] == '=' && s[|s| - |l| + k] == '=';
  }

  lemma NameOfStripped(s: string)
    ensures HasEquals(Strip(s)) <==> HasEquals(s)
    ensures HasEquals(s) ==> Name(Strip(s)) == Name(s)
  {
    hide StripLeft, StripRight, Name;
    if HasEquals(s) {
      NameLeft(s);
      NameRight(StripLeft(s));
    }
    if HasEquals(Strip(s)) {
      HasEqualsStripped(s);
    }
  }

  /** A marker at the start stays there when white space is taken off. */
  lemma MarkerOfStripped(s: string)
    ensures "#" <= s ==> "#" <= Strip(s)
    ensures "re:" <= s ==> "re:" <= Strip(s)
  {
    assert !IsSpace('#') && !IsSpace('r') && !IsSpace(':');
    if "#" <= s {
      assert s[0] == '#' && StripLeft(s) == s;
      KeepsFirst(s, 1);
    }
    if "re:" <= s {
      assert s[0] == 'r' && s[2] == ':' && StripLeft(s) == s;
      KeepsFirst(s, 3);
    }
  }

  lemma {:induction false} KeepsFirst(s: string, n: nat)
    requires 0 < n <= |s| && !IsSpace(s[n - 1])
    ensures n <= |StripRight(s)| && StripRight(s)[..n] == s[..n]
    decreases |s|
  {
    if IsSpace(s[|s| - 1]) {
      KeepsFirst(s[..|s| - 1], n);
      assert s[..|s| - 1][..n] == s[..n];
    }
  }

  /** White space around a cell hides a marker from the filter, and nothing else. */
  lemma SafeStrippedIff(v: string)
    ensures IngestOk(Strip(v)) <==> IngestOk(v) && !("re:" <= Strip(v)) && !("#" <= Strip(v))
  {
    hide Strip, Name, IsEntryName, HasEquals;
    NameOfStripped(v);
    MarkerOfStripped(v);
  }

  /** The plain secret that a cell which passed the filter is read as: its text without white
      space, unless a marker or nothing at all comes to light. */
  predicate Shows(v: string) { Strip(v) != "" && IngestOk(Strip(v)) }

  lemma {:induction false} SafeIs(v: string)
    requires IngestOk(v)
    ensures Shows(v) ==> Classify(v) == Plain(Strip(v))
    ensures !Shows(v) ==> Classify(v).Ignored? || Classify(v).Pattern?
  {
    hide Strip, Name, IsEntryName, HasEquals;
    var s := Strip(v);
    SafeStrippedIff(v);
    assert s != "" && s[0] == '#' <==> "#" <= s;
    if "ing:" <= s && HasEquals(s) {
      LegacyName(s);
    }
  }

  /** What the cells are read as, in order. */
  function Shown(vals: seq<string>): seq<string>
    decreases |vals|
  {
    if vals == [] then []
    else
      var v := vals[|vals| - 1];
      Shown(vals[..|vals| - 1]) + if Shows(v) then [Strip(v)] else []
  }

  lemma ShownSnoc(vals: seq<string>, v: string)
    ensures Shown(vals + [v]) == Shown(vals) + if Shows(v) then [Strip(v)] else []
  {
    hide Shows, Strip;
    assert (vals + [v])[..|vals|] == vals;
  }

  lemma {:induction false} ShownHas(vals: seq<string>, c: string)
    ensures c in Shown(vals) <==> exists v :: v in vals && Shows(v) && Strip(v) == c
    decreases |vals|
  {
    hide Shows, Strip, Shown;
    if vals == [] {
      ShownNothing();
    } else {
      var n := |vals| - 1;
      assert vals == vals[..n] + [vals[n]];
      ShownHas(vals[..n], c);
      ShownSnoc(vals[..n], vals[n]);
    }
  }

  lemma ShownNothing()
    ensures Shown([]) == []
  {}

  lemma {:induction false} ParseSafe(lines: seq<string>, vals: seq<string>)
    requires forall v | v in vals :: IngestOk(v)
    ensures var p := Parse(lines + vals);
            p.named == Parse(lines).named && p.secrets == Parse(lines).secrets + Shown(vals)
    decreases |vals|
  {
    hide Classify, IngestOk, Shows, Strip;
    if vals == [] {
      assert lines + vals == lines;
      assert Parse(lines).secrets + [] == Parse(lines).secrets;
    } else {
      var n := |vals| - 1;
      assert forall v | v in vals[..n] :: v in vals;
      ParseSafe(lines, vals[..n]);
      assert vals[n] in vals;
      SafeIs(vals[n]);
      ParseSnoc(lines + vals[..n], vals[n]);
      AppendLast(lines, vals);
      var more := if Shows(vals[n]) then [Strip(vals[n])] else [];
      assert Parse(lines).secrets + Shown(vals[..n]) + more == Parse(lines).secrets + (Shown(vals[..n]) + more);
    }
  }

  lemma {:induction false} ShownIsAll(vals: seq<string>)
    requires forall v | v in vals :: v != "" && IngestOk(v)
    ensures Shown(vals) == vals <==> forall v | v in vals :: Stripped(v)
    decreases |vals|
  {
    hide IngestOk, Strip, Stripped, Shown;
    if forall v | v in vals :: Stripped(v) {
      ShownStripped(vals);
    } else {
      var v :| v in vals && !Stripped(v);
      forall c | c in Shown(vals) ensures c != v {
        ShownHas(vals, c);
        var u :| u in vals && Shows(u) && Strip(u) == c;
        StripIs(u);
      }
    }
  }

  lemma {:induction false} ShownStripped(vals: seq<string>)
    requires forall v | v in vals :: v != "" && IngestOk(v) && Stripped(v)
    ensures Shown(vals) == vals
    decreases |vals|
  {
    hide IngestOk, Strip, Stripped, Shown;
    if vals == [] {
      ShownNothing();
    } else {
      var n := |vals| - 1;
      assert vals == vals[..n] + [vals[n]];
      assert forall v | v in vals[..n] :: v in vals;
      ShownStripped(vals[..n]);
      assert vals[n] in vals;
      StripIs(vals[n]);
      ShownSnoc(vals[..n], vals[n]);
    }
  }

  /** Persisting adds exactly the new, safe cells to the plain secrets, and leaves the named
      entries, exactly when none of them has white space at its ends. */
  lemma {:induction false} PersistKeepsGrammarIff(h: History, vals: set<string>, id: string)
    requires AllUnbroken(h.lines) && AllUnbroken(Offered(h.lines, vals))
    ensures var new_ := Offered(h.lines, vals);
            var p := Parse(Persist(h, vals, id).lines);
            p.named == Parse(h.lines).named
            && (p.secrets == Parse(h.lines).secrets + new_ <==> forall v | v in new_ :: Stripped(v))
  {
    hide IngestOk, Stripped, Unbroken, Offered, Shown;
    var new_ := Offered(h.lines, vals);
    PersistReads(h, vals, id);
    ShownIsAll(new_);
    SameTail(Parse(h.lines).secrets, Shown(new_), new_);
  }

  lemma SameTail(a: seq<string>, b: seq<string>, c: seq<string>)
    ensures a + b == a + c <==> b == c
  {
    if a + b == a + c {
      assert b == (a + b)[|a|..] && c == (a + c)[|a|..];
    }
  }

  lemma {:induction false} PersistReads(h: History, vals: set<string>, id: string)
    requires AllUnbroken(h.lines) && AllUnbroken(Offered(h.lines, vals))
    ensures var p := Parse(Persist(h, vals, id).lines);
            p.named == Parse(h.lines).named
            && p.secrets == Parse(h.lines).secrets + Shown(Offered(h.lines, vals))
  {
    hide IngestOk, Unbroken, Offered, Reread;
    var new_ := Offered(h.lines, vals);
    if new_ == [] {
      assert Parse(h.lines).secrets + [] == Parse(h.lines).secrets;
    } else {
      RereadIs(h.lines + new_);
      ParseSafe(h.lines, new_);
    }
  }

  // ---------- what a load holds ----------

  /** A dictionary in order of insertion: a name that is there gets the new value. */
  function Put(d: seq<(string, string)>, n: string, v: string): seq<(string, string)>
    decreases |d|
  {
    if d == [] then [(n, v)]
    else if d[0].0 == n then [(n, v)] + d[1..]
    else [d[0]] + Put(d[1..], n, v)
  }

  function DictOf(named: seq<(string, string)>): seq<(string, string)>
    decreases |named|
  {
    if named == [] then []
    else Put(DictOf(named[..|named| - 1]), named[|named| - 1].0, named[|named| - 1].1)
  }

  function ValuesOf(d: seq<(string, string)>): (r: seq<string>)
    ensures forall v :: v in r <==> exists e :: e in d && e.1 == v
    decreases |d|
  {
    if d == [] then []
    else
      assert d == [d[0]] + d[1..];
      [d[0].1] + ValuesOf(d[1..])
  }

  /** The values of the named entries as the file is read: of several lines with one name the
      last counts. */
  function NamedOf(lines: seq<string>): seq<string> { ValuesOf(DictOf(Parse(lines).named)) }

  /** The values a load of the file holds. */
  function VaultOf(lines: seq<string>): seq<string> { StoreRuns.Vault(Parse(lines).secrets, NamedOf(lines)) }

  lemma VaultHas(lines: seq<string>, c: string)
    ensures c in VaultOf(lines) <==> c in Parse(lines).secrets || c in NamedOf(lines)
  {}

  /** The file held the value before, or it is the text, safe and without white space at its
      ends, of a cell that the file did not know. */
  predicate WillHold(lines: seq<string>, vals: set<string>, c: string) {
    c in VaultOf(lines)
    || (c != "" && Stripped(c) && IngestOk(c) && exists v | v in vals :: Strip(v) == c && !IsKnown(lines, v))
  }

  /** After persisting, a load holds what it held, and the new, safe cells as they show. */
  lemma {:induction false} PersistHolds(h: History, vals: set<string>, id: string, c: string)
    requires AllUnbroken(h.lines) && AllUnbroken(Offered(h.lines, vals))
    ensures c in VaultOf(Persist(h, vals, id).lines) <==> WillHold(h.lines, vals, c)
  {
    hide IngestOk, Strip, Stripped, Unbroken, IsKnown, Persist, Parse, NamedOf;
    var g := Persist(h, vals, id);
    PersistReads(h, vals, id);
    VaultHas(h.lines, c);
    VaultHas(g.lines, c);
    assert NamedOf(g.lines) == NamedOf(h.lines) by { SameNamed(g.lines, h.lines); }
    ShownOffered(h.lines, vals, c);
  }

  lemma SameNamed(a: seq<string>, b: seq<string>)
    requires Parse(a).named == Parse(b).named
    ensures NamedOf(a) == NamedOf(b)
  {}

  lemma {:induction false} ShownOffered(lines: seq<string>, vals: set<string>, c: string)
    ensures c in Shown(Offered(lines, vals)) <==>
              c != "" && Stripped(c) && IngestOk(c) && exists v :: v in vals && Strip(v) == c && !IsKnown(lines, v)
  {
    hide IngestOk, Strip, Stripped, IsKnown, Shown;
    var new_ := Offered(lines, vals);
    ShownHas(new_, c);
    if c in Shown(new_) {
      var v :| v in new_ && Shows(v) && Strip(v) == c;
      StripIs(v);
    }
    if c != "" && Stripped(c) && IngestOk(c) && exists v :: v in vals && Strip(v) == c && !IsKnown(lines, v) {
      var v :| v in vals && Strip(v) == c && !IsKnown(lines, v);
      SafeStrippedIff(v);
      StripNothing();
      assert v in new_ && Shows(v);
    }
  }

  // ---------- the cell of a table ----------

  lemma {:induction false} PutHas(d: seq<(string, string)>, n: string, v: string, e: (string, string))
    requires e in Put(d, n, v)
    ensures e in d || e == (n, v)
    decreases |d|
  {
    if d != [] && d[0].0 != n && e != d[0] {
      PutHas(d[1..], n, v, e);
    }
  }

  lemma {:induction false} DictHas(named: seq<(string, string)>, e: (string, string))
    requires e in DictOf(named)
    ensures e in named
    decreases |named|
  {
    var n := |named| - 1;
    PutHas(DictOf(named[..n]), named[n].0, named[n].1, e);
    if e in DictOf(named[..n]) {
      DictHas(named[..n], e);
    }
  }

  /** What a load holds, the lines were known to stand for. */
  lemma {:induction false} HeldIsKnown(lines: seq<string>, c: string)
    requires c in VaultOf(lines) && c != ""
    ensures IsKnown(lines, c)
  {
    hide KnownOf;
    VaultHas(lines, c);
    if c in Parse(lines).secrets {
      SecretKnown(lines, c);
    } else {
      var e :| e in DictOf(Parse(lines).named) && e.1 == c;
      DictHas(Parse(lines).named, e);
      NamedKnown(lines, e);
    }
  }

  lemma {:induction false} SecretKnown(lines: seq<string>, c: string)
    requires c in Parse(lines).secrets
    ensures IsKnown(lines, c)
    decreases |lines|
  {
    hide KnownOf, Classify;
    var n := |lines| - 1;
    assert lines == lines[..n] + [lines[n]];
    LineKnown(lines[n]);
    if c in Parse(lines[..n]).secrets {
      SecretKnown(lines[..n], c);
      var l :| l in lines[..n] && KnownOf(l) == Some(c);
      assert l in lines;
    } else {
      assert KnownOf(lines[n]) == Some(c) && lines[n] in lines;
    }
  }

  lemma {:induction false} NamedKnown(lines: seq<string>, e: (string, string))
    requires e in Parse(lines).named
    ensures IsKnown(lines, e.1)
    decreases |lines|
  {
    hide KnownOf, Classify;
    var n := |lines| - 1;
    assert lines == lines[..n] + [lines[n]];
    LineKnown(lines[n]);
    if e in Parse(lines[..n]).named {
      NamedKnown(lines[..n], e);
      var l :| l in lines[..n] && KnownOf(l) == Some(e.1);
      assert l in lines;
    } else {
      assert KnownOf(lines[n]) == Some(e.1) && lines[n] in lines;
    }
  }

  lemma LineKnown(l: string)
    ensures Classify(l).Plain? ==> KnownOf(l) == Some(Classify(l).secret)
    ensures Classify(l).Named? ==> KnownOf(l) == Some(Classify(l).value)
  {
    hide Strip, Name, HasEquals, IsEntryName;
    var s := Strip(l);
    assert s != "" && s[0] == '#' <==> "#" <= s;
  }

  /** A cell that the file did not know is held after it was persisted exactly when it has no
      white space at its ends and the filter lets it through. */
  lemma {:induction false} CellIsHeldIff(h: History, vals: set<string>, id: string, cell: string)
    requires AllUnbroken(h.lines) && AllUnbroken(Offered(h.lines, vals))
    requires cell in vals && cell != "" && !IsKnown(h.lines, cell)
    ensures cell in VaultOf(Persist(h, vals, id).lines) <==> Stripped(cell) && IngestOk(cell)
    ensures WillHold(h.lines, vals, cell) <==> Stripped(cell) && IngestOk(cell)
  {
    hide IngestOk, Strip, Stripped, IsKnown, VaultOf, Persist, Unbroken;
    PersistHolds(h, vals, id, cell);
    StripIs(cell);
    if cell in VaultOf(h.lines) {
      HeldIsKnown(h.lines, cell);
    }
  }

  /** A cell with a line break is never held, whatever else was persisted. */
  lemma {:induction false} BrokenIsNotHeld(h: History, vals: set<string>, id: string, cell: string)
    requires AllUnbroken(h.lines) && !Unbroken(cell)
    ensures cell !in VaultOf(Persist(h, vals, id).lines)
  {
    hide Unbroken, Offered, Parse, IngestOk;
    var g := Persist(h, vals, id);
    SplitLinesUnbroken(FileOf(h.lines + Offered(h.lines, vals)));
    ParsedUnbroken(g.lines);
    VaultHas(g.lines, cell);
    if cell in NamedOf(g.lines) {
      var e :| e in DictOf(Parse(g.lines).named) && e.1 == cell;
      DictHas(Parse(g.lines).named, e);
      NamedUnbroken(g.lines, e);
    }
  }

  lemma {:induction false} NamedUnbroken(lines: seq<string>, e: (string, string))
    requires AllUnbroken(lines) && e in Parse(lines).named
    ensures Unbroken(e.1)
    decreases |lines|
  {
    hide Classify, Unbroken;
    var n := |lines| - 1;
    assert lines == lines[..n] + [lines[n]];
    if e in Parse(lines[..n]).named {
      NamedUnbroken(lines[..n], e);
    } else {
      ValueUnbroken(lines[n]);
    }
  }

  lemma ValueUnbroken(l: string)
    requires Unbroken(l)
    ensures Classify(l).Named? ==> Unbroken(Classify(l).value)
  {
    hide Strip, Unbroken, Name, IsEntryName;
    StripUnbroken(l);
    var t := Strip(l);
    var i := IndexOf(t, '=');
    if i < |t| {
      SliceUnbroken(t, i + 1, |t|);
      assert t[i + 1..|t|] == t[i + 1..];
    } else {
      EmptyUnbroken();
    }
  }

  lemma EmptyUnbroken()
    ensures Unbroken("")
  {}

  // ---------- from the table to the chat ----------

  /** After a load every entry of both indexes stands for a value of the vault. */
  lemma {:induction false} LoadedIndexes(st: Store, secrets: seq<string>, named: seq<string>, salt: string)
    requires Load(st, secrets, named, salt).ok
    ensures var r := Load(st, secrets, named, salt).st;
            (forall t | t in r.tags :: r.tags[t] in r.values) && (forall k | k in r.cores :: r.cores[k] in r.values)
  {
    hide Dedup, Fill, IndexAll;
    var all := StoreRuns.Vault(secrets, named);
    var start := Emptied(st, all, salt);
    LoadIff(st, secrets, named, salt);
    IndexAllValues(start, all, all);
    FillValues(IndexAll(start, all), all, all);
  }

  lemma {:induction false} IndexAllValues(st: Store, vs: seq<string>, all: seq<string>)
    requires (forall k | k in st.cores :: st.cores[k] in all) && forall v | v in vs :: v in all
    ensures forall k | k in IndexAll(st, vs).cores :: IndexAll(st, vs).cores[k] in all
    decreases |vs|
  {
    if vs != [] {
      IndexAllValues(Indexed(st, vs[0], 4), vs[1..], all);
    }
  }

  lemma {:induction false} FillValues(st: Store, vs: seq<string>, all: seq<string>)
    requires (forall k | k in st.cores :: st.cores[k] in all) && forall v | v in vs :: v in all
    ensures forall k | k in Fill(st, vs, all).st.cores :: Fill(st, vs, all).st.cores[k] in all
    decreases |vs|
  {
    if vs != [] {
      var v := vs[0];
      var st1 := Indexed(st, v, LoadWidth(st, all, v));
      if Free(st1, LoadTag(st, all, v), v) {
        FillValues(Filled(st1, LoadTag(st, all, v), v), vs[1..], all);
      }
    }
  }

  /** The state after the file was read under the salt of `b`. */
  function Reloaded(b: Store, lines: seq<string>): Loading {
    Load(b, Parse(lines).secrets, NamedOf(lines), b.salt)
  }

  /** A cell tagged whole, persisted, and the file reloaded under the same salt at any later
      time. The cell is a vault value from then on exactly when the file held it or it is new, safe
      and without white space at its ends. If it is, then in every state of the session, whatever
      was tagged, called or given a column family since the load, it is replaced in every text
      by its first tag, the one the table carried, and a text restores, cell and all, as long as
      no whole-cell tag is taken by another value. If it is not, no tag of any
      family restores to it after the reload: the tag in the table is lost. */
  lemma {:induction false} PersistToChat(st: Store, fam: string, cell: string, b: Store, h: History,
                                         vals: set<string>, id: string, z: Store, text: string, prefix: string)
    requires fam != "" && fam[|fam| - 1] == '_' && MintCell(st, fam, cell).tag.Some?
    requires Later(MintCell(st, fam, cell).st, b)
    requires AllUnbroken(h.lines) && AllUnbroken(Offered(h.lines, vals))
    requires cell in vals && cell != ""
    requires Reloaded(b, Persist(h, vals, id).lines).ok
    requires Later(Reloaded(b, Persist(h, vals, id).lines).st, z) && Coherent(z)
    requires SanitizeText(z, text, prefix).Done?
    ensures cell in z.values <==> WillHold(h.lines, vals, cell)
    ensures !IsKnown(h.lines, cell) ==> (cell in z.values <==> Stripped(cell) && IngestOk(cell))
    ensures var m := MintCell(st, fam, cell);
            var w := SanitizeText(z, text, prefix);
            cell in z.values ==>
              cell in m.st.extra && CellAtoms(w.doc, cell, m.st.extra[cell])
              && (m.st.extra[cell] == m.tag.value <==> cell !in st.extra || st.extra[cell] == m.tag.value)
              && LitsFree(w.doc, z.values)
              && (ExtraFree(w.st) && Separated(w.doc) && QuietLits(TablesOf(w.st), w.doc) ==>
                    RestoreAll(TablesOf(w.st), Render(w.doc)) == Expand(TablesOf(w.st), w.doc))
    ensures cell !in z.values ==>
              forall f, core :: Resolve(TablesOf(Reloaded(b, Persist(h, vals, id).lines).st), f, core) != Some(cell)
  {
    hide SanitizeText, RestoreAll, Separated, QuietLits, Load, MintCell, Coherent, Expand, VaultOf, Persist;
    hide IngestOk, Stripped, IsKnown, Unbroken, Parse, NamedOf, ExtraFree, LitsFree;
    var lines := Persist(h, vals, id).lines;
    hide WillHold;
    PersistHolds(h, vals, id, cell);
    if !IsKnown(h.lines, cell) {
      CellIsHeldIff(h, vals, id, cell);
    }
    ReloadedIs(b, lines);
    if cell in z.values {
      TableToChat(st, fam, cell, b, Parse(lines).secrets, NamedOf(lines), z, text, prefix);
    } else {
      LoadedIndexes(b, Parse(lines).secrets, NamedOf(lines), b.salt);
    }
  }

  lemma ReloadedIs(b: Store, lines: seq<string>)
    ensures Reloaded(b, lines).st.values == VaultOf(lines)
    ensures VaultOf(lines) == StoreRuns.Vault(Parse(lines).secrets, NamedOf(lines))
  {
    hide Load, Parse, NamedOf, Dedup;
    LoadIff(b, Parse(lines).secrets, NamedOf(lines), b.salt);
  }

  // ---------- what persisting can break ----------

  /** A cell that starts with a marker behind white space passes the filter and is read as a
      pattern or a comment: persisting keeps the protected lines exactly when no new cell does. */
  lemma {:induction false} PersistProtectsIff(h: History, vals: set<string>, id: string)
    requires Filtered(h) && AllUnbroken(Offered(h.lines, vals))
    ensures ProtectedOf(Persist(h, vals, id).lines) == ProtectedOf(h.lines) <==>
              forall v | v in Offered(h.lines, vals) :: !("re:" <= Strip(v)) && !("#" <= Strip(v))
  {
    hide IngestOk, Strip, Unbroken, Imports.Append, Filtered, ProtectedOf, IsProtected;
    var new_ := Offered(h.lines, vals);
    AppendProtectsIff(h, new_, id);
    forall v | v in new_ ensures IsProtected(v) <==> "re:" <= Strip(v) || "#" <= Strip(v) {
      MarkedIff(v);
    }
  }

  lemma MarkedIff(v: string)
    requires IngestOk(v)
    ensures IsProtected(v) <==> "re:" <= Strip(v) || "#" <= Strip(v)
  {
    hide Strip, Name, IsEntryName, HasEquals;
    NameOfStripped(v);
  }

  /** Such a cell, whatever the pattern is. */
  lemma PersistedPattern(regex: string)
    requires Stripped("re:" + regex) && !HasEquals(regex)
    ensures var v := " re:" + regex;
            IngestOk(v) && !Stripped(v) && Classify(v) == Pattern(regex)
  {
    hide Strip, IsEntryName, Name, Stripped;
    var y, v := "re:" + regex, " re:" + regex;
    BlankBefore(y);
    assert " " + y == v;
    assert y[..3] == "re:" && y[3..] == regex && y[0] == 'r' && v[0] == ' ';
    assert '=' !in " re:";
    assert v == " re:" + regex;
  }

  /** A persisted table is taken back by its rollback exactly when every new cell with white
      space at its ends is there without it as well: the line that is compared is stripped, the
      value in the record is not. */
  lemma {:induction false} PersistTakenBackIff(lines0: seq<string>, h: History, vals: set<string>, id: string)
    requires InStep(lines0, h) && RecordAt(h.records, id) == |h.records|
    requires AllUnbroken(Offered(h.lines, vals)) && Offered(h.lines, vals) != []
    ensures Imports.Run(h, [OpPersist(vals, id), OpRollback(id)]) == h <==>
              forall v | v in Offered(h.lines, vals) :: Strip(v) in Offered(h.lines, vals)
  {
    hide Imports.Run, Offered, Strip, Filter, Unbroken, Reread, Rollback, InStep, IngestOk, KeptBy;
    var new_ := Offered(h.lines, vals);
    var rec := Record(id, new_);
    var g := History(h.lines + new_, h.records + [rec]);
    InStepUnbroken(lines0, h);
    RereadIs(h.lines + new_);
    TwoSteps(h, OpPersist(vals, id), OpRollback(id));
    LastRecord(h.records, rec);
    RollbackSome(g, id);
    RollbackFinds(g, id);
    OldLinesStay(lines0, h, vals, rec);
    var kept := KeptBy(rec, h.records, g.lines);
    KeptOf(rec, h.records, h.lines, new_);
    NewLinesGoIff(lines0, h, vals, rec);
    var left := Filter(Stays(rec, h.records), new_);
    SameTail(h.lines, left, []);
    assert h.lines + [] == h.lines;
    assert kept == h.lines + left;
    assert AllUnbroken(kept);
    RereadIs(kept);
  }

  lemma {:induction false} LastRecord(records: seq<Record>, rec: Record)
    requires RecordAt(records, rec.id) == |records|
    ensures RecordAt(records + [rec], rec.id) == |records|
    ensures (records + [rec])[..|records|] == records && (records + [rec])[|records| + 1..] == []
    ensures (records + [rec])[|records|] == rec && records + [] == records
    decreases |records|
  {
    if records != [] {
      LastRecord(records[1..], rec);
      assert (records + [rec])[1..] == records[1..] + [rec];
    }
  }

  lemma {:induction false} KeptOf(rec: Record, earlier: seq<Record>, a: seq<string>, b: seq<string>)
    requires forall l | l in a :: !Dropped(rec, earlier, l)
    ensures KeptBy(rec, earlier, a + b) == a + Filter(Stays(rec, earlier), b)
  {
    hide Dropped, Filter;
    FilterSum(Stays(rec, earlier), a, b);
    FilterAll(Stays(rec, earlier), a);
  }

  /** No line that was there is the text of a new cell. */
  lemma {:induction false} OldLinesStay(lines0: seq<string>, h: History, vals: set<string>, rec: Record)
    requires InStep(lines0, h) && rec.vals == Offered(h.lines, vals)
    ensures forall l | l in h.lines :: !Dropped(rec, h.records, l)
  {
    hide Strip, Stripped, IngestOk, IsKnown, InStep, InRecords, Offered;
    forall l | l in h.lines ensures !Dropped(rec, h.records, l) {
      if Strip(l) in rec.vals {
        OfferedIs(h.lines, vals, Strip(l));
        StripIs(l);
        AcceptedIsNoLine(h.lines, Strip(l), l);
      }
    }
  }

  lemma OfferedIs(lines: seq<string>, vals: set<string>, v: string)
    requires v in Offered(lines, vals)
    ensures v in vals && v != "" && !IsKnown(lines, v) && IngestOk(v)
  {}

  lemma {:induction false} NewLinesGoIff(lines0: seq<string>, h: History, vals: set<string>, rec: Record)
    requires InStep(lines0, h) && rec.vals == Offered(h.lines, vals)
    ensures Filter(Stays(rec, h.records), rec.vals) == [] <==> forall v | v in rec.vals :: Strip(v) in rec.vals
  {
    hide Strip, Stripped, IngestOk, IsKnown, InStep, InRecords, Offered, Filter;
    forall v | v in rec.vals ensures Dropped(rec, h.records, v) <==> Strip(v) in rec.vals {
      if Strip(v) in rec.vals {
        StripIs(v);
        OfferedIs(h.lines, vals, Strip(v));
        SafeStart(Strip(v));
        NotRecorded(lines0, h, Strip(v));
      }
    }
    if forall v | v in rec.vals :: Strip(v) in rec.vals {
      FilterNone(Stays(rec, h.records), rec.vals);
    } else {
      var v :| v in rec.vals && Strip(v) !in rec.vals;
      assert v in Filter(Stays(rec, h.records), rec.vals);
    }
  }

  /** What the file does not know is in no record. */
  lemma {:induction false} NotRecorded(lines0: seq<string>, h: History, v: string)
    requires InStep(lines0, h) && v != "" && Stripped(v) && IngestOk(v) && !IsKnown(h.lines, v)
    ensures !InRecords(h.records, v)
  {
    hide Strip, Stripped, IngestOk, IsKnown, InStep;
    NewIsNoLine(lines0, h, [v]);
    FlatHas(h.records, v);
    assert v in [v];
  }
}
