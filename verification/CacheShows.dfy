/** A table on which the cache of a batch does show: the run that takes a cell from the cache
    gets through, the run that works it out anew is refused. */
module CacheShows {
  import opened Text
  import opened Simultaneous
  import opened TagStore
  import opened StoreRuns
  import opened Sweep
  import opened Shapes
  import opened LeakCheck
  import opened Sanitize
  import opened RoundTrip
  import opened NoLeak
  import opened Repeats
  import opened Rows

  // The vault holds one value, with blanks in it. A kept tag stands in a cell where, with a blank
  // in the tag's place, that value can be read.

  const ODD := "b   c"
  const KEPT_TAG := "PWD_deadbeef"
  const KEPT := "ab PWD_deadbeef cd"
  const NAME := "John"
  const OTHER := "NOME_"

  /** The second column may be tagged whole, with a family of its own. */
  function TwoColumns(lower: string -> string): Request {
    Request("tag", false, false, Some({1}), PWD, map[1 := OTHER], lower)
  }

  const TABLE: seq<seq<string>> := [[KEPT, NAME], [KEPT, NAME]]

  /** A loaded store with that vault, that tag, and these families so far. */
  ghost predicate Stage(st: Store, fams: set<string>) {
    Coherent(st) && st.loaded && st.values == [ODD] && KEPT_TAG in st.tags && CheckFams(st) == fams
  }

  lemma StageAlike(a: Store, b: Store, fams: set<string>)
    requires Stage(a, fams) && Alike(b, a) && Coherent(b)
    ensures Stage(b, fams)
  {}

  // ---------- the pieces ----------

  lemma {:induction false} ShortRaw(s: string, e: nat)
    requires e <= |s| < 9
    ensures RawFrom(s, e) == 0
    decreases e
  {
    if e > 0 {
      ShortRaw(s, e - 1);
    }
  }

  lemma ShortIsShapeless(s: string)
    requires |s| < 9
    ensures Shapeless(s)
  {
    forall i | 0 <= i < |s| ensures RawLen(s[i..]) == 0 {
      ShortRaw(s[i..], FamilyRun(s[i..]));
    }
  }

  lemma TooShort(l: string)
    requires |l| < 5
    ensures NoValue([ODD], l)
  {
    assert forall w: string | w in [ODD] :: |w| == 5;
  }

  /** The cell as a document. */
  lemma KeptIsDoc(st: Store, fams: set<string>)
    requires Stage(st, fams)
    ensures IsTag(PWD, "deadbeef") && Follows("deadbeef", " cd") && PWD + "deadbeef" == KEPT_TAG
    ensures Shapeless("ab ") && Shapeless(" cd") && NoValue(st.values, "ab ") && NoValue(st.values, " cd")
    ensures KEPT_TAG !in st.values && !IsFamilyChar("ab "[2])
    ensures "ab " + (KEPT_TAG + " cd") == KEPT
  {
    ShortIsShapeless("ab ");
    ShortIsShapeless(" cd");
    TooShort("ab ");
    TooShort(" cd");
    assert |KEPT_TAG| == 12 && |ODD| == 5;
  }

  lemma BlanksInOdd(s: string, i: nat)
    requires StandsAt(s, ODD, i)
    ensures i + 5 <= |s| && s[i + 1] == ' ' && s[i + 2] == ' '
  {
    assert s[i..i + 5][1] == s[i + 1] && s[i..i + 5][2] == s[i + 2];
  }

  lemma OddIsNotThere()
    ensures !Contains(KEPT, ODD)
  {
    assert forall k | 0 <= k < 17 :: KEPT[k] != ' ' || KEPT[k + 1] != ' ';
    forall i: nat | i <= |KEPT| ensures !StandsAt(KEPT, ODD, i) {
      if StandsAt(KEPT, ODD, i) {
        BlanksInOdd(KEPT, i);
        assert false;
      }
    }
  }

  lemma NotInName()
    ensures !Contains(NAME, ODD)
  {
    assert |NAME| == 4 && |ODD| == 5;
  }

  // ---------- before and after the family ----------

  /** While the default family is the only one the cell passes the check. */
  lemma {:induction false} KeptPassesFirst(st: Store)
    requires Stage(st, {PWD})
    ensures var w := SanitizeText(st, KEPT, PWD);
            w.Done? && Changes(w.doc) == 0 && Render(w.doc) == KEPT && Alike(w.st, st) && Stage(w.st, {PWD})
  {
    hide SanitizeText, Shapeless, NoValue, Separated, ShapelessLits, Fams;
    KeptIsDoc(st, {PWD});
    OneTagDoc(st, "ab ", PWD, "deadbeef", " cd");
    var d := Seg("ab ", Atom(KEPT_TAG, KEPT_TAG, true), End(" cd"));
    KnownTextIff(st, d, PWD);
    OneFamily(st);
    OddIsNotThere();
    SanitizeIsGood(st, KEPT, PWD);
    StageAlike(st, SanitizeText(st, KEPT, PWD).st, {PWD});
  }

  lemma {:induction false} NamePasses(st: Store)
    requires Stage(st, {PWD})
    ensures var w := SanitizeText(st, NAME, OTHER);
            w.Done? && Changes(w.doc) == 0 && Stage(w.st, {PWD})
  {
    hide SanitizeText, Shapeless, NoValue, Fams;
    ShortIsShapeless(NAME);
    TooShort(NAME);
    KnownTextIff(st, End(NAME), OTHER);
    OneFamily(st);
    NotInName();
    SanitizeIsGood(st, NAME, OTHER);
    StageAlike(st, SanitizeText(st, NAME, OTHER).st, {PWD});
  }

  lemma OtherIsFamily(core: string)
    requires AllHex(core)
    ensures FamilyOf(OTHER + core) == {OTHER}
  {
    FamilyEndIs(OTHER, core);
    assert (OTHER + core)[..5] == OTHER;
  }

  /** Tagging the name brings the other family in. */
  lemma {:induction false} NameBringsFamily(st: Store)
    requires Stage(st, {PWD})
    ensures var m := MintCell(st, OTHER, NAME);
            m.tag.Some? && Stage(m.st, {PWD, OTHER})
  {
    var core := Core(st, NAME, 4);
    var tag := OTHER + core;
    OtherIsFamily(core);
    assert tag in st.tags ==> OTHER in Families(st.tags);
    MintCellKeeps(st, OTHER, NAME);
    MintedFamilies(st, tag);
  }

  lemma MintedFamilies(st: Store, tag: string)
    requires Stage(st, {PWD}) && tag == OTHER + Core(st, NAME, 4) && tag !in st.tags
    ensures var m := MintCell(st, OTHER, NAME);
            m.tag == Some(tag) && CheckFams(m.st) == {PWD, OTHER}
  {
    var m := MintCell(st, OTHER, NAME);
    OtherIsFamily(Core(st, NAME, 4));
    FamiliesOfDefault(st.tags, tag, NAME);
    assert m.tag == Some(tag);
    assert m.st.tags == Default(st.tags, tag, NAME);
    assert m.st.session == st.session + {OTHER};
    assert Families(m.st.tags) == Families(st.tags) + {OTHER};
  }

  /** With both families the same cell is refused. */
  lemma {:induction false} KeptFailsThen(st: Store)
    requires Stage(st, {PWD, OTHER})
    ensures SanitizeText(st, KEPT, PWD).Failed?
  {
    hide SanitizeText, Shapeless, NoValue, FirstFam, Fams;
    KeptIsDoc(st, {PWD, OTHER});
    OneFamily(st);
    assert OTHER in CheckFams(st) && OTHER != PWD;
    var z := PWD + "deadbeef" + " cd";
    forall i | 0 <= i < 3 ensures FirstFam(Fams(st), "ab "[i..] + z) == |Fams(st)| {
      StartsNone(st, "ab "[i..] + z);
    }
    forall i | 0 <= i < 3 ensures FirstFam(Fams(st), " cd"[i..] + "") == |Fams(st)| {
      StartsNone(st, " cd"[i..] + "");
    }
    ReadsDefault(st);
    var x := "ab " + (" " + " cd");
    assert x[1..6] == ODD;
    assert StandsAt(x, ODD, 1) && ODD in st.values && |ODD| == 5;
    assert Contains(x, ODD) && FoundIn(st.values, x);
    OneTagIff(st, "ab ", PWD, "deadbeef", " cd", PWD);
  }

  lemma StartsNone(st: Store, s: string)
    requires CheckFams(st) == {PWD, OTHER} && s != "" && s[0] != 'P' && s[0] != 'N'
    ensures FirstFam(Fams(st), s) == |Fams(st)|
  {
    hide CheckFams, Fams;
    OneFamily(st);
    forall f | f in Fams(st) ensures !HasTag(f, s) {
      assert f == PWD || f == OTHER;
    }
  }

  lemma ReadsDefault(st: Store)
    requires CheckFams(st) == {PWD, OTHER}
    ensures ReadAs(Fams(st), PWD, "deadbeef", " cd")
  {
    hide CheckFams, Fams;
    OneFamily(st);
    TagIsThere(PWD, "deadbeef", " cd");
    var s := PWD + "deadbeef" + " cd";
    assert s[0] == 'P';
    assert !HasTag(OTHER, s);
    var fams := Fams(st);
    var k :| 0 <= k < |fams| && fams[k] == PWD;
    var i := FirstFam(fams, s);
    assert i <= k;
    assert fams[i] in fams && HasTag(fams[i], s);
  }

  // ---------- the two runs ----------

  lemma PlansAre(lower: string -> string, first: seq<string>)
    ensures PlanOf(TwoColumns(lower), first, 0) == Plan(false, "", PWD, false, "")
    ensures PlanOf(TwoColumns(lower), first, 1) == Plan(true, "", OTHER, true, OTHER)
    ensures ValidRequest(TwoColumns(lower))
  {
    assert IsPrefix(PWD) && IsPrefix(OTHER);
  }

  lemma {:induction false} KeptCell(st: Store, p: Plan)
    requires p == Plan(false, "", PWD, false, "")
    ensures Stage(st, {PWD}) ==>
              var w := SanitizeCell(st, KEPT, p, false); w.CellDone? && w.out == KEPT && Stage(w.st, {PWD})
    ensures Stage(st, {PWD, OTHER}) ==> SanitizeCell(st, KEPT, p, false).CellFailed?
  {
    hide SanitizeText, Stage;
    if Stage(st, {PWD}) {
      KeptPassesFirst(st);
      IsLoaded(st, {PWD});
    }
    if Stage(st, {PWD, OTHER}) {
      KeptFailsThen(st);
    }
    assert KEPT != "";
  }

  lemma IsLoaded(st: Store, fams: set<string>)
    requires Stage(st, fams)
    ensures st.loaded
  {}

  lemma {:induction false} NameCell(st: Store, p: Plan)
    requires p == Plan(true, "", OTHER, true, OTHER) && Stage(st, {PWD})
    ensures var w := SanitizeCell(st, NAME, p, false); w.CellDone? && Stage(w.st, {PWD, OTHER})
  {
    hide SanitizeText, Stage, MintCell;
    NamePasses(st);
    IsLoaded(st, {PWD});
    NameBringsFamily(SanitizeText(st, NAME, OTHER).st);
    assert |NAME| == 4;
  }

  /** The first row, with or without the cache. */
  lemma {:induction false} RowOnce(q: Request, caching: bool, st: Store, row: seq<string>, first: seq<string>)
    requires PlanOf(q, first, 0) == Plan(false, "", PWD, false, "")
    requires PlanOf(q, first, 1) == Plan(true, "", OTHER, true, OTHER)
    requires !q.typed && row == [KEPT, NAME] && Stage(st, {PWD})
    ensures var r := RunRow(q, first, false, caching, st, map[], row, 0);
            r.Ran? && Stage(r.st, {PWD, OTHER})
            && KeyOf(PlanOf(q, first, 0), KEPT) in r.cache && KeyOf(PlanOf(q, first, 1), NAME) in r.cache
  {
    hide SanitizeCell, PlanOf, Stage;
    var p0, p1 := PlanOf(q, first, 0), PlanOf(q, first, 1);
    KeptCell(st, p0);
    var w := SanitizeCell(st, KEPT, p0, false);
    NameCell(w.st, p1);
    var c0 := RunCell(q, p0, false, caching, st, map[], KEPT);
    assert KeyOf(p1, NAME) !in c0.cache;
    var c1 := RunCell(q, p1, false, caching, c0.st, c0.cache, NAME);
    RowEnd(q, first, caching, c1.st, c1.cache, row);
    assert c1.Ran?;
    assert RunRow(q, first, false, caching, c0.st, c0.cache, row, 1).Ran?;
  }

  lemma RowEnd(q: Request, first: seq<string>, caching: bool, st: Store, cache: Cache, row: seq<string>)
    ensures RunRow(q, first, false, caching, st, cache, row, |row|) == Ran(st, cache, [], 0, 0)
  {}

  /** The second row: taken from the cache, or refused at its first cell. */
  lemma {:induction false} RowTwice(q: Request, caching: bool, st: Store, cache: Cache, row: seq<string>,
                                    first: seq<string>)
    requires PlanOf(q, first, 0) == Plan(false, "", PWD, false, "")
    requires !q.typed && row == [KEPT, NAME] && Stage(st, {PWD, OTHER})
    requires KeyOf(PlanOf(q, first, 0), KEPT) in cache && KeyOf(PlanOf(q, first, 1), NAME) in cache
    ensures RunRow(q, first, false, caching, st, cache, row, 0).Ran? <==> caching
  {
    hide SanitizeCell, PlanOf, Stage;
    KeptCell(st, PlanOf(q, first, 0));
    RowEnd(q, first, caching, st, cache, row);
    if caching {
      assert RunCell(q, PlanOf(q, first, 1), false, true, st, cache, NAME).Ran?;
      assert RunRow(q, first, false, true, st, cache, row, 1).Ran?;
    }
  }

  /** From every such store: the batch with its cache gets through, and working out the repeated
      cell anew is refused. */
  lemma {:induction false} CacheLetsPass(st: Store, lower: string -> string)
    requires Stage(st, {PWD})
    ensures var q := TwoColumns(lower);
            ValidRequest(q) && RunRows(q, true, st, map[], TABLE, 0).Ran?
            && RunRows(q, false, st, map[], TABLE, 0).Stopped?
  {
    hide RunRow, PlanOf, Stage;
    var q, first := TwoColumns(lower), TABLE[0];
    PlansAre(lower, first);
    RowOnce(q, true, st, TABLE[0], first);
    RowOnce(q, false, st, TABLE[0], first);
    var r := RunRow(q, first, false, true, st, map[], TABLE[0], 0);
    var u := RunRow(q, first, false, false, st, map[], TABLE[0], 0);
    RowTwice(q, true, r.st, r.cache, TABLE[1], first);
    RowTwice(q, false, u.st, u.cache, TABLE[1], first);
    var r2 := RunRow(q, first, false, true, r.st, r.cache, TABLE[1], 0);
    assert RunRows(q, true, r2.st, r2.cache, TABLE, 2).Ran?;
    assert RunRows(q, true, r.st, r.cache, TABLE, 1).Ran?;
    assert RunRows(q, false, u.st, u.cache, TABLE, 1).Stopped?;
  }

  // ---------- such a store ----------

  function Zeros(salt: string, v: string): Digest { seq(64, i => '0') }

  /** One value loaded under a digest of zeros, and one cell tagged before. */
  function Example(): Store {
    Store(Zeros, "", [ODD], map["PWD_00000000" := ODD, KEPT_TAG := "Anna"], map[], map[], map[], None, {PWD}, true)
  }

  lemma ExampleIsStage()
    ensures Stage(Example(), {PWD}) && Tagged(Example())
  {
    var st := Example();
    FamilyEndIs(PWD, "00000000");
    FamilyEndIs(PWD, "deadbeef");
    assert PWD + "00000000" == "PWD_00000000" && PWD + "deadbeef" == KEPT_TAG;
    assert "PWD_00000000"[..4] == PWD && KEPT_TAG[..4] == PWD;
    assert Families(st.tags) <= {PWD};
    assert Core(st, ODD, 4) == "00000000";
    assert Holds(st, ODD, 4);
  }
}
