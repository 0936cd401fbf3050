/** Tags that restoring does not know: they stay as they are and are reported. After a lock every
    tag is one of them. */
module Reports {
  import opened Text
  import opened Restore
  import opened TagStore
  import opened Shapes
  import opened RoundTrip

  // ---------- a tag that is not known ----------

  /** The scan of all families leaves it and reports it when its family was seen. */
  lemma {:induction false} UnknownIsReported(t: Tables, seen: set<string>, fam: string, core: string, y: string)
    requires IsTag(fam, core) && Follows(core, y) && Resolve(t, fam, core).None?
    ensures RestoreAllReport(t, seen, fam + core + y)
         == Then(Restored(fam + core, 0, if fam in seen then [fam + core] else []), RestoreAllReport(t, seen, y))
  {
    hide IsTag, Follows, TokenAt;
    var s := fam + core + y;
    TagIsToken(fam, core, y);
    TagParts(fam, core, y);
    assert s[..|fam| + |core|] == fam + core;
    assert ReportHead(t, seen, s) == Restored(fam + core, 0, if fam in seen then [fam + core] else []);
  }

  /** The scan of its own family leaves it and reports it. */
  lemma {:induction false} UnknownInOwnScan(t: Tables, fam: string, core: string, y: string)
    requires IsTag(fam, core) && (y == "" || !IsHex(y[0])) && Resolve(t, fam, core).None?
    ensures RestoreOne(t, fam, fam + core + y)
         == Then(Restored(fam + core, 0, [fam + core]), RestoreOne(t, fam, y))
  {
    hide RestoreOne, IsFamily;
    var s := fam + core + y;
    TagParts(fam, core, y);
    assert forall i | |fam| <= i < |fam| + |core| :: s[i] == core[i - |fam|];
    TagLenIs(fam, s, |fam| + |core|);
    OneUnfolds(t, fam, s);
  }

  lemma OneUnfolds(t: Tables, fam: string, s: string)
    requires s != ""
    ensures RestoreOne(t, fam, s) == Then(Head(t, fam, s), RestoreOne(t, fam, s[Stride(fam, s)..]))
  {}

  lemma {:induction false} NoTagNoReport(t: Tables, g: string, s: string)
    requires forall i | 0 <= i < |s| :: !HasTag(g, s[i..])
    ensures RestoreOne(t, g, s) == Restored(s, 0, [])
    decreases |s|
  {
    hide HasTag;
    if s != "" {
      assert s[0..] == s;
      forall i | 0 <= i < |s[1..]| ensures !HasTag(g, s[1..][i..]) {
        assert s[1..][i..] == s[i + 1..];
      }
      NoTagNoReport(t, g, s[1..]);
      assert s[..1] + s[1..] == s;
    }
  }

  /** The scan of another family that keeps apart does not see it. */
  lemma {:induction false} UnknownInOtherScan(t: Tables, fam: string, core: string, g: string)
    requires IsTag(fam, core) && IsFamily(g) && g != fam && Apart(fam, g)
    ensures RestoreOne(t, g, fam + core) == Restored(fam + core, 0, [])
  {
    hide RestoreOne, IsFamily, Apart;
    var s := fam + core;
    assert forall i | |fam| <= i < |fam| + |core| :: s[i] == core[i - |fam|];
    TagLenIs(fam, s, |s|);
    forall i | 0 <= i < |s| ensures !HasTag(g, s[i..]) {
      NoTagInside(fam, g, s, i);
    }
    NoTagNoReport(t, g, s);
  }

  lemma {:induction false} PassesReport(t: Tables, fams: seq<string>, fam: string, core: string, found: seq<string>)
    requires IsTag(fam, core) && Resolve(t, fam, core).None?
    requires forall g | g in fams :: IsFamily(g) && (g != fam ==> Apart(fam, g))
    requires found == [] || found == [fam + core]
    ensures RunPasses(t, fams, Restored(fam + core, 0, found))
         == Restored(fam + core, 0, if fam in fams then [fam + core] else found)
    decreases |fams|
  {
    hide RestoreOne, IsFamily, Apart;
    var tag := fam + core;
    if fams != [] {
      assert fams == [fams[0]] + fams[1..];
      AddsOnce(tag);
      if fams[0] == fam {
        UnknownInOwnScan(t, fam, core, "");
        assert tag + "" == tag && [tag] + [] == [tag];
        NothingIsNothing(t, fam);
        PassesReport(t, fams[1..], fam, core, [tag]);
      } else {
        UnknownInOtherScan(t, fam, core, fams[0]);
        PassesReport(t, fams[1..], fam, core, found);
      }
    }
  }

  lemma NothingIsNothing(t: Tables, fam: string)
    ensures RestoreOne(t, fam, "") == Restored("", 0, [])
  {}

  lemma AddsOnce(tag: string)
    ensures AddNew([], [tag]) == [tag] && AddNew([tag], [tag]) == [tag]
    ensures AddNew([], []) == [] && AddNew([tag], []) == [tag]
  {
    assert [tag][1..] == [];
  }

  /** A lone tag that is not known, restored with a family list: it stays, and is reported exactly when its family
      is tried. */
  lemma {:induction false} UnknownIsReportedOnce(t: Tables, families: seq<string>, fam: string, core: string)
    requires IsTag(fam, core) && Resolve(t, fam, core).None?
    requires forall g | g in families + [PWD] && IsPrefix(g) && g != fam :: Apart(fam, g)
    ensures Desanitize(t, families, fam + core)
         == Restored(fam + core, 0, if IsPrefix(fam) && (fam in families || fam == PWD) then [fam + core] else [])
  {
    hide RunPasses, IsFamily, Apart, Keep;
    PassesHas(families);
    forall g | g in Passes(families) ensures IsFamily(g) && (g != fam ==> Apart(fam, g)) {
      assert IsPrefix(g);
    }
    PassesReport(t, Passes(families), fam, core, []);
  }

  // ---------- after a lock ----------

  const EMPTY := Tables(map[], map[])

  lemma EmptyAllHead(s: string)
    requires s != ""
    ensures AllHead(EMPTY, s) == Output(s[..AllStride(s)], 0)
  {
    hide TokenAt;
  }

  lemma {:induction false} EmptyScan(s: string)
    ensures RestoreAll(EMPTY, s) == Output(s, 0)
    decreases |s|
  {
    hide AllHead, AllStride;
    if s != "" {
      var k := AllStride(s);
      EmptyAllHead(s);
      EmptyScan(s[k..]);
      assert s[..k] + s[k..] == s;
    }
  }

  lemma {:induction false} EmptyPass(fam: string, s: string)
    ensures RestoreOne(EMPTY, fam, s).text == s && RestoreOne(EMPTY, fam, s).count == 0
    decreases |s|
  {
    hide TagLen;
    if s != "" {
      var k := Stride(fam, s);
      EmptyPass(fam, s[k..]);
      EmptyHead(fam, s);
      assert s[..k] + s[k..] == s;
    }
  }

  lemma EmptyHead(fam: string, s: string)
    requires s != ""
    ensures Head(EMPTY, fam, s).text == s[..Stride(fam, s)] && Head(EMPTY, fam, s).count == 0
  {
    if TagLen(fam, s) > 0 {
      assert s[..|fam|] + s[|fam|..TagLen(fam, s)] == s[..TagLen(fam, s)];
    }
  }

  lemma {:induction false} EmptyPasses(fams: seq<string>, s: string)
    ensures PassOut(EMPTY, fams, s) == Output(s, 0)
    decreases |fams|
  {
    if fams != [] {
      EmptyPass(fams[0], s);
      EmptyPasses(fams[1..], s);
    }
  }

  /** A locked store restores nothing in any text, with any family list; what was seen before is still
      reported. */
  lemma {:induction false} LockRestoresNothing(st: Store, salt: string, families: seq<string>, s: string)
    ensures var t := TablesOf(Lock(st, salt));
            RestoreAll(t, s) == Output(s, 0) && Out(Desanitize(t, families, s)) == Output(s, 0)
    ensures var b := Lock(st, salt); b.extra == map[] && b.values == [] && b.prefixes == map[] && !b.loaded
    ensures forall fam, core | IsTag(fam, core) && fam in st.session ::
              RestoreAllReport(TablesOf(Lock(st, salt)), Lock(st, salt).session, fam + core).unresolved == [fam + core]
  {
    hide RestoreAllReport, IsTag;
    EmptyScan(s);
    EmptyPasses(Passes(families), s);
    RunPassesOut(EMPTY, Passes(families), Restored(s, 0, []));
    forall fam, core | IsTag(fam, core) && fam in st.session
      ensures RestoreAllReport(EMPTY, st.session, fam + core).unresolved == [fam + core]
    {
      UnknownIsReported(EMPTY, st.session, fam, core, "");
      NothingToReport(st.session);
      assert fam + core + "" == fam + core && [fam + core] + [] == [fam + core];
    }
  }

  lemma NothingToReport(seen: set<string>)
    ensures RestoreAllReport(EMPTY, seen, "") == Restored("", 0, [])
  {}
}
