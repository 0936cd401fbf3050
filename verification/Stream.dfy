/** The streaming restorer: where the buffer is cut, and why no cut shows. */
module Stream {
  import opened Text
  import opened Restore
  import opened Simultaneous
  import opened Stretches

  // ---------- the cut ----------

  /** Last occurrence of `fam` in `s` at or before `i`, or -1. */
  function RFindFrom(fam: string, s: string, i: int): (r: int)
    requires i <= |s|
    ensures -1 <= r && (r >= 0 ==> r <= i && fam <= s[r..])
    ensures forall j | 0 <= j <= i && r < j :: !(fam <= s[j..])
    decreases i
  {
    if i < 0 then -1 else if fam <= s[i..] then i else RFindFrom(fam, s, i - 1)
  }

  function RFind(fam: string, s: string): int { RFindFrom(fam, s, |s|) }

  /** First position from `i` on whose suffix is a prefix of `fam`, or the end. */
  function TailFrom(fam: string, s: string, i: nat): (r: nat)
    requires i <= |s|
    ensures i <= r <= |s|
    ensures r < |s| ==> s[r..] <= fam
    ensures forall j | i <= j < r :: !(s[j..] <= fam)
    decreases |s| - i
  {
    if i == |s| || s[i..] <= fam then i else TailFrom(fam, s, i + 1)
  }

  /** A suffix that is a proper prefix of the family waits for more text. */
  function TailHold(fam: string, s: string): nat {
    if fam == "" then |s|
    else TailFrom(fam, s, if |fam| - 1 <= |s| then |s| - (|fam| - 1) else 0)
  }

  /** The last family occurrence waits while its core is short or could still grow. */
  function CoreHold(fam: string, s: string): (r: nat)
    ensures r <= |s|
  {
    var i := RFind(fam, s);
    if i < 0 then |s|
    else
      var core := s[i + |fam|..];
      var n := HexRun(core, |core|);
      if n < 8 || (n < 12 && n == |core|) then i else |s|
  }

  function Min(a: nat, b: nat): nat { if a <= b then a else b }

  /** The earliest position some family asks to hold. */
  function Cut(fams: seq<string>, s: string): (r: nat)
    ensures r <= |s|
    decreases |fams|
  {
    if fams == [] then |s|
    else Min(Min(TailHold(fams[0], s), CoreHold(fams[0], s)), Cut(fams[1..], s))
  }

  /** The two searches one after the other: all tails, then all cores. */
  function MinTails(fams: seq<string>, s: string): (r: nat)
    ensures r <= |s|
    decreases |fams|
  {
    if fams == [] then |s| else Min(TailHold(fams[0], s), MinTails(fams[1..], s))
  }

  function MinCores(fams: seq<string>, s: string): (r: nat)
    ensures r <= |s|
    decreases |fams|
  {
    if fams == [] then |s| else Min(CoreHold(fams[0], s), MinCores(fams[1..], s))
  }

  lemma {:induction false} CutIsBoth(fams: seq<string>, s: string)
    ensures Cut(fams, s) == Min(MinTails(fams, s), MinCores(fams, s))
    decreases |fams|
  {
    hide TailHold, CoreHold;
    if fams != [] {
      CutIsBoth(fams[1..], s);
    }
  }

  lemma {:induction false} CutIs(fams: seq<string>, s: string)
    ensures forall f | f in fams :: Cut(fams, s) <= TailHold(f, s) && Cut(fams, s) <= CoreHold(f, s)
    ensures Cut(fams, s) < |s| ==>
              exists g :: g in fams && Compatible(g, s[Cut(fams, s)..])
    decreases |fams|
  {
    if fams != [] {
      var g := fams[0];
      CutIs(fams[1..], s);
      if Cut(fams, s) < |s| {
        if Cut(fams, s) == Cut(fams[1..], s) {
          var h :| h in fams[1..] && Compatible(h, s[Cut(fams, s)..]);
          assert h in fams;
        } else {
          assert Compatible(g, s[Cut(fams, s)..]);
        }
      }
    }
  }

  // ---------- what a feed holds, read off the text ----------

  /** What stands behind a family is a finished core: twelve digits, or eight to eleven and then a
      character that is no digit. */
  predicate Finished(core: string) {
    var n := HexRun(core, 12);
    n == 12 || 8 <= n < |core|
  }

  /** The family stands at `i` and nowhere behind it. */
  predicate LastAt(fam: string, s: string, i: nat) {
    i <= |s| && fam <= s[i..] && forall j | i < j <= |s| :: !(fam <= s[j..])
  }

  /** From `i` on the text may still become a tag of the family: it is a proper prefix of the
      family, or the last occurrence of it without a finished core. */
  predicate Waits(fam: string, s: string, i: nat) {
    i < |s| && (s[i..] < fam || (LastAt(fam, s, i) && !Finished(s[i + |fam|..])))
  }

  lemma RunToEnd(core: string)
    ensures var n := HexRun(core, |core|); HexRun(core, 12) == if n < 12 then n else 12
  {
    var n := HexRun(core, |core|);
    var m := if n < 12 then n else 12;
    assert forall i | 0 <= i < m :: core[..m][i] == core[..n][i];
    HexRunIs(core, 12, m);
  }

  lemma TailWaits(fam: string, s: string)
    requires fam != ""
    ensures TailHold(fam, s) < |s| ==> s[TailHold(fam, s)..] < fam
    ensures forall i: nat | i < |s| && s[i..] < fam :: TailHold(fam, s) <= i
  {}

  lemma CoreWaits(fam: string, s: string)
    requires fam != ""
    ensures var i := CoreHold(fam, s); i < |s| ==> LastAt(fam, s, i) && !Finished(s[i + |fam|..])
    ensures forall i: nat | LastAt(fam, s, i) && !Finished(s[i + |fam|..]) :: CoreHold(fam, s) == i
  {
    hide Finished, HexRun;
    var r := RFind(fam, s);
    assert forall i: nat | LastAt(fam, s, i) :: r == i;
    if r >= 0 {
      assert LastAt(fam, s, r);
      CoreIsFinished(s[r + |fam|..]);
    }
  }

  lemma CoreIsFinished(core: string)
    ensures var n := HexRun(core, |core|); Finished(core) <==> !(n < 8 || (n < 12 && n == |core|))
  {
    hide HexRun;
    RunToEnd(core);
  }

  /** The cut is the first position from which some listed family still waits. */
  lemma {:induction false} CutIsFirstWaiting(fams: seq<string>, s: string)
    requires "" !in fams
    ensures Cut(fams, s) < |s| ==> exists f :: f in fams && Waits(f, s, Cut(fams, s))
    ensures forall f, i: nat | f in fams && Waits(f, s, i) :: Cut(fams, s) <= i
    decreases |fams|
  {
    hide TailHold, CoreHold, Finished, LastAt;
    if fams != [] {
      var g, c := fams[0], Cut(fams, s);
      CutIsFirstWaiting(fams[1..], s);
      TailWaits(g, s);
      CoreWaits(g, s);
      assert forall f | f in fams :: f == g || f in fams[1..];
      if c < |s| {
        if c == Cut(fams[1..], s) {
          var h :| h in fams[1..] && Waits(h, s, c);
          assert h in fams;
        } else {
          assert g in fams && Waits(g, s, c);
        }
      }
    }
  }

  lemma LastIsInside(fam: string, s: string, i: nat)
    requires fam != "" && LastAt(fam, s, i)
    ensures i < |s|
  {}

  /** No suffix is a proper prefix of a listed family, and the last occurrence of every listed
      family has a finished core. */
  ghost predicate Ended(fams: seq<string>, s: string) {
    && (forall f, i: nat | f in fams && i < |s| :: !(s[i..] < f))
    && (forall f, i: nat | f in fams && LastAt(f, s, i) :: Finished(s[i + |f|..]))
  }

  /** A text is released whole exactly when it has ended in this sense. */
  lemma ReleasedWholeIff(fams: seq<string>, s: string)
    requires "" !in fams
    ensures Cut(fams, s) == |s| <==> Ended(fams, s)
  {
    hide Finished, Cut;
    CutIsFirstWaiting(fams, s);
    var c := Cut(fams, s);
    if c < |s| {
      var f :| f in fams && Waits(f, s, c);
      assert s[c..] < f || LastAt(f, s, c);
    } else {
      forall f, i: nat | f in fams && LastAt(f, s, i) ensures Finished(s[i + |f|..]) {
        LastIsInside(f, s, i);
        assert !Waits(f, s, i);
      }
      assert forall f, i: nat | f in fams && i < |s| && s[i..] < f :: Waits(f, s, i);
    }
  }

  // ---------- families a stream can be run with ----------

  /** No listed family begins strictly inside a tag of another or of its own. */
  predicate Unnested(fams: seq<string>) {
    forall f, g, p: nat | f in fams && g in fams && 0 < p < |f| :: !CanBegin(f, p, g)
  }

  predicate StreamFams(fams: seq<string>) { forall f | f in fams :: IsFamily(f) }

  /** A tag that starts before the cut and would reach beyond it lies in the buffer. */
  lemma HeldUnlessWhole(f: string, s: string, z: string, cut: nat, i: nat)
    requires IsFamily(f) && i < cut <= |s|
    requires cut <= TailHold(f, s) && cut <= CoreHold(f, s)
    requires forall p: nat | 0 < p < |f| :: !CanBegin(f, p, f)
    requires HasTag(f, s[i..] + z)
    ensures i + TagLen(f, s[i..] + z) <= |s|
  {
    var w := s[i..] + z;
    var n := TagLen(f, w);
    FamilyInBuffer(f, s, z, cut, i);
    var last := RFind(f, s);
    assert last >= i;
    if i < last < i + n {
      SecondInside(f, s, z, i, last);
      assert false;
    }
    if last == i {
      WholeCore(f, s, z, i);
    }
  }

  /** The family itself is complete: a partial one at the end of the buffer is held. */
  lemma FamilyInBuffer(f: string, s: string, z: string, cut: nat, i: nat)
    requires IsFamily(f) && i < cut <= |s| && cut <= TailHold(f, s) && f <= s[i..] + z
    ensures f <= s[i..]
  {
    PrefixCompatible(f, s[i..], z);
    var tail := s[i..];
    assert !(f <= tail) ==> tail <= f && |tail| < |f|;
  }

  lemma SecondInside(f: string, s: string, z: string, i: nat, last: nat)
    requires IsFamily(f) && i < last <= |s| && f <= s[last..]
    requires HasTag(f, s[i..] + z) && last < i + TagLen(f, s[i..] + z)
    ensures last - i < |f| && CanBegin(f, last - i, f)
  {
    var w := s[i..] + z;
    assert w[last - i..] == s[last..] + z;
    BeginInside(f, f, w, last - i);
  }

  /** The last occurrence is released only with a core that nothing can lengthen. */
  lemma WholeCore(f: string, s: string, z: string, i: nat)
    requires i < |s| && RFind(f, s) == i && CoreHold(f, s) > i && HasTag(f, s[i..] + z)
    ensures i + TagLen(f, s[i..] + z) <= |s|
  {
    hide TagLen;
    var core := s[i + |f|..];
    CoreBehind(f, s[i..], z);
    assert s[i..][|f|..] == core;
    FinishedTag(f, core, z);
  }

  lemma CoreBehind(f: string, w: string, z: string)
    requires f <= w
    ensures w + z == f + (w[|f|..] + z)
  {}

  /** A finished core ends its tag whatever follows. */
  lemma FinishedTag(f: string, core: string, z: string)
    requires var n := HexRun(core, |core|); n >= 12 || 8 <= n < |core|
    ensures TagLen(f, f + (core + z)) <= |f| + |core|
  {
    hide HexRun;
    var w := f + (core + z);
    var n := HexRun(core, |core|);
    var m := if n < 12 then n else 12;
    forall k | |f| <= k < |f| + m ensures IsHex(w[k]) {
      assert w[k] == core[k - |f|] == core[..n][k - |f|];
    }
    assert n < |core| ==> w[|f| + n] == core[n];
    TagLenIs(f, w, |f| + m);
  }

  /** No tag of a listed family reaches across the cut, whatever arrives later. */
  lemma {:induction false} CutIsClean(f: string, fams: seq<string>, s: string, z: string)
    requires StreamFams(fams) && Unnested(fams) && f in fams
    ensures Clean(f, s[..Cut(fams, s)], s[Cut(fams, s)..] + z)
  {
    var cut := Cut(fams, s);
    var a, b := s[..cut], s[cut..] + z;
    forall i | 0 <= i < |a| ensures i + TagLen(f, a[i..] + b) <= |a| {
      CutSuffix(s, z, cut, i);
      NoTagAcross(f, fams, s, z, i);
    }
    CleanIf(f, a, b);
  }

  lemma CutSuffix(s: string, z: string, cut: nat, i: nat)
    requires i <= cut <= |s|
    ensures s[..cut][i..] + (s[cut..] + z) == s[i..] + z
  {}

  lemma {:induction false} NoTagAcross(f: string, fams: seq<string>, s: string, z: string, i: nat)
    requires StreamFams(fams) && Unnested(fams) && f in fams && i < Cut(fams, s)
    ensures i + TagLen(f, s[i..] + z) <= Cut(fams, s)
  {
    var cut := Cut(fams, s);
    CutIs(fams, s);
    if HasTag(f, s[i..] + z) {
      HeldUnlessWhole(f, s, z, cut, i);
      if cut < |s| {
        var g :| g in fams && Compatible(g, s[cut..]);
        WholeBeforeCut(f, g, s, z, cut, i);
      }
    }
  }

  /** A tag that lies in the buffer ends before the cut, where a family starts. */
  lemma WholeBeforeCut(f: string, g: string, s: string, z: string, cut: nat, i: nat)
    requires IsFamily(f) && IsFamily(g) && i < cut < |s|
    requires forall p: nat | 0 < p < |f| :: !CanBegin(f, p, g)
    requires Compatible(g, s[cut..]) && HasTag(f, s[i..] + z) && i + TagLen(f, s[i..] + z) <= |s|
    ensures i + TagLen(f, s[i..] + z) <= cut
  {
    var n := TagLen(f, s[i..] + z);
    TagLenPrefix(f, s[i..], z);
    if cut < i + n {
      assert s[i..][cut - i..] == s[cut..];
      BeginInside(f, g, s[i..], cut - i);
      assert false;
    }
  }

  // ---------- whole streams ----------

  function Concat(chunks: seq<string>): string
    decreases |chunks|
  {
    if chunks == [] then "" else chunks[0] + Concat(chunks[1..])
  }

  /** Text and count of a restore with an explicit family list. */
  function RestoreList(t: Tables, fams: seq<string>, s: string): Output {
    PassOut(t, Passes(fams), s)
  }

  /** The outputs of feeding the chunks one by one, then flushing the buffer. */
  function Run(t: Tables, fams: seq<string>, buf: string, chunks: seq<string>): Output
    decreases |chunks|
  {
    if chunks == [] then RestoreList(t, fams, buf)
    else
      var all := buf + chunks[0];
      var cut := Cut(fams, all);
      Join(RestoreList(t, fams, all[..cut]), Run(t, fams, all[cut..], chunks[1..]))
  }

  /** Restores that can be done piece by piece: a single pass, on any text; or families that
      keep apart, on a text of which every stretch between characters of neither alphabet is one
      tag, whatever that stands for, or has only tags whose values make no tag with what stands
      around them. */
  predicate Tame(t: Tables, passes: seq<string>, s: string) {
    passes == [PWD] || (Disjointed(passes) && CutText(t, passes, s))
  }

  /** Restores that one scan can do: the same, but for lone tags whose value shows a listed tag
      itself. */
  predicate Scannable(t: Tables, passes: seq<string>, s: string) {
    passes == [PWD] || (Disjointed(passes) && CalmText(t, passes, s))
  }

  lemma ScannableIsTame(t: Tables, passes: seq<string>, s: string)
    requires Scannable(t, passes, s)
    ensures Tame(t, passes, s)
  {
    hide Disjointed;
    if passes != [PWD] {
      CalmIsCut(t, passes, s);
    }
  }

  lemma {:induction false} PieceByPiece(t: Tables, passes: seq<string>, s: string, u: string)
    requires Tame(t, passes, s + u) && CleanFor(passes, s, u)
    ensures PassOut(t, passes, s + u) == Join(PassOut(t, passes, s), PassOut(t, passes, u)) && Tame(t, passes, u)
  {
    hide CutText, Disjointed;
    if passes == [PWD] {
      assert Clean(PWD, s, u);
      RestoreSplits(t, PWD, s, u);
      OnePass(t, PWD, s);
      OnePass(t, PWD, u);
      OnePass(t, PWD, s + u);
    } else {
      CutPieces(t, passes, s, u);
    }
  }

  /** One feed: the released text and everything after it restore independently. */
  lemma CutIsInvisible(t: Tables, fams: seq<string>, passes: seq<string>, s: string, z: string)
    requires StreamFams(fams) && Unnested(fams) && Tame(t, passes, s + z)
    requires forall f | f in passes :: f in fams
    ensures PassOut(t, passes, s + z)
         == Join(PassOut(t, passes, s[..Cut(fams, s)]), PassOut(t, passes, s[Cut(fams, s)..] + z))
    ensures Tame(t, passes, s[Cut(fams, s)..] + z)
  {
    var a, b := s[..Cut(fams, s)], s[Cut(fams, s)..] + z;
    forall f | f in passes ensures Clean(f, a, b) {
      CutIsClean(f, fams, s, z);
    }
    assert a + b == s + z;
    PieceByPiece(t, passes, a, b);
  }

  lemma {:induction false} RunIsWhole(t: Tables, fams: seq<string>, buf: string, chunks: seq<string>)
    requires StreamFams(fams) && Unnested(fams) && Tame(t, Passes(fams), buf + Concat(chunks))
    requires forall f | f in Passes(fams) :: f in fams
    ensures Run(t, fams, buf, chunks) == RestoreList(t, fams, buf + Concat(chunks))
    decreases |chunks|
  {
    if chunks == [] {
      assert buf + Concat(chunks) == buf;
    } else {
      var all, z := buf + chunks[0], Concat(chunks[1..]);
      var cut := Cut(fams, all);
      SumAssoc(buf, chunks[0], z);
      DropSum(all, z, cut);
      CutIsInvisible(t, fams, Passes(fams), all, z);
      RunIsWhole(t, fams, all[cut..], chunks[1..]);
      RunUnfolds(t, fams, buf, chunks);
    }
  }

  lemma RunUnfolds(t: Tables, fams: seq<string>, buf: string, chunks: seq<string>)
    requires chunks != []
    ensures var all := buf + chunks[0];
            Run(t, fams, buf, chunks) == Join(PassOut(t, Passes(fams), all[..Cut(fams, all)]),
                                              Run(t, fams, all[Cut(fams, all)..], chunks[1..]))
  {}

  lemma RunEnds(t: Tables, fams: seq<string>, buf: string)
    ensures Run(t, fams, buf, []) == PassOut(t, Passes(fams), buf)
  {}

  lemma DefaultPasses()
    ensures Passes([PWD]) == [PWD]
  {
    assert [PWD] + [PWD] == [PWD, PWD];
    assert Keep([PWD, PWD][1..], [] + [PWD]) == Keep([PWD, PWD][1..][1..], [PWD]);
  }

  lemma OnePass(t: Tables, fam: string, s: string)
    ensures PassOut(t, [fam], s) == Out(RestoreOne(t, fam, s))
  {
    PassOutIs(t, fam, [], s);
  }

  lemma DefaultUnnested()
    ensures StreamFams([PWD]) && Unnested([PWD])
  {
    assert PWD[1..] == "WD_" && PWD[2..] == "D_" && PWD[3..] == "_";
  }

  /** Chunk invariance, without any premise on texts, values or tables: however a text
      is cut, the default stream gives the restore of the whole and its count. */
  lemma {:induction false} DefaultStreamInvariant(t: Tables, chunks: seq<string>)
    ensures Run(t, [PWD], "", chunks) == Out(Desanitize(t, [PWD], Concat(chunks)))
    ensures Run(t, [PWD], "", chunks) == Out(RestoreOne(t, PWD, Concat(chunks)))
  {
    DefaultPasses();
    DefaultUnnested();
    RunIsWhole(t, [PWD], "", chunks);
    assert "" + Concat(chunks) == Concat(chunks);
    RunPassesOut(t, [PWD], Restore.Restored(Concat(chunks), 0, []));
    OnePass(t, PWD, Concat(chunks));
  }

  // ---------- family lists ----------

  /** Chunk invariance of one stream configuration: every cutting of every text whose stretches
      are lone tags or calm, whatever else the tables hold. */
  ghost predicate ChunkInvariant(fams: seq<string>) {
    forall t, chunks | CutText(t, Passes(fams), Concat(chunks)) ::
      Run(t, fams, "", chunks) == RestoreList(t, fams, Concat(chunks))
  }

  lemma ListIsTame(t: Tables, fams: seq<string>, s: string)
    requires StreamFams(fams) && AllApart(fams + [PWD]) && PWD in fams
    requires CutText(t, Passes(fams), s)
    ensures Unnested(fams) && Tame(t, Passes(fams), s)
    ensures forall f | f in Passes(fams) :: f in fams
  {
    PassesHas(fams);
    var all := fams + [PWD];
    assert forall f | f in fams :: f in all;
    forall f, g, p: nat | f in fams && g in fams && 0 < p < |f| ensures !CanBegin(f, p, g) {
      assert Apart(f, g);
    }
  }

  lemma {:induction false} ListStreamInvariant(fams: seq<string>)
    requires StreamFams(fams) && AllApart(fams + [PWD]) && PWD in fams
    ensures ChunkInvariant(fams)
  {
    forall t, chunks | CutText(t, Passes(fams), Concat(chunks))
      ensures Run(t, fams, "", chunks) == RestoreList(t, fams, Concat(chunks))
    {
      ListIsTame(t, fams, Concat(chunks));
      assert "" + Concat(chunks) == Concat(chunks);
      RunIsWhole(t, fams, "", chunks);
    }
  }

  // The default family is restored whether it was asked for or not, but only families
  // that were asked for are held back.

  const LONE_TAG := "PWD_aaaaaaaa"
  const LONE_TABLES := Tables(map[LONE_TAG := "!"], map[])

  lemma OnlyTheTag(f: string, core: string)
    requires IsFamily(f) && AllHex(core) && Resolve(LONE_TABLES, f, core).Some?
    ensures f == PWD && f + core == LONE_TAG
  {
    var w := f + core;
    assert w == LONE_TAG;
    assert w[|f| - 1] == '_';
    assert |f| - 1 == 3;
    assert f == w[..4];
  }

  /** A pass that cannot see the tag leaves the text as it is. */
  lemma {:induction false} PassIsBlind(f: string, s: string)
    requires IsFamily(f) && (f != PWD || |s| < 12 || 'P' !in s)
    ensures RestoreOne(LONE_TABLES, f, s).text == s && RestoreOne(LONE_TABLES, f, s).count == 0
    decreases |s|
  {
    hide Head, Stride, IsFamily;
    if s != "" {
      var k := Stride(f, s);
      HeadIsBlind(f, s);
      SuffixMembers(s, k);
      PassIsBlind(f, s[k..]);
      assert s[..k] + s[k..] == s;
    }
  }

  lemma SuffixMembers(s: string, k: nat)
    requires k <= |s|
    ensures forall c | c in s[k..] :: c in s
  {}

  lemma HeadIsBlind(f: string, s: string)
    requires s != "" && IsFamily(f) && (f != PWD || |s| < 12 || 'P' !in s)
    ensures Head(LONE_TABLES, f, s).text == s[..Stride(f, s)] && Head(LONE_TABLES, f, s).count == 0
  {
    var n := TagLen(f, s);
    if n > 0 {
      assert f == s[..|f|] && s[0] in s;
      if Resolve(LONE_TABLES, f, s[|f|..n]).Some? {
        OnlyTheTag(f, s[|f|..n]);
        assert false;
      }
      assert s[..|f|] + s[|f|..n] == s[..n];
    }
  }

  lemma {:induction false} PassesAreBlind(passes: seq<string>, s: string)
    requires forall f | f in passes :: IsFamily(f)
    requires PWD !in passes || |s| < 12 || 'P' !in s
    ensures PassOut(LONE_TABLES, passes, s) == Output(s, 0)
    decreases |passes|
  {
    if passes != [] {
      PassIsBlind(passes[0], s);
      PassesAreBlind(passes[1..], s);
    }
  }

  lemma {:induction false} WholeSeesTheTag(passes: seq<string>)
    requires (forall f | f in passes :: IsFamily(f)) && PWD in passes
    ensures PassOut(LONE_TABLES, passes, LONE_TAG).count > 0
    decreases |passes|
  {
    if passes[0] == PWD {
      TagLenIs(PWD, LONE_TAG, 12);
      assert LONE_TAG[..4] + LONE_TAG[4..12] == LONE_TAG;
      assert Head(LONE_TABLES, PWD, LONE_TAG).count == 1;
    } else {
      PassIsBlind(passes[0], LONE_TAG);
      WholeSeesTheTag(passes[1..]);
    }
  }

  const FIRST_PART := "PWD_a"
  const SECOND_PART := "aaaaaaa"

  lemma OnlyTheDefault(g: string)
    requires IsFamily(g) && Compatible(g, FIRST_PART)
    ensures g == PWD
  {
    assert !IsFamilyChar(FIRST_PART[4]);
    assert |g| <= 4;
    assert g[|g| - 1] == FIRST_PART[|g| - 1];
  }

  lemma FirstCut(fams: seq<string>)
    requires StreamFams(fams) && PWD !in fams
    ensures 0 < Cut(fams, FIRST_PART)
  {
    CutIs(fams, FIRST_PART);
    if Cut(fams, FIRST_PART) == 0 {
      var g :| g in fams && Compatible(g, FIRST_PART[0..]);
      assert FIRST_PART[0..] == FIRST_PART;
      OnlyTheDefault(g);
      assert false;
    }
  }

  /** Once the first character is gone, nothing of the tag is seen. */
  lemma {:induction false} TagIsMissed(fams: seq<string>, a: string, b: string)
    requires (forall f | f in Passes(fams) :: IsFamily(f)) && |a| < 12
    requires 0 < Cut(fams, a) && 'P' !in a[1..] && 'P' !in b
    ensures Run(LONE_TABLES, fams, "", [a, b]).count == 0
  {
    hide PassOut, IsFamily, Cut, Passes, Run;
    var passes := Passes(fams);
    var cut := Cut(fams, a);
    var all := a[cut..] + b;
    assert forall c | c in a[cut..] :: c in a[1..];
    var x, y := all[..Cut(fams, all)], all[Cut(fams, all)..];
    assert forall c | c in x || c in y :: c in all;
    PassesAreBlind(passes, a[..cut]);
    PassesAreBlind(passes, x);
    PassesAreBlind(passes, y);
    assert "" + a == a;
    RunUnfolds(LONE_TABLES, fams, "", [a, b]);
    assert [a, b][1..] == [b];
    RunUnfolds(LONE_TABLES, fams, a[cut..], [b]);
    assert [b][1..] == [];
    RunEnds(LONE_TABLES, fams, y);
  }

  lemma PartsOfTag()
    ensures Concat([FIRST_PART, SECOND_PART]) == LONE_TAG
    ensures |FIRST_PART| < 12 && 'P' !in FIRST_PART[1..] && 'P' !in SECOND_PART
  {
    assert [FIRST_PART, SECOND_PART][1..] == [SECOND_PART];
    assert [SECOND_PART][1..] == [];
    assert Concat([SECOND_PART]) == SECOND_PART + "";
    assert FIRST_PART[1..] == "WD_a";
  }

  lemma LoneTablesTame(fams: seq<string>, s: string)
    requires forall f | f in fams :: IsFamily(f)
    ensures TameText(LONE_TABLES, fams, s)
  {
    hide TagLen, HasTag, Inert;
    forall g | g in fams ensures Inert("!", g) {
      LoneValueInert(g);
    }
  }

  lemma {:induction false} LoneTablesCut(fams: seq<string>, s: string)
    requires forall f | f in fams :: IsFamily(f)
    ensures CutText(LONE_TABLES, fams, s)
    decreases |s|
  {
    hide TameText, LoneTag, OneTagAt, PartAt, IsFamily;
    var i := PartAt(s);
    LoneTablesTame(fams, s[..i]);
    if i < |s| {
      LoneTablesCut(fams, s[i + 1..]);
    }
  }

  lemma LoneValueInert(g: string)
    requires IsFamily(g)
    ensures Inert("!", g)
  {
    assert "!"[0..] == "!";
    forall j | 0 < j < |g| ensures !Compatible("!", g[j..]) {
      assert g[j..][0] == g[j] && IsFamilyChar(g[j]);
    }
  }

  lemma MissedTagShows(fams: seq<string>)
    requires StreamFams(fams) && PWD !in fams
    ensures !ChunkInvariant(fams)
  {
    var chunks := [FIRST_PART, SECOND_PART];
    PassesHas(fams);
    PartsOfTag();
    WholeSeesTheTag(Passes(fams));
    FirstCut(fams);
    TagIsMissed(fams, FIRST_PART, SECOND_PART);
    LoneTablesCut(Passes(fams), Concat(chunks));
    assert Run(LONE_TABLES, fams, "", chunks) != RestoreList(LONE_TABLES, fams, Concat(chunks));
  }

  /** Families that keep apart from each other and from the default one: a stream over
      them shows no cut exactly when the default family is among them. */
  lemma StreamInvariantIff(fams: seq<string>)
    requires StreamFams(fams) && AllApart(fams + [PWD])
    ensures ChunkInvariant(fams) <==> PWD in fams
  {
    if PWD in fams {
      ListStreamInvariant(fams);
    } else {
      MissedTagShows(fams);
    }
  }
}
