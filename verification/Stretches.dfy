/** Texts stretch by stretch: what passes, scans and cuts do between separating characters. */
module Stretches {
  import opened Text
  import opened Restore
  import opened Simultaneous

  // ---------- stretches ----------

  /** A character that no tag of any family contains. */
  predicate Parts(c: char) { !IsFamilyChar(c) && !IsHex(c) }

  /** The first such character, or the end. */
  function PartAt(s: string): (i: nat)
    ensures i <= |s| && (i < |s| ==> Parts(s[i])) && forall k | 0 <= k < i :: !Parts(s[k])
    decreases |s|
  {
    if s == "" || Parts(s[0]) then 0
    else
      var j := PartAt(s[1..]);
      assert forall k | 1 <= k < j + 1 :: s[k] == s[1..][k - 1];
      j + 1
  }

  /** `ok` holds of every stretch between such characters. */
  predicate EachStretch(ok: string -> bool, s: string)
    decreases |s|
  {
    var i := PartAt(s);
    ok(s[..i]) && (i == |s| || EachStretch(ok, s[i + 1..]))
  }

  lemma {:induction false} EachIf(ok: string -> bool, more: string -> bool, s: string)
    requires EachStretch(ok, s) && forall w :: ok(w) ==> more(w)
    ensures EachStretch(more, s)
    decreases |s|
  {
    var i := PartAt(s);
    if i < |s| {
      EachIf(ok, more, s[i + 1..]);
    }
  }

  lemma NoTagOver(f: string, s: string, k: nat)
    requires IsFamily(f) && k < |s| && Parts(s[k])
    ensures TagLen(f, s) <= k
  {
    assert f <= s ==> forall i | 0 <= i < |f| :: s[i] == f[i];
  }

  lemma CleanBefore(f: string, a: string, c: char, b: string)
    requires IsFamily(f) && Parts(c)
    ensures Clean(f, a, [c] + b) && !HasTag(f, [c] + b)
  {
    forall i | 0 <= i < |a| ensures i + TagLen(f, a[i..] + ([c] + b)) <= |a| {
      assert (a[i..] + ([c] + b))[|a| - i] == c;
      NoTagOver(f, a[i..] + ([c] + b), |a| - i);
    }
    CleanIf(f, a, [c] + b);
    NoTagOver(f, [c] + b, 0);
  }

  /** The sum of three parts. */
  function Around(a: Output, c: char, b: Output): Output { Join(a, Join(Output([c], 0), b)) }

  lemma OneParts(t: Tables, f: string, a: string, c: char, b: string)
    requires IsFamily(f) && Parts(c)
    ensures Out(RestoreOne(t, f, a + ([c] + b))) == Around(Out(RestoreOne(t, f, a)), c, Out(RestoreOne(t, f, b)))
  {
    CleanBefore(f, a, c, b);
    RestoreSplits(t, f, a, [c] + b);
    CopyOfOne(t, f, [c] + b);
    assert ([c] + b)[..1] == [c] && ([c] + b)[1..] == b;
  }

  /** The passes restore left and right of such a character independently, whatever the
      families and whatever the tags stand for. */
  lemma {:induction false} PassesPart(t: Tables, fams: seq<string>, a: string, c: char, b: string)
    requires Parts(c) && forall f | f in fams :: IsFamily(f)
    ensures PassOut(t, fams, a + ([c] + b)) == Around(PassOut(t, fams, a), c, PassOut(t, fams, b))
    decreases |fams|
  {
    hide RestoreOne, IsFamily;
    if fams != [] {
      var f, rest := fams[0], fams[1..];
      assert [f] + rest == fams;
      OneParts(t, f, a, c, b);
      PassesPart(t, rest, RestoreOne(t, f, a).text, c, RestoreOne(t, f, b).text);
      PassOutIs(t, f, rest, a);
      PassOutIs(t, f, rest, b);
      PassOutIs(t, f, rest, a + ([c] + b));
    }
  }

  /** And so does the scan. */
  lemma ManyParts(t: Tables, fams: seq<string>, a: string, c: char, b: string)
    requires Parts(c) && forall f | f in fams :: IsFamily(f)
    ensures Many(t, fams, a + ([c] + b)) == Around(Many(t, fams, a), c, Many(t, fams, b))
  {
    hide Many, IsFamily;
    forall f | f in fams ensures Clean(f, a, [c] + b) && !HasTag(f, [c] + b) {
      CleanBefore(f, a, c, b);
    }
    ManySplits(t, fams, a, [c] + b);
    ManyCopies(t, fams, [c], b);
    assert [c][..1] == [c] && [c][1..] + b == b;
  }

  // ---------- a stretch without tags ----------

  lemma FreeSuffix(fams: seq<string>, s: string, k: nat)
    requires TagFree(fams, s) && k <= |s|
    ensures TagFree(fams, s[k..])
  {
    hide FirstFam;
    forall i | 0 <= i < |s[k..]| ensures FirstFam(fams, s[k..][i..]) == |fams| {
      assert s[k..][i..] == s[k + i..];
    }
  }

  lemma HasTagLonger(f: string, s: string, u: string)
    requires HasTag(f, s)
    ensures HasTag(f, s + u)
  {
    var n := TagLen(f, s);
    assert forall i | 0 <= i < n :: (s + u)[i] == s[i];
    HasTagIs(f, s + u);
  }

  lemma FreeBefore(fams: seq<string>, s: string, u: string)
    requires FirstFam(fams, s + u) == |fams|
    ensures FirstFam(fams, s) == |fams|
  {
    forall f | f in fams ensures !HasTag(f, s) {
      if HasTag(f, s) {
        HasTagLonger(f, s, u);
      }
    }
  }

  lemma FreePrefix(fams: seq<string>, s: string, u: string)
    requires TagFree(fams, s + u)
    ensures TagFree(fams, s)
  {
    hide FirstFam;
    forall i | 0 <= i < |s| ensures FirstFam(fams, s[i..]) == |fams| {
      DropSum(s, u, i);
      assert FirstFam(fams, (s + u)[i..]) == |fams|;
      FreeBefore(fams, s[i..], u);
    }
  }

  lemma FreeOfOne(fams: seq<string>, f: string, s: string)
    requires FirstFam(fams, s) == |fams| && f in fams
    ensures !HasTag(f, s)
  {}

  lemma FreeOfRest(fams: seq<string>, s: string)
    requires fams != [] && FirstFam(fams, s) == |fams|
    ensures FirstFam(fams[1..], s) == |fams[1..]|
  {}

  lemma {:induction false} FreeOne(t: Tables, f: string, s: string)
    requires forall i | 0 <= i < |s| :: !HasTag(f, s[i..])
    ensures Out(RestoreOne(t, f, s)) == Output(s, 0)
  {
    assert s + "" == s;
    forall i | 0 <= i < |s| ensures !HasTag(f, s[i..] + "") {
      assert s[i..] + "" == s[i..];
    }
    OneSkips(t, f, s, "");
  }

  lemma {:induction false} FreePasses(t: Tables, fams: seq<string>, s: string)
    requires TagFree(fams, s)
    ensures PassOut(t, fams, s) == Output(s, 0)
    decreases |fams|
  {
    hide FirstFam, RestoreOne, HasTag;
    if fams != [] {
      var f := fams[0];
      forall i | 0 <= i < |s| ensures !HasTag(f, s[i..]) && FirstFam(fams[1..], s[i..]) == |fams[1..]| {
        assert FirstFam(fams, s[i..]) == |fams|;
        FreeOfOne(fams, f, s[i..]);
        FreeOfRest(fams, s[i..]);
      }
      FreeOne(t, f, s);
      FreePasses(t, fams[1..], s);
    }
  }

  lemma {:induction false} FreeScan(t: Tables, fams: seq<string>, s: string)
    requires TagFree(fams, s)
    ensures Many(t, fams, s) == Output(s, 0)
  {
    hide FirstFam;
    assert s + "" == s;
    forall i | 0 <= i < |s| ensures FirstFam(fams, s[i..] + "") == |fams| {
      assert s[i..] + "" == s[i..];
    }
    ManySkips(t, fams, s, "");
  }

  // ---------- a stretch with one tag ----------

  /** The listed tag that starts at `x`, seen from there: its family and its length. */
  function FamAt(fams: seq<string>, w: string, x: nat): string
    requires x <= |w| && FirstFam(fams, w[x..]) < |fams|
  {
    fams[FirstFam(fams, w[x..])]
  }

  /** What that tag stands for. */
  function ValueAt(t: Tables, fams: seq<string>, w: string, x: nat): Option<string> {
    if x < |w| && FirstFam(fams, w[x..]) < |fams| then
      var f := FamAt(fams, w, x);
      Resolve(t, f, w[x..][|f|..TagLen(f, w[x..])])
    else None
  }

  /** The stretch with the value in the tag's place. */
  function FilledIn(t: Tables, fams: seq<string>, w: string, x: nat): string {
    match ValueAt(t, fams, w, x)
    case Some(v) => w[..x] + v + w[x..][TagLen(FamAt(fams, w, x), w[x..])..]
    case None => w
  }

  /** The one listed tag of the stretch starts at `x`; it stands for a value, and with the value
      in its place, between what really stands around it, the stretch shows no listed tag. */
  predicate OneTagAt(t: Tables, fams: seq<string>, w: string, x: nat) {
    ValueAt(t, fams, w, x).Some?
    && (forall k | 0 <= k < |w| && k != x :: FirstFam(fams, w[k..]) == |fams|)
    && TagFree(fams, FilledIn(t, fams, w, x))
  }

  lemma PartsOfStretch(w: string, x: nat, n: nat, v: string)
    requires x + n <= |w|
    ensures w[..x] + w[x..] == w && w[..x] + (v + w[x..][n..]) == w[..x] + v + w[x..][n..]
    ensures forall k | 0 <= k < x :: w[..x][k..] + w[x..] == w[k..]
    ensures forall k | 0 <= k < |w[x..][n..]| :: w[x..][n..][k..] == w[x + n + k..]
  {}

  /** The pass of the tag's family fills it in. */
  lemma {:induction false} OneTagOne(t: Tables, f: string, w: string, x: nat, v: string)
    requires x < |w| && HasTag(f, w[x..]) && Resolve(t, f, w[x..][|f|..TagLen(f, w[x..])]) == Some(v)
    requires forall k | 0 <= k < |w| && k != x :: !HasTag(f, w[k..])
    ensures Out(RestoreOne(t, f, w)) == Output(w[..x] + v + w[x..][TagLen(f, w[x..])..], 1)
  {
    hide HasTag, TagLen, RestoreOne, Resolve;
    var y := w[x..];
    var n := TagLen(f, y);
    var z := y[n..];
    TagFirst(t, f, y, v);
    PartsOfStretch(w, x, n, v);
    OneSkips(t, f, w[..x], y);
    forall k | 0 <= k < |z| ensures !HasTag(f, z[k..]) {
      assert z[k..] == w[x + n + k..];
    }
    FreeOne(t, f, z);
  }

  lemma TagFirst(t: Tables, f: string, y: string, v: string)
    requires HasTag(f, y) && Resolve(t, f, y[|f|..TagLen(f, y)]) == Some(v)
    ensures y != "" && Out(RestoreOne(t, f, y)) == Join(Output(v, 1), Out(RestoreOne(t, f, y[TagLen(f, y)..])))
  {
    assert TagLen(f, y) > 0;
    assert y[..|f|] == f;
  }

  lemma FirstHas(fams: seq<string>, s: string)
    requires FirstFam(fams, s) < |fams|
    ensures HasTag(fams[FirstFam(fams, s)], s)
    ensures forall k | 0 <= k < FirstFam(fams, s) :: !HasTag(fams[k], s)
  {}

  lemma FirstOfRest(fams: seq<string>, s: string)
    requires fams != []
    ensures HasTag(fams[0], s) ==> FirstFam(fams, s) == 0
    ensures !HasTag(fams[0], s) ==> FirstFam(fams, s) == 1 + FirstFam(fams[1..], s)
  {}

  lemma OneTagRest(t: Tables, fams: seq<string>, w: string, x: nat)
    requires fams != [] && OneTagAt(t, fams, w, x) && !HasTag(fams[0], w[x..])
    ensures OneTagAt(t, fams[1..], w, x) && FilledIn(t, fams[1..], w, x) == FilledIn(t, fams, w, x)
    ensures forall k | 0 <= k < |w| :: !HasTag(fams[0], w[k..])
  {
    hide FirstFam, HasTag;
    FirstOfRest(fams, w[x..]);
    var rest := fams[1..];
    forall k | 0 <= k < |w| && k != x ensures FirstFam(rest, w[k..]) == |rest| && !HasTag(fams[0], w[k..]) {
      FreeOfRest(fams, w[k..]);
      FreeOfOne(fams, fams[0], w[k..]);
    }
    var out := FilledIn(t, fams, w, x);
    forall i | 0 <= i < |out| ensures FirstFam(rest, out[i..]) == |rest| {
      FreeOfRest(fams, out[i..]);
    }
  }

  /** The passes, whatever their order, fill in the one tag. */
  lemma {:induction false} OneTagPasses(t: Tables, fams: seq<string>, w: string, x: nat)
    requires OneTagAt(t, fams, w, x)
    ensures PassOut(t, fams, w) == Output(FilledIn(t, fams, w, x), 1)
    decreases |fams|
  {
    hide FirstFam, HasTag, RestoreOne;
    FirstHas(fams, w[x..]);
    var f, rest := fams[0], fams[1..];
    FirstOfRest(fams, w[x..]);
    if HasTag(f, w[x..]) {
      forall k | 0 <= k < |w| && k != x ensures !HasTag(f, w[k..]) {
        FreeOfOne(fams, f, w[k..]);
      }
      OneTagOne(t, f, w, x, Resolve(t, f, w[x..][|f|..TagLen(f, w[x..])]).value);
      var out := FilledIn(t, fams, w, x);
      forall i | 0 <= i < |out| ensures FirstFam(rest, out[i..]) == |rest| {
        FreeOfRest(fams, out[i..]);
      }
      FreePasses(t, rest, out);
    } else {
      OneTagRest(t, fams, w, x);
      FreeOne(t, f, w);
      OneTagPasses(t, rest, w, x);
    }
  }

  /** And so does the scan. */
  lemma {:induction false} OneTagScan(t: Tables, fams: seq<string>, w: string, x: nat)
    requires OneTagAt(t, fams, w, x)
    ensures Many(t, fams, w) == Output(FilledIn(t, fams, w, x), 1)
  {
    hide FirstFam, Many;
    hide Resolve, RestoreTag;
    var y := w[x..];
    var f := FamAt(fams, w, x);
    var n := TagLen(f, y);
    var z := y[n..];
    var v := Resolve(t, f, y[|f|..n]).value;
    PartsOfStretch(w, x, n, v);
    ManySkips(t, fams, w[..x], y);
    ManyTag(t, fams, y, FirstFam(fams, y), n);
    forall k | 0 <= k < |z| ensures FirstFam(fams, z[k..]) == |fams| {
      assert z[k..] == w[x + n + k..];
    }
    FreeScan(t, fams, z);
    FoundOut(t, f, y[|f|..n], v);
  }

  lemma FoundOut(t: Tables, f: string, core: string, v: string)
    requires Resolve(t, f, core) == Some(v)
    ensures Out(RestoreTag(t, f, core)) == Output(v, 1)
  {}

  // ---------- what a stretch may hold ----------

  /** The tags of the stretch stand for values that make no tag with anything; or it has one
      tag, whose value makes none with what stands around it here. */
  predicate Calm(t: Tables, fams: seq<string>, w: string) {
    TameText(t, fams, w) || exists x | 0 <= x < |w| :: OneTagAt(t, fams, w, x)
  }

  /** The stretch is exactly one listed tag, whatever that stands for. */
  predicate LoneTag(fams: seq<string>, w: string) {
    var i := FirstFam(fams, w);
    i < |fams| && TagLen(fams[i], w) == |w|
  }

  predicate Cuttable(t: Tables, fams: seq<string>, w: string) { Calm(t, fams, w) || LoneTag(fams, w) }

  /** Every stretch is calm. */
  predicate CalmText(t: Tables, fams: seq<string>, s: string) {
    EachStretch((w: string) => Calm(t, fams, w), s)
  }

  /** Every stretch is calm or a lone tag. */
  predicate CutText(t: Tables, fams: seq<string>, s: string) {
    EachStretch((w: string) => Cuttable(t, fams, w), s)
  }

  lemma CalmIsCut(t: Tables, fams: seq<string>, s: string)
    requires CalmText(t, fams, s)
    ensures CutText(t, fams, s)
  {
    EachIf((w: string) => Calm(t, fams, w), (w: string) => Cuttable(t, fams, w), s);
  }

  // ---------- the passes are one scan ----------

  lemma {:induction false} CalmPasses(t: Tables, fams: seq<string>, w: string)
    requires Disjointed(fams) && Calm(t, fams, w)
    ensures PassOut(t, fams, w) == Many(t, fams, w)
  {
    hide OneTagAt, Disjointed, TameText;
    if TameText(t, fams, w) {
      TamePassesAreOneScan(t, fams, w);
    } else {
      var x :| 0 <= x < |w| && OneTagAt(t, fams, w, x);
      OneTagPasses(t, fams, w, x);
      OneTagScan(t, fams, w, x);
    }
  }

  lemma AtPart(s: string)
    requires PartAt(s) < |s|
    ensures var i := PartAt(s); s == s[..i] + ([s[i]] + s[i + 1..]) && Parts(s[i])
  {
    hide PartAt, Parts;
    ThreeOf(s, PartAt(s));
  }

  lemma ThreeOf(s: string, i: nat)
    requires i < |s|
    ensures s == s[..i] + ([s[i]] + s[i + 1..])
  {}

  lemma NoPart(s: string)
    requires PartAt(s) == |s|
    ensures s[..PartAt(s)] == s
  {}

  /** Families that keep apart, on a text whose stretches are calm: the passes of an explicit
      family list are one simultaneous scan. */
  lemma {:induction false} PassesAreOneScan(t: Tables, fams: seq<string>, s: string)
    requires Disjointed(fams) && CalmText(t, fams, s)
    ensures PassOut(t, fams, s) == Many(t, fams, s)
    decreases |s|
  {
    hide Calm, PartAt, PassOut, Many, AllApart, Parts, IsFamily;
    var i := PartAt(s);
    CalmPasses(t, fams, s[..i]);
    if i < |s| {
      PassesAreOneScan(t, fams, s[i + 1..]);
      AtPart(s);
      PassesPart(t, fams, s[..i], s[i], s[i + 1..]);
      ManyParts(t, fams, s[..i], s[i], s[i + 1..]);
    } else {
      NoPart(s);
    }
  }

  lemma {:induction false} CalmPassMore(t: Tables, f: string, rest: seq<string>, w: string)
    requires Disjointed([f] + rest) && Calm(t, [f] + rest, w)
    ensures Both(t, f, rest, w) == Many(t, [f] + rest, w)
  {
    hide OneTagAt, Disjointed, TameText, RestoreOne, Many;
    var all := [f] + rest;
    if TameText(t, all, w) {
      TamePassMore(t, f, rest, w);
    } else {
      var x :| 0 <= x < |w| && OneTagAt(t, all, w, x);
      OneTagMore(t, f, rest, w, x);
    }
  }

  lemma {:induction false} OneTagMore(t: Tables, f: string, rest: seq<string>, w: string, x: nat)
    requires OneTagAt(t, [f] + rest, w, x)
    ensures Both(t, f, rest, w) == Many(t, [f] + rest, w)
  {
    hide FirstFam, HasTag, RestoreOne, Many;
    var all := [f] + rest;
    assert all[1..] == rest && all[0] == f;
    OneTagScan(t, all, w, x);
    FirstHas(all, w[x..]);
    FirstOfRest(all, w[x..]);
    if HasTag(f, w[x..]) {
      forall k | 0 <= k < |w| && k != x ensures !HasTag(f, w[k..]) {
        FreeOfOne(all, f, w[k..]);
      }
      OneTagOne(t, f, w, x, Resolve(t, f, w[x..][|f|..TagLen(f, w[x..])]).value);
      var out := FilledIn(t, all, w, x);
      forall i | 0 <= i < |out| ensures FirstFam(rest, out[i..]) == |rest| {
        FreeOfRest(all, out[i..]);
      }
      FreeScan(t, rest, out);
    } else {
      OneTagRest(t, all, w, x);
      FreeOne(t, f, w);
      OneTagScan(t, rest, w, x);
    }
  }

  lemma {:induction false} BothPart(t: Tables, f: string, rest: seq<string>, a: string, c: char, b: string)
    requires Parts(c) && IsFamily(f) && forall g | g in rest :: IsFamily(g)
    ensures Both(t, f, rest, a + ([c] + b)) == Around(Both(t, f, rest, a), c, Both(t, f, rest, b))
  {
    hide RestoreOne, Many, IsFamily, Parts;
    OneParts(t, f, a, c, b);
    ManyParts(t, rest, RestoreOne(t, f, a).text, c, RestoreOne(t, f, b).text);
  }

  /** One pass for `f` before the scan for the rest is one scan for all of them. */
  lemma {:induction false} OnePassMore(t: Tables, f: string, rest: seq<string>, s: string)
    requires Disjointed([f] + rest) && CalmText(t, [f] + rest, s)
    ensures Both(t, f, rest, s) == Many(t, [f] + rest, s)
    decreases |s|
  {
    hide Calm, PartAt, Both, Many, AllApart, Parts, IsFamily;
    var i := PartAt(s);
    var all := [f] + rest;
    CalmPassMore(t, f, rest, s[..i]);
    if i < |s| {
      OnePassMore(t, f, rest, s[i + 1..]);
      AtPart(s);
      assert f == all[0] && forall g | g in rest :: g in all;
      BothPart(t, f, rest, s[..i], s[i], s[i + 1..]);
      ManyParts(t, all, s[..i], s[i], s[i + 1..]);
    } else {
      NoPart(s);
    }
  }

  // ---------- a clean cut ----------

  /** A cut that is clean for a text is clean for less of what follows. */
  lemma {:induction false} CleanShorter(f: string, a: string, b: string, z: string)
    requires Clean(f, a, b + z)
    ensures Clean(f, a, b)
    decreases |a|
  {
    if a != "" {
      CleanShorter(f, a[1..], b, z);
      ShorterEnds(f, a, b, z);
    }
  }

  lemma ShorterEnds(f: string, a: string, b: string, z: string)
    requires TagLen(f, a + (b + z)) <= |a|
    ensures TagLen(f, a + b) <= |a|
  {
    if HasTag(f, a + b) {
      HasTagLonger(f, a + b, z);
      SumAssoc(a, b, z);
      var n := TagLen(f, a + (b + z));
      assert forall k | 0 <= k < |a + b| :: (a + b)[k] == (a + (b + z))[k];
      TagLenIs(f, a + b, n);
    }
  }

  lemma ManyClean(fams: seq<string>, a: string, b: string, z: string)
    requires CleanFor(fams, a, b + z)
    ensures CleanFor(fams, a, b)
  {
    hide Clean;
    forall f | f in fams ensures Clean(f, a, b) {
      assert Clean(f, a, b + z);
      CleanShorter(f, a, b, z);
    }
  }

  lemma CleanLater(fams: seq<string>, a: string, b: string, k: nat)
    requires CleanFor(fams, a, b) && k <= |a|
    ensures CleanFor(fams, a[k..], b)
  {
    hide Clean;
    forall f | f in fams ensures Clean(f, a[k..], b) {
      assert Clean(f, a, b);
      CleanSuffix(f, a, b, k);
    }
  }

  lemma NothingLeft(t: Tables, fams: seq<string>, a: string)
    ensures PassOut(t, fams, "") == Output("", 0) && TameText(t, fams, "") && a + "" == a && "" + a == a
  {
    FreePasses(t, fams, "");
  }

  /** A cut before the one tag of a stretch. */
  lemma {:induction false} CutBeforeTag(t: Tables, fams: seq<string>, a: string, b: string, x: nat)
    requires OneTagAt(t, fams, a + b, x) && |a| <= x
    ensures TagFree(fams, a) && OneTagAt(t, fams, b, x - |a|)
    ensures FilledIn(t, fams, a + b, x) == a + FilledIn(t, fams, b, x - |a|)
  {
    hide FirstFam, TagLen, Resolve;
    var w := a + b;
    forall k | 0 <= k < |a| ensures FirstFam(fams, a[k..]) == |fams| {
      DropSum(a, b, k);
      FreeBefore(fams, a[k..], b);
    }
    forall k | 0 <= k <= |b| ensures b[k..] == w[|a| + k..] {}
    assert w[x..] == b[x - |a|..] && w[..x] == a + b[..x - |a|];
    var f := FamAt(fams, w, x);
    var v := Resolve(t, f, w[x..][|f|..TagLen(f, w[x..])]).value;
    var z := w[x..][TagLen(f, w[x..])..];
    FourInRow(a, b[..x - |a|], v, z);
    FreeSuffix(fams, w[..x] + v + z, |a|);
  }

  lemma FourInRow(a: string, b: string, c: string, d: string)
    ensures a + b + c + d == a + (b + c + d) && (a + b + c + d)[|a|..] == b + c + d
  {}

  /** A cut behind it. */
  lemma {:induction false} CutBehindTag(t: Tables, fams: seq<string>, a: string, b: string, x: nat)
    requires OneTagAt(t, fams, a + b, x) && x < |a| && CleanFor(fams, a, b)
    ensures TagFree(fams, b) && OneTagAt(t, fams, a, x)
    ensures FilledIn(t, fams, a + b, x) == FilledIn(t, fams, a, x) + b
  {
    hide FirstFam, TagLen, Resolve, Clean, HasTag;
    var w := a + b;
    forall k | 0 <= k < |b| ensures FirstFam(fams, b[k..]) == |fams| {
      assert b[k..] == w[|a| + k..];
    }
    forall k | 0 <= k < |a| && k != x ensures FirstFam(fams, a[k..]) == |fams| {
      DropSum(a, b, k);
      FreeBefore(fams, a[k..], b);
    }
    DropSum(a, b, x);
    SameFirst(fams, a, b, x);
    var f := FamAt(fams, w, x);
    var n := TagLen(f, w[x..]);
    var v := Resolve(t, f, w[x..][|f|..n]).value;
    var y := a[x..];
    assert (y + b)[|f|..n] == y[|f|..n] && (y + b)[n..] == y[n..] + b;
    LastInRow(a[..x], v, y[n..], b);
    FreePrefix(fams, a[..x] + v + y[n..], b);
  }

  lemma LastInRow(a: string, b: string, c: string, d: string)
    ensures a + b + (c + d) == a + b + c + d
  {}

  lemma {:induction false} SameFirst(fams: seq<string>, a: string, b: string, x: nat)
    requires x < |a| && CleanFor(fams, a, b) && FirstFam(fams, (a + b)[x..]) < |fams|
    ensures FirstFam(fams, a[x..]) == FirstFam(fams, (a + b)[x..])
    ensures var f := FamAt(fams, a + b, x);
            |f| <= TagLen(f, a[x..]) == TagLen(f, (a + b)[x..]) <= |a| - x
  {
    DropSum(a, b, x);
    CleanLater(fams, a, b, x);
    forall f | f in fams ensures TagLen(f, a[x..]) == TagLen(f, a[x..] + b) {
      assert Clean(f, a[x..], b);
      TagLenPrefix(f, a[x..], b);
    }
    FirstFamSame(fams, a[x..], a[x..] + b);
  }

  /** A calm stretch restores in two pieces, and what follows the cut is calm. */
  lemma {:induction false} CalmPieces(t: Tables, fams: seq<string>, a: string, b: string)
    requires Disjointed(fams) && Calm(t, fams, a + b) && CleanFor(fams, a, b)
    ensures PassOut(t, fams, a + b) == Join(PassOut(t, fams, a), PassOut(t, fams, b)) && Calm(t, fams, b)
  {
    hide TameText, Disjointed, OneTagAt, CleanFor, PassOut, Many;
    if TameText(t, fams, a + b) {
      TamePrefix(t, fams, a, b);
      DropSum(a, b, |a|);
      TameSuffix(t, fams, a + b, |a|);
      assert a[|a|..] + b == b;
      TamePassesAreOneScan(t, fams, a);
      TamePassesAreOneScan(t, fams, b);
      TamePassesAreOneScan(t, fams, a + b);
      ManySplits(t, fams, a, b);
    } else {
      var x :| 0 <= x < |a + b| && OneTagAt(t, fams, a + b, x);
      OneTagPieces(t, fams, a, b, x);
    }
  }

  lemma {:induction false} OneTagPieces(t: Tables, fams: seq<string>, a: string, b: string, x: nat)
    requires OneTagAt(t, fams, a + b, x) && x < |a + b| && CleanFor(fams, a, b)
    ensures PassOut(t, fams, a + b) == Join(PassOut(t, fams, a), PassOut(t, fams, b)) && Calm(t, fams, b)
  {
    hide TagFree, OneTagAt, CleanFor, PassOut;
    OneTagPasses(t, fams, a + b, x);
    if |a| <= x {
      CutBeforeTag(t, fams, a, b, x);
      FreePasses(t, fams, a);
      OneTagPasses(t, fams, b, x - |a|);
    } else {
      CutBehindTag(t, fams, a, b, x);
      OneTagPasses(t, fams, a, x);
      FreePasses(t, fams, b);
      FreeIsTame(t, fams, b);
    }
  }

  lemma FreeIsTame(t: Tables, fams: seq<string>, s: string)
    requires TagFree(fams, s)
    ensures TameText(t, fams, s)
  {
    hide FirstFam;
    forall f, g, i | f in fams && g in fams && 0 <= i < |s| ensures SafeAt(t, f, g, s[i..]) {
      FreeOfOne(fams, f, s[i..]);
    }
  }

  /** A clean cut does not go through a lone tag. */
  lemma LoneIsWhole(fams: seq<string>, a: string, b: string)
    requires LoneTag(fams, a + b) && CleanFor(fams, a, b)
    ensures a == "" || b == ""
  {
    var f := fams[FirstFam(fams, a + b)];
    assert Clean(f, a, b);
  }

  lemma {:induction false} CuttablePieces(t: Tables, fams: seq<string>, a: string, b: string)
    requires Disjointed(fams) && Cuttable(t, fams, a + b) && CleanFor(fams, a, b)
    ensures PassOut(t, fams, a + b) == Join(PassOut(t, fams, a), PassOut(t, fams, b)) && Cuttable(t, fams, b)
  {
    hide Calm, Disjointed, CleanFor, LoneTag, PassOut;
    if Calm(t, fams, a + b) {
      CalmPieces(t, fams, a, b);
    } else {
      LoneIsWhole(fams, a, b);
      NothingLeft(t, fams, a);
      NothingLeft(t, fams, b);
      assert Calm(t, fams, "") by { NoTextIsCalm(t, fams); }
    }
  }

  lemma NoTextIsCalm(t: Tables, fams: seq<string>)
    ensures Calm(t, fams, "")
  {
    NothingLeft(t, fams, "");
  }

  lemma AroundJoins(a: Output, b: Output, c: char, d: Output)
    ensures Around(Join(a, b), c, d) == Join(a, Around(b, c, d))
    ensures Around(a, c, Join(b, d)) == Join(Around(a, c, b), d)
  {
    assert a.text + b.text + ([c] + d.text) == a.text + (b.text + ([c] + d.text));
    assert a.text + ([c] + (b.text + d.text)) == a.text + ([c] + b.text) + d.text;
  }

  lemma PartInSum(a: string, b: string)
    ensures PartAt(a) < |a| ==> PartAt(a + b) == PartAt(a) && (a + b)[PartAt(a)] == a[PartAt(a)]
    ensures PartAt(a) == |a| ==> PartAt(a + b) == |a| + PartAt(b)
  {
    hide PartAt, Parts;
    assert forall k | 0 <= k < |a| :: (a + b)[k] == a[k];
    if PartAt(a) < |a| {
      PartAtIs(a + b, PartAt(a));
    } else {
      assert forall k | |a| <= k < |a + b| :: (a + b)[k] == b[k - |a|];
      PartAtIs(a + b, |a| + PartAt(b));
    }
  }

  lemma PartAtIs(s: string, i: nat)
    requires i <= |s| && (i < |s| ==> Parts(s[i])) && forall k | 0 <= k < i :: !Parts(s[k])
    ensures PartAt(s) == i
  {
    hide Parts;
  }

  /** A text whose stretches are calm or lone tags restores in two pieces over a clean cut, and
      so does what follows the cut. */
  lemma {:induction false} CutPieces(t: Tables, fams: seq<string>, a: string, b: string)
    requires Disjointed(fams) && CutText(t, fams, a + b) && CleanFor(fams, a, b)
    ensures PassOut(t, fams, a + b) == Join(PassOut(t, fams, a), PassOut(t, fams, b)) && CutText(t, fams, b)
    decreases |a|
  {
    hide Cuttable, PartAt, PassOut, AllApart, Parts, IsFamily, CleanFor;
    var i := PartAt(a);
    PartInSum(a, b);
    if i < |a| {
      var w, c, a2 := a[..i], a[i], a[i + 1..];
      assert (a + b)[..i] == w && (a + b)[i + 1..] == a2 + b && a + b == w + ([c] + (a2 + b));
      AtPart(a);
      CleanLater(fams, a, b, i + 1);
      CutPieces(t, fams, a2, b);
      PassesPart(t, fams, w, c, a2);
      PassesPart(t, fams, w, c, a2 + b);
      AroundJoins(PassOut(t, fams, w), PassOut(t, fams, a2), c, PassOut(t, fams, b));
    } else {
      CutFirst(t, fams, a, b);
    }
  }

  /** The cut is in the first stretch. */
  lemma {:induction false} CutFirst(t: Tables, fams: seq<string>, a: string, b: string)
    requires Disjointed(fams) && CutText(t, fams, a + b) && CleanFor(fams, a, b) && PartAt(a) == |a|
    ensures PassOut(t, fams, a + b) == Join(PassOut(t, fams, a), PassOut(t, fams, b)) && CutText(t, fams, b)
  {
    hide Cuttable, PartAt, PassOut, AllApart, Parts, IsFamily, CleanFor;
    PartInSum(a, b);
    var j := PartAt(b);
    var w := b[..j];
    FirstOfSum(a, b, j);
    ManyClean(fams, a, w, b[j..]);
    CuttablePieces(t, fams, a, w);
    if j < |b| {
      AtPart(b);
      PassesPart(t, fams, a + w, b[j], b[j + 1..]);
      PassesPart(t, fams, w, b[j], b[j + 1..]);
      AroundJoins(PassOut(t, fams, a), PassOut(t, fams, w), b[j], PassOut(t, fams, b[j + 1..]));
    } else {
      NoPart(b);
    }
  }

  lemma FirstOfSum(a: string, b: string, j: nat)
    requires j <= |b|
    ensures (a + b)[..|a| + j] == a + b[..j] && b[..j] + b[j..] == b
    ensures j < |b| ==> (a + b)[|a| + j + 1..] == b[j + 1..] && a + b == (a + b[..j]) + ([b[j]] + b[j + 1..])
  {}

  // ---------- a family that ends in another ----------

  lemma WholeTagRestores(t: Tables, f: string, core: string, v: string)
    requires AllHex(core) && 8 <= |core| <= 12 && Resolve(t, f, core) == Some(v)
    ensures Out(RestoreOne(t, f, f + core)) == Output(v, 1)
  {
    var w := f + core;
    assert w[..|f|] == f && w[|f|..] == core && w[|w|..] == "";
    assert forall k | |f| <= k < |w| :: w[k] == core[k - |f|];
    TagLenIs(f, w, |w|);
    assert w[|f|..|w|] == core;
    TagFirst(t, f, w, v);
    assert v + "" == v;
  }

  /** A lone tag of a family that ends in another one, which stands for `v` as such and for `u`
      when it is read as a tag of the shorter family. With the longer family first the passes do
      what one scan does; with the shorter first they restore inside the tag and leave the front
      of its family standing: so the order does not matter exactly when `v` is spelled so. */
  lemma NestedOrderIff(t: Tables, front: string, g: string, core: string, v: string, u: string)
    requires AllHex(core) && 8 <= |core| <= 12 && front != ""
    requires Resolve(t, front + g, core) == Some(v) && Resolve(t, g, core) == Some(u)
    requires forall i | 0 <= i < |front| :: !HasTag(g, front[i..] + (g + core))
    requires TagFree([g], v) && TagFree([front + g], front + u)
    ensures var f, w := front + g, front + g + core;
            PassOut(t, [f, g], w) == Many(t, [f, g], w) == Output(v, 1) && PassOut(t, [g, f], w) == Output(front + u, 1)
            && (PassOut(t, [g, f], w) == PassOut(t, [f, g], w) <==> v == front + u)
  {
    hide HasTag, Resolve, RestoreOne, FirstFam;
    var f := front + g;
    var w := f + core;
    assert w == front + (g + core);
    WholeTagRestores(t, f, core, v);
    FreePasses(t, [g], v);
    PassOutIs(t, f, [g], w);
    assert [f] + [g] == [f, g] && [g] + [f] == [g, f];
    OneSkips(t, g, front, g + core);
    WholeTagRestores(t, g, core, u);
    FreePasses(t, [f], front + u);
    PassOutIs(t, g, [f], w);
    ScanOfFirst(t, f, [f, g], core, v);
  }

  lemma ScanOfFirst(t: Tables, f: string, fams: seq<string>, core: string, v: string)
    requires fams != [] && fams[0] == f && AllHex(core) && 8 <= |core| <= 12 && Resolve(t, f, core) == Some(v)
    ensures Many(t, fams, f + core) == Output(v, 1)
  {
    var w := f + core;
    assert w[..|f|] == f && w[|f|..] == core && w[|w|..] == "";
    assert forall k | |f| <= k < |w| :: w[k] == core[k - |f|];
    TagLenIs(f, w, |w|);
    ManyTag(t, fams, w, 0, |w|);
    assert w[|f|..|w|] == core;
    FoundOut(t, f, core, v);
    assert v + "" == v;
  }
}
