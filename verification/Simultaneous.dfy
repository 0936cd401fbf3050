/** Families that keep apart: restoring one after another on the growing text is one scan
    for all of them, so the order does not matter. */
module Simultaneous {
  import opened Text
  import opened Restore

  /** Index of the first family whose tag starts `s`, or the length of the list. */
  function FirstFam(fams: seq<string>, s: string): (i: nat)
    ensures i <= |fams|
    ensures i < |fams| ==> HasTag(fams[i], s)
    ensures forall j | 0 <= j < i :: !HasTag(fams[j], s)
    decreases |fams|
  {
    if fams == [] || HasTag(fams[0], s) then 0
    else 1 + FirstFam(fams[1..], s)
  }

  function ManyStride(fams: seq<string>, s: string): (k: nat)
    requires s != ""
    ensures 0 < k <= |s|
  {
    var i := FirstFam(fams, s);
    if i < |fams| then TagLen(fams[i], s) else 1
  }

  function ManyHead(t: Tables, fams: seq<string>, s: string): Output
    requires s != ""
  {
    var i := FirstFam(fams, s);
    if i < |fams| then Out(RestoreTag(t, fams[i], s[|fams[i]|..TagLen(fams[i], s)]))
    else Output(s[..1], 0)
  }

  /** One scan that restores the tags of every listed family. */
  function Many(t: Tables, fams: seq<string>, s: string): Output
    decreases |s|
  {
    if s == "" then Output("", 0)
    else Join(ManyHead(t, fams, s), Many(t, fams, s[ManyStride(fams, s)..]))
  }

  // ---------- values that make no tag with their surroundings ----------

  /** Neither the start of `v` can complete a tag of `g` begun before it, nor can a
      tag of `g` begin in `v`. */
  predicate Inert(v: string, g: string) {
    v != "" && !IsHex(v[0])
    && (forall j | 0 < j < |g| :: !Compatible(v, g[j..]))
    && (forall i | 0 <= i < |v| :: !Compatible(v[i..], g))
  }

  /** The tag of `f` that starts the text, if there is one, stands for nothing or for a
      value that is inert for `g`. */
  predicate SafeAt(t: Tables, f: string, g: string, s: string) {
    HasTag(f, s) ==>
      var v := Resolve(t, f, s[|f|..TagLen(f, s)]);
      v.Some? ==> Inert(v.value, g)
  }

  predicate Safe(t: Tables, f: string, g: string, s: string) {
    forall i | 0 <= i < |s| :: SafeAt(t, f, g, s[i..])
  }

  /** Whatever the listed tags of this very text stand for is inert for every listed family.
      What else the tables hold does not matter. */
  predicate TameText(t: Tables, fams: seq<string>, s: string) {
    forall f, g | f in fams && g in fams :: Safe(t, f, g, s)
  }

  lemma SafeSuffix(t: Tables, f: string, g: string, s: string, k: nat)
    requires Safe(t, f, g, s) && k <= |s|
    ensures Safe(t, f, g, s[k..])
  {
    hide SafeAt;
    forall i | 0 <= i < |s[k..]| ensures SafeAt(t, f, g, s[k..][i..]) {
      assert s[k..][i..] == s[k + i..];
    }
  }

  lemma SafeHead(t: Tables, f: string, g: string, s: string)
    requires Safe(t, f, g, s) && s != ""
    ensures SafeAt(t, f, g, s)
  {
    hide SafeAt;
    assert s[0..] == s;
    assert SafeAt(t, f, g, s[0..]);
  }

  lemma TameSuffix(t: Tables, fams: seq<string>, s: string, k: nat)
    requires TameText(t, fams, s) && k <= |s|
    ensures TameText(t, fams, s[k..])
  {
    hide Safe;
    forall f, g | f in fams && g in fams ensures Safe(t, f, g, s[k..]) {
      SafeSuffix(t, f, g, s, k);
    }
  }

  /** No tag of a listed family starts in the text. */
  predicate TagFree(fams: seq<string>, s: string) {
    forall i | 0 <= i < |s| :: FirstFam(fams, s[i..]) == |fams|
  }

  /** The families of a list keep apart from each other. */
  predicate Disjointed(fams: seq<string>) {
    Distinct(fams) && AllApart(fams) && forall f | f in fams :: IsFamily(f)
  }

  lemma ManyCopies(t: Tables, fams: seq<string>, w: string, y: string)
    requires w != "" && FirstFam(fams, w + y) == |fams|
    ensures Many(t, fams, w + y) == Join(Output(w[..1], 0), Many(t, fams, w[1..] + y))
  {
    var s := w + y;
    assert s[1..] == w[1..] + y && s[..1] == w[..1];
    assert ManyHead(t, fams, s) == Output(s[..1], 0);
    assert ManyStride(fams, s) == 1;
  }

  lemma OneCopies(t: Tables, fam: string, w: string, y: string)
    requires w != "" && !HasTag(fam, w + y)
    ensures Out(RestoreOne(t, fam, w + y)) == Join(Output(w[..1], 0), Out(RestoreOne(t, fam, w[1..] + y)))
  {
    var s := w + y;
    assert s[1..] == w[1..] + y && s[..1] == w[..1];
  }

  lemma JoinCopies(w: string, r: Output)
    requires w != ""
    ensures Join(Output(w[..1], 0), Join(Output(w[1..], 0), r)) == Join(Output(w, 0), r)
  {
    assert w[..1] + (w[1..] + r.text) == w + r.text;
  }

  /** A stretch in which no listed tag starts is copied. */
  lemma {:induction false} ManySkips(t: Tables, fams: seq<string>, w: string, y: string)
    requires forall i | 0 <= i < |w| :: FirstFam(fams, w[i..] + y) == |fams|
    ensures Many(t, fams, w + y) == Join(Output(w, 0), Many(t, fams, y))
    decreases |w|
  {
    if w == "" {
      assert w + y == y;
    } else {
      assert FirstFam(fams, w[0..] + y) == |fams|;
      assert w[0..] == w;
      forall i | 0 <= i < |w[1..]| ensures FirstFam(fams, w[1..][i..] + y) == |fams| {
        assert w[1..][i..] == w[i + 1..];
      }
      ManySkips(t, fams, w[1..], y);
      ManyCopies(t, fams, w, y);
      JoinCopies(w, Many(t, fams, y));
    }
  }

  lemma {:induction false} OneSkips(t: Tables, fam: string, w: string, y: string)
    requires forall i | 0 <= i < |w| :: !HasTag(fam, w[i..] + y)
    ensures Out(RestoreOne(t, fam, w + y)) == Join(Output(w, 0), Out(RestoreOne(t, fam, y)))
    decreases |w|
  {
    if w == "" {
      assert w + y == y;
    } else {
      assert !HasTag(fam, w[0..] + y);
      assert w[0..] == w;
      forall i | 0 <= i < |w[1..]| ensures !HasTag(fam, w[1..][i..] + y) {
        assert w[1..][i..] == w[i + 1..];
      }
      OneSkips(t, fam, w[1..], y);
      OneCopies(t, fam, w, y);
      JoinCopies(w, Out(RestoreOne(t, fam, y)));
    }
  }

  lemma InertNoTag(v: string, g: string, i: nat, y: string)
    requires Inert(v, g) && i < |v|
    ensures !HasTag(g, v[i..] + y)
  {
    assert !Compatible(v[i..], g);
    if g <= v[i..] + y {
      PrefixCompatible(g, v[i..], y);
      assert false;
    }
  }

  /** No tag begins in an inert value, whatever follows it. */
  lemma InertSkips(fams: seq<string>, v: string, y: string)
    requires forall g | g in fams :: Inert(v, g)
    ensures forall i | 0 <= i < |v| :: FirstFam(fams, v[i..] + y) == |fams|
  {
    forall i | 0 <= i < |v| ensures FirstFam(fams, v[i..] + y) == |fams| {
      forall g | g in fams ensures !HasTag(g, v[i..] + y) {
        InertNoTag(v, g, i, y);
      }
    }
  }

  /** No other tag begins in a tag that is left as it is. */
  lemma TagSkips(f: string, fams: seq<string>, w: string, y: string)
    requires IsFamily(f) && f !in fams && HasTag(f, w + y) && |w| <= TagLen(f, w + y)
    requires forall g | g in fams :: IsFamily(g) && Apart(f, g)
    ensures forall i | 0 <= i < |w| :: FirstFam(fams, w[i..] + y) == |fams|
  {
    forall i | 0 <= i < |w| ensures FirstFam(fams, w[i..] + y) == |fams| {
      forall g | g in fams ensures !HasTag(g, w[i..] + y) {
        NoTagWithin(f, g, w, y, i);
      }
    }
  }

  lemma NoTagWithin(f: string, g: string, w: string, y: string, i: nat)
    requires IsFamily(f) && IsFamily(g) && Apart(f, g) && f != g
    requires HasTag(f, w + y) && i < |w| <= TagLen(f, w + y)
    ensures !HasTag(g, w[i..] + y)
  {
    NoTagInside(f, g, w + y, i);
    assert w[i..] + y == (w + y)[i..];
  }

  /** `u` is what remains of a tag of `g` once its first characters are gone. */
  predicate TagTail(g: string, u: string) {
    exists j | 0 < j <= |g| :: g[j..] <= u && AllHex(u[|g| - j..])
  }

  predicate HexTail(g: string, u: string) { AllHex(u) || TagTail(g, u) }

  lemma TailShrinks(g: string, u: string, n: nat)
    requires HexTail(g, u) && n <= |u|
    ensures HexTail(g, u[n..])
  {
    if AllHex(u) {
    } else {
      var j :| 0 < j <= |g| && g[j..] <= u && AllHex(u[|g| - j..]);
      if j + n <= |g| {
        assert g[j + n..] == g[j..][n..];
        assert u[n..][|g| - (j + n)..] == u[|g| - j..];
      } else {
        assert u[n..] == u[|g| - j..][n - (|g| - j)..];
      }
    }
  }

  lemma TailMeetsValue(g: string, u: string, v: string)
    requires u != "" && HexTail(g, u) && Inert(v, g)
    ensures !Compatible(u, v)
  {
    if Compatible(u, v) {
      assert u[0] == v[0];
      if !AllHex(u) {
        var j :| 0 < j <= |g| && g[j..] <= u && AllHex(u[|g| - j..]);
        assert j < |g| ==> Compatible(v, g[j..]);
      }
    }
  }

  /** A tag tail cannot start the value of a restored tag. */
  lemma {:induction false} TailNotRestored(t: Tables, f: string, g: string, s: string, u: string)
    requires s != "" && u != "" && HexTail(g, u) && SafeAt(t, f, g, s)
    requires u <= Head(t, f, s).text + RestoreOne(t, f, s[Stride(f, s)..]).text
    ensures Head(t, f, s).text == s[..Stride(f, s)]
  {
    hide RestoreOne, TagLen, HexTail, Inert, Stride, Head;
    HeadIs(t, f, s);
    var v := Head(t, f, s).text;
    PrefixCompatible(u, v, RestoreOne(t, f, s[Stride(f, s)..]).text);
    if Head(t, f, s).count == 1 {
      TailMeetsValue(g, u, v);
      assert false;
    }
  }

  /** One step of the scan: a character or an unknown tag copied, or a value. */
  lemma HeadIs(t: Tables, f: string, s: string)
    requires s != ""
    ensures var h := Head(t, f, s);
            h.count <= 1 && (h.count == 0 ==> h.text == s[..Stride(f, s)])
            && (h.count == 1 ==> HasTag(f, s) && Resolve(t, f, s[|f|..TagLen(f, s)]) == Some(h.text))
  {
    if HasTag(f, s) {
      assert s[..|f|] == f;
    }
  }

  /** A tag tail that shows in the restored text was there before the restore. */
  lemma {:induction false} TailWasThere(t: Tables, f: string, g: string, s: string, u: string)
    requires HexTail(g, u) && u <= RestoreOne(t, f, s).text
    requires Safe(t, f, g, s)
    ensures u <= s
    decreases |s|
  {
    if u != "" && s != "" {
      SafeHead(t, f, g, s);
      TailNotRestored(t, f, g, s, u);
      var k := Stride(f, s);
      if |u| > k {
        TailShrinks(g, u, k);
        PrefixOfSum(u, s[..k], RestoreOne(t, f, s[k..]).text);
        SafeSuffix(t, f, g, s, k);
        TailWasThere(t, f, g, s[k..], u[k..]);
      }
      PrefixJoins(u, s, k, RestoreOne(t, f, s[k..]).text);
    }
  }

  lemma PrefixOfSum(u: string, a: string, b: string)
    requires u <= a + b && |a| <= |u|
    ensures u[|a|..] <= b
  {
    assert b == (a + b)[|a|..];
  }

  lemma PrefixJoins(u: string, s: string, k: nat, y: string)
    requires k <= |s| && u <= s[..k] + y
    requires |u| > k ==> u[k..] <= s[k..]
    ensures u <= s
  {
    assert forall i | 0 <= i < |u| && i < k :: u[i] == (s[..k] + y)[i];
    assert forall i | k <= i < |u| :: u[i] == u[k..][i - k] == s[k..][i - k];
  }

  // ---------- one pass more ----------

  /** `y` cannot lengthen a core: it is empty or starts with no hex digit. */
  predicate NoHexStart(y: string) { y == "" || !IsHex(y[0]) }

  lemma RestoreStart(t: Tables, f: string, s: string)
    requires NoHexStart(s) && Safe(t, f, f, s)
    ensures NoHexStart(RestoreOne(t, f, s).text)
  {
    if s != "" {
      SafeHead(t, f, f, s);
      HeadIs(t, f, s);
      var head := Head(t, f, s);
      if head.count == 1 {
        assert head.text[0] == RestoreOne(t, f, s).text[0];
      } else {
        assert RestoreOne(t, f, s).text[0] == s[0];
      }
    }
  }

  /** What the pass for `f` and the scan for the rest ask of the families and the text. */
  predicate PassReady(t: Tables, f: string, rest: seq<string>, s: string) {
    Disjointed([f] + rest) && TameText(t, [f] + rest, s)
  }

  lemma ReadyMeans(t: Tables, f: string, rest: seq<string>, s: string)
    requires PassReady(t, f, rest, s)
    ensures IsFamily(f) && Apart(f, f) && f !in rest && Safe(t, f, f, s)
    ensures forall g | g in rest :: IsFamily(g) && Apart(f, g) && Apart(g, f) && Safe(t, f, g, s)
    ensures forall g, h | g in rest && h in rest :: Apart(g, h) && Safe(t, g, h, s)
  {
    hide Safe, Apart, IsFamily;
    var all := [f] + rest;
    assert forall g | g in rest :: g in all;
    assert f in all && f == all[0];
    forall i | 0 <= i < |rest| ensures rest[i] != f {
      assert all[0] != all[i + 1];
    }
  }

  /** The first step of both scans when a tag of `f` starts the text. */
  lemma {:induction false} TagOfF(t: Tables, f: string, rest: seq<string>, s: string)
    requires PassReady(t, f, rest, s) && s != "" && HasTag(f, s)
    ensures Many(t, rest, RestoreOne(t, f, s).text)
         == Join(Output(Head(t, f, s).text, 0), Many(t, rest, RestoreOne(t, f, s[Stride(f, s)..]).text))
  {
    hide TameText, Disjointed, PassReady;
    ReadyMeans(t, f, rest, s);
    var k := Stride(f, s);
    var v := Head(t, f, s).text;
    var y := RestoreOne(t, f, s[k..]).text;
    HeadIs(t, f, s);
    if Head(t, f, s).count == 1 {
      forall g | g in rest ensures Inert(v, g) {
        SafeHead(t, f, g, s);
      }
      InertSkips(rest, v, y);
    } else {
      RestoreStartAfter(t, f, s);
      TagKept(f, s, k, y);
      TagSkips(f, rest, v, y);
    }
    ManySkips(t, rest, v, y);
  }

  /** Behind a tag shorter than the longest, neither the text nor its restore goes on
      with a hex digit. */
  lemma RestoreStartAfter(t: Tables, f: string, s: string)
    requires HasTag(f, s) && Safe(t, f, f, s)
    ensures TagLen(f, s) < |f| + 12 ==> NoHexStart(RestoreOne(t, f, s[TagLen(f, s)..]).text)
  {
    var n := TagLen(f, s);
    if n < |f| + 12 {
      SafeSuffix(t, f, f, s, n);
      RestoreStart(t, f, s[n..]);
    }
  }

  lemma TagKept(g: string, s: string, n: nat, y: string)
    requires HasTag(g, s) && n == TagLen(g, s)
    requires n < |g| + 12 ==> NoHexStart(y)
    ensures TagLen(g, s[..n] + y) == n && HasTag(g, s[..n] + y)
  {
    var w := s[..n] + y;
    assert forall i | 0 <= i < n :: w[i] == s[i];
    TagLenIs(g, w, n);
  }

  /** What both scans together give. */
  function Both(t: Tables, f: string, rest: seq<string>, s: string): Output {
    var o := RestoreOne(t, f, s);
    AddCount(o.count, Many(t, rest, o.text))
  }

  function AddCount(n: nat, o: Output): Output { Output(o.text, n + o.count) }

  predicate StepAgrees(t: Tables, f: string, rest: seq<string>, s: string)
    requires s != ""
  {
    var all := [f] + rest;
    Both(t, f, rest, s) == Join(ManyHead(t, all, s), Both(t, f, rest, s[ManyStride(all, s)..]))
  }

  lemma StepOfF(t: Tables, f: string, rest: seq<string>, s: string)
    requires PassReady(t, f, rest, s) && s != "" && HasTag(f, s)
    ensures StepAgrees(t, f, rest, s)
  {
    hide PassReady, HexRun;
    TagOfF(t, f, rest, s);
    assert FirstFam([f] + rest, s) == 0;
    assert s[..|f|] == f;
  }

  lemma FirstInAll(f: string, rest: seq<string>, s: string)
    requires !HasTag(f, s)
    ensures FirstFam([f] + rest, s) == 1 + FirstFam(rest, s)
  {
    assert ([f] + rest)[1..] == rest;
  }

  /** The pass for `f` copies a tag of `g` that starts the text. */
  lemma TagOfGCopied(t: Tables, f: string, g: string, s: string)
    requires IsFamily(f) && IsFamily(g) && Apart(g, f) && f != g && HasTag(g, s)
    ensures Out(RestoreOne(t, f, s))
         == Join(Output(s[..TagLen(g, s)], 0), Out(RestoreOne(t, f, s[TagLen(g, s)..])))
  {
    var n := TagLen(g, s);
    var w := s[..n];
    assert w + s[n..] == s;
    forall k | 0 <= k < |w| ensures !HasTag(f, w[k..] + s[n..]) {
      NoTagWithin(g, f, w, s[n..], k);
    }
    OneSkips(t, f, w, s[n..]);
  }

  /** A tag that starts a text is the first one of the families that keep apart. */
  lemma FirstIs(rest: seq<string>, i: nat, w: string)
    requires i < |rest| && HasTag(rest[i], w)
    requires forall h | h in rest :: IsFamily(h) && Apart(rest[i], h)
    ensures FirstFam(rest, w) <= i && rest[FirstFam(rest, w)] == rest[i]
  {
    assert w[0..] == w;
    forall h | h in rest && h != rest[i] ensures !HasTag(h, w) {
      NoTagInside(rest[i], h, w, 0);
    }
  }

  /** A tag of `g` that starts the text is still the first thing after the pass for `f`. */
  lemma {:induction false} TagOfG(t: Tables, f: string, rest: seq<string>, s: string)
    requires PassReady(t, f, rest, s) && !HasTag(f, s) && FirstFam(rest, s) < |rest|
    ensures var i := FirstFam(rest, s);
            var n := TagLen(rest[i], s);
            var y := RestoreOne(t, f, s[n..]).text;
            Out(RestoreOne(t, f, s)) == Join(Output(s[..n], 0), Out(RestoreOne(t, f, s[n..])))
            && FirstFam(rest, s[..n] + y) == i && TagLen(rest[i], s[..n] + y) == n
  {
    ReadyMeans(t, f, rest, s);
    var i := FirstFam(rest, s);
    var g := rest[i];
    var n := TagLen(g, s);
    TagOfGCopied(t, f, g, s);
    TagIsKept(t, f, g, s);
    var y := RestoreOne(t, f, s[n..]).text;
    FirstIs(rest, i, s[..n] + y);
    assert HasTag(rest[FirstFam(rest, s[..n] + y)], s);
  }

  lemma ManyTag(t: Tables, fams: seq<string>, s: string, i: nat, n: nat)
    requires i < |fams| && FirstFam(fams, s) == i && TagLen(fams[i], s) == n
    ensures n <= |s| && |fams[i]| <= n
    ensures Many(t, fams, s) == Join(Out(RestoreTag(t, fams[i], s[|fams[i]|..n])), Many(t, fams, s[n..]))
  {
    assert HasTag(fams[i], s);
    assert s != "";
    assert ManyStride(fams, s) == n;
  }

  lemma {:induction false} StepOfG(t: Tables, f: string, rest: seq<string>, s: string)
    requires PassReady(t, f, rest, s) && s != "" && !HasTag(f, s) && FirstFam(rest, s) < |rest|
    ensures StepAgrees(t, f, rest, s)
  {
    TagOfG(t, f, rest, s);
    FirstInAll(f, rest, s);
    var i := FirstFam(rest, s);
    var g := rest[i];
    var n := TagLen(g, s);
    var o := RestoreOne(t, f, s[n..]);
    var w := s[..n] + o.text;
    assert w[n..] == o.text && w[|g|..n] == s[|g|..n];
    ManyTag(t, rest, w, i, n);
    BothIs(t, f, rest, s, RestoreTag(t, g, s[|g|..n]), n);
    assert ([f] + rest)[1 + i] == g;
  }

  lemma {:induction false} BothIs(t: Tables, f: string, rest: seq<string>, s: string, head: Restored, n: nat)
    requires n <= |s|
    requires RestoreOne(t, f, s).count == RestoreOne(t, f, s[n..]).count
    requires Many(t, rest, RestoreOne(t, f, s).text)
          == Join(Out(head), Many(t, rest, RestoreOne(t, f, s[n..]).text))
    ensures Both(t, f, rest, s) == Join(Out(head), Both(t, f, rest, s[n..]))
  {
    AddCountJoins(RestoreOne(t, f, s).count, Out(head), Many(t, rest, RestoreOne(t, f, s[n..]).text));
  }

  lemma AddCountJoins(n: nat, a: Output, b: Output)
    ensures AddCount(n, Join(a, b)) == Join(a, AddCount(n, b))
  {}

  /** A tag that shows after the pass for `f` was there before. */
  lemma NoTagAppears(t: Tables, f: string, g: string, s: string)
    requires IsFamily(g) && Safe(t, f, g, s) && s != ""
    requires HasTag(g, s[..1] + RestoreOne(t, f, s[1..]).text)
    ensures HasTag(g, s)
  {
    var y := RestoreOne(t, f, s[1..]).text;
    TagHasTail(g, s[..1], y);
    var u := y[..|g| + 7];
    SafeSuffix(t, f, g, s, 1);
    TailWasThere(t, f, g, s[1..], u);
    assert u == s[1..][..|g| + 7];
    assert s[..1] + s[1..] == s;
    TagFromTail(g, s[..1], y, s[1..]);
  }

  lemma TagHasTail(g: string, c: string, y: string)
    requires |c| == 1 && g != "" && HasTag(g, c + y)
    ensures |g| + 7 <= |y| && HexTail(g, y[..|g| + 7])
  {
    var w := c + y;
    assert TagLen(g, w) > 0;
    var u := y[..|g| + 7];
    assert forall i | 0 <= i < |u| :: u[i] == w[i + 1];
    assert g[1..] == u[..|g| - 1];
    assert TagTail(g, u);
  }

  lemma TagFromTail(g: string, c: string, y: string, z: string)
    requires |c| == 1 && g != "" && HasTag(g, c + y)
    requires |g| + 7 <= |y| && |g| + 7 <= |z| && y[..|g| + 7] == z[..|g| + 7]
    ensures HasTag(g, c + z)
  {
    assert TagLen(g, c + y) > 0;
    assert forall i | 0 <= i < |g| + 7 :: z[i] == z[..|g| + 7][i] == y[i];
    assert forall i | 0 <= i < |g| + 8 :: (c + z)[i] == (c + y)[i];
    assert (c + z)[..|g|] == (c + y)[..|g|];
    HasTagIs(g, c + z);
  }

  lemma {:induction false} StepOfText(t: Tables, f: string, rest: seq<string>, s: string)
    requires PassReady(t, f, rest, s) && s != "" && !HasTag(f, s) && FirstFam(rest, s) == |rest|
    ensures StepAgrees(t, f, rest, s)
  {
    ReadyMeans(t, f, rest, s);
    var y := RestoreOne(t, f, s[1..]).text;
    forall g | g in rest ensures !HasTag(g, s[..1] + y) {
      if HasTag(g, s[..1] + y) {
        NoTagAppears(t, f, g, s);
        assert false;
      }
    }
    FirstInAll(f, rest, s);
    CopyAgrees(t, f, rest, s);
  }

  lemma CopyAgrees(t: Tables, f: string, rest: seq<string>, s: string)
    requires s != "" && !HasTag(f, s) && FirstFam([f] + rest, s) == 1 + |rest|
    requires FirstFam(rest, s[..1] + RestoreOne(t, f, s[1..]).text) == |rest|
    ensures StepAgrees(t, f, rest, s)
  {
    var c := s[..1];
    var o := RestoreOne(t, f, s[1..]);
    assert Many(t, rest, c + o.text) == Join(Output(c, 0), Many(t, rest, o.text)) by {
      ManyCopies(t, rest, c, o.text);
      assert c[1..] + o.text == o.text && c[..1] == c;
    }
    CopyOfOne(t, f, s);
    BothIs(t, f, rest, s, Restored(c, 0, []), 1);
  }

  lemma CopyOfOne(t: Tables, f: string, s: string)
    requires s != "" && !HasTag(f, s)
    ensures RestoreOne(t, f, s).text == s[..1] + RestoreOne(t, f, s[1..]).text
    ensures RestoreOne(t, f, s).count == RestoreOne(t, f, s[1..]).count
  {}

  /** One pass for `f` before the scan for the rest is one scan for all of them. */
  lemma {:induction false} TamePassMore(t: Tables, f: string, rest: seq<string>, s: string)
    requires PassReady(t, f, rest, s)
    ensures Both(t, f, rest, s) == Many(t, [f] + rest, s)
    decreases |s|
  {
    if s != "" {
      if HasTag(f, s) {
        StepOfF(t, f, rest, s);
      } else if FirstFam(rest, s) < |rest| {
        StepOfG(t, f, rest, s);
      } else {
        StepOfText(t, f, rest, s);
      }
      TameSuffix(t, [f] + rest, s, ManyStride([f] + rest, s));
      TamePassMore(t, f, rest, s[ManyStride([f] + rest, s)..]);
    }
  }

  lemma {:induction false} ManyOfNone(t: Tables, s: string)
    ensures Many(t, [], s) == Output(s, 0)
    decreases |s|
  {
    if s != "" {
      ManyOfNone(t, s[1..]);
      assert s[..1] + s[1..] == s;
    }
  }

  // ---------- a tame text stays tame ----------

  /** A tag of another family that starts the restored text, with nothing restored before
      it, is the one that started the text. */
  lemma {:induction false} TagStays(t: Tables, f: string, g: string, s: string)
    requires IsFamily(f) && IsFamily(g) && f != g && Apart(f, g) && Apart(g, f)
    requires Safe(t, f, f, s) && Safe(t, f, g, s) && s != "" && HasTag(g, RestoreOne(t, f, s).text)
    ensures HasTag(g, s) && var n := TagLen(g, s);
            var out := RestoreOne(t, f, s).text;
            TagLen(g, out) == n && out[|g|..n] == s[|g|..n]
  {
    hide Safe, Apart, IsFamily;
    var out := RestoreOne(t, f, s).text;
    assert out[0..] == out;
    if HasTag(f, s) {
      SomethingPut(t, f, g, s);
      NoTagBehindTag(t, f, g, s, 0);
      assert false;
    }
    CopyOfOne(t, f, s);
    NoTagAppears(t, f, g, s);
    TagIsKept(t, f, g, s);
  }

  lemma SomethingPut(t: Tables, f: string, g: string, s: string)
    requires HasTag(f, s) && s != "" && Safe(t, f, g, s)
    ensures Head(t, f, s).text != ""
  {
    HeadIs(t, f, s);
    SafeHead(t, f, g, s);
  }

  /** The pass for `f` leaves a tag of another family that starts the text as it is. */
  lemma {:induction false} TagIsKept(t: Tables, f: string, g: string, s: string)
    requires IsFamily(f) && IsFamily(g) && f != g && Apart(g, f) && Safe(t, f, f, s) && HasTag(g, s)
    ensures var n := TagLen(g, s);
            var out := RestoreOne(t, f, s).text;
            out == s[..n] + RestoreOne(t, f, s[n..]).text && TagLen(g, out) == n && out[|g|..n] == s[|g|..n]
  {
    TagOfGCopied(t, f, g, s);
    var n := TagLen(g, s);
    var y := RestoreOne(t, f, s[n..]).text;
    if n < |g| + 12 {
      SafeSuffix(t, f, f, s, n);
      RestoreStart(t, f, s[n..]);
    }
    TagKept(g, s, n, y);
    assert (s[..n] + y)[|g|..n] == s[|g|..n];
  }

  /** Where a tag of `f` starts the text, no tag of `g` starts in what the pass for `f` puts
      in its place. */
  lemma {:induction false} NoTagBehindTag(t: Tables, f: string, g: string, s: string, i: nat)
    requires IsFamily(f) && IsFamily(g) && f != g && Apart(f, g) && HasTag(f, s)
    requires Safe(t, f, f, s) && Safe(t, f, g, s) && i < |Head(t, f, s).text|
    ensures !HasTag(g, RestoreOne(t, f, s).text[i..])
  {
    var k := Stride(f, s);
    var v := Head(t, f, s).text;
    var y := RestoreOne(t, f, s[k..]).text;
    HeadIs(t, f, s);
    DropSum(v, y, i);
    if Head(t, f, s).count == 1 {
      SafeHead(t, f, g, s);
      InertNoTag(v, g, i, y);
    } else {
      RestoreStartAfter(t, f, s);
      TagKept(f, s, k, y);
      NoTagWithin(f, g, v, y, i);
    }
  }

  /** The pass for `f` leaves the tags of the other families, and what they stand for. */
  lemma {:induction false} SafeAfterPass(t: Tables, f: string, g: string, h: string, s: string)
    requires IsFamily(f) && IsFamily(g) && f != g && Apart(f, g) && Apart(g, f)
    requires Safe(t, f, f, s) && Safe(t, f, g, s) && Safe(t, g, h, s)
    ensures Safe(t, g, h, RestoreOne(t, f, s).text)
    decreases |s|
  {
    hide SafeAt;
    var out := RestoreOne(t, f, s).text;
    if s != "" {
      var k := Stride(f, s);
      var v := Head(t, f, s).text;
      var rest := RestoreOne(t, f, s[k..]).text;
      SafeSuffix(t, f, f, s, k);
      SafeSuffix(t, f, g, s, k);
      SafeSuffix(t, g, h, s, k);
      SafeAfterPass(t, f, g, h, s[k..]);
      forall i | 0 <= i < |out| ensures SafeAt(t, g, h, out[i..]) {
        if i >= |v| {
          assert out[i..] == rest[i - |v|..];
        } else {
          SafeInHead(t, f, g, h, s, i);
        }
      }
    }
  }

  lemma {:induction false} SafeInHead(t: Tables, f: string, g: string, h: string, s: string, i: nat)
    requires IsFamily(f) && IsFamily(g) && f != g && Apart(f, g) && Apart(g, f)
    requires Safe(t, f, f, s) && Safe(t, f, g, s) && Safe(t, g, h, s)
    requires s != "" && i < |Head(t, f, s).text|
    ensures SafeAt(t, g, h, RestoreOne(t, f, s).text[i..])
  {
    var out := RestoreOne(t, f, s).text;
    if HasTag(f, s) {
      NoTagBehindTag(t, f, g, s, i);
    } else {
      assert i == 0 && out[0..] == out;
      if HasTag(g, out) {
        TagStays(t, f, g, s);
        SafeHead(t, g, h, s);
      }
    }
  }

  lemma {:induction false} TameAfterPass(t: Tables, f: string, rest: seq<string>, s: string)
    requires PassReady(t, f, rest, s)
    ensures Disjointed(rest) && TameText(t, rest, RestoreOne(t, f, s).text)
  {
    hide Safe, Apart, IsFamily;
    ReadyMeans(t, f, rest, s);
    assert forall i | 0 <= i < |rest| :: ([f] + rest)[i + 1] == rest[i];
    forall g, h | g in rest && h in rest ensures Safe(t, g, h, RestoreOne(t, f, s).text) {
      SafeAfterPass(t, f, g, h, s);
    }
  }

  /** Families that keep apart, on a text whose own tags stand for inert values: the passes
      of an explicit family list are one simultaneous scan. */
  lemma {:induction false} TamePassesAreOneScan(t: Tables, fams: seq<string>, s: string)
    requires Disjointed(fams) && TameText(t, fams, s)
    ensures PassOut(t, fams, s) == Many(t, fams, s)
    decreases |fams|
  {
    if fams == [] {
      ManyOfNone(t, s);
    } else {
      var f, rest := fams[0], fams[1..];
      hide TameText, Disjointed;
      assert [f] + rest == fams;
      TameAfterPass(t, f, rest, s);
      TamePassesAreOneScan(t, rest, RestoreOne(t, f, s).text);
      TamePassMore(t, f, rest, s);
      PassOutIs(t, f, rest, s);
    }
  }

  lemma PassOutIs(t: Tables, f: string, rest: seq<string>, s: string)
    ensures PassOut(t, [f] + rest, s)
         == AddCount(RestoreOne(t, f, s).count, PassOut(t, rest, RestoreOne(t, f, s).text))
  {
    assert ([f] + rest)[1..] == rest;
  }

  // ---------- cutting the simultaneous scan ----------

  predicate CleanFor(passes: seq<string>, s: string, u: string) {
    forall f | f in passes :: Clean(f, s, u)
  }

  lemma {:induction false} ManySplits(t: Tables, fams: seq<string>, s: string, u: string)
    requires CleanFor(fams, s, u)
    ensures Many(t, fams, s + u) == Join(Many(t, fams, s), Many(t, fams, u))
    decreases |s|
  {
    if s == "" {
      assert s + u == u;
    } else {
      ManyHeadPrefix(t, fams, s, u);
      var k := ManyStride(fams, s);
      forall f | f in fams ensures Clean(f, s[k..], u) {
        CleanSuffix(f, s, u, k);
      }
      ManySplits(t, fams, s[k..], u);
      ManyStep(t, fams, s, u, k, ManyHead(t, fams, s));
    }
  }

  /** The part before a clean cut is as tame as the whole. */
  lemma {:induction false} TamePrefix(t: Tables, fams: seq<string>, s: string, u: string)
    requires CleanFor(fams, s, u) && TameText(t, fams, s + u)
    ensures TameText(t, fams, s)
  {
    hide Clean, SafeAt;
    forall f, g, i | f in fams && g in fams && 0 <= i < |s| ensures SafeAt(t, f, g, s[i..]) {
      assert Safe(t, f, g, s + u);
      DropSum(s, u, i);
      CleanSuffix(f, s, u, i);
      SafeBeforeCut(t, f, g, s[i..], u);
    }
  }

  lemma SafeBeforeCut(t: Tables, f: string, g: string, s: string, u: string)
    requires s != "" && Clean(f, s, u) && SafeAt(t, f, g, s + u)
    ensures SafeAt(t, f, g, s)
  {
    TagLenPrefix(f, s, u);
    if HasTag(f, s) {
      var n := TagLen(f, s);
      assert (s + u)[|f|..n] == s[|f|..n];
    }
  }

  lemma {:induction false} FirstFamSame(fams: seq<string>, s: string, w: string)
    requires forall f | f in fams :: HasTag(f, s) <==> HasTag(f, w)
    ensures FirstFam(fams, s) == FirstFam(fams, w)
    decreases |fams|
  {
    if fams != [] && !HasTag(fams[0], s) {
      assert forall f | f in fams[1..] :: f in fams;
      FirstFamSame(fams[1..], s, w);
    }
  }

  lemma {:induction false} ManyHeadPrefix(t: Tables, fams: seq<string>, s: string, u: string)
    requires s != "" && CleanFor(fams, s, u)
    ensures ManyStride(fams, s + u) == ManyStride(fams, s) && ManyHead(t, fams, s + u) == ManyHead(t, fams, s)
  {
    forall f | f in fams ensures TagLen(f, s) == TagLen(f, s + u) {
      assert Clean(f, s, u);
      TagLenPrefix(f, s, u);
    }
    FirstFamSame(fams, s, s + u);
    var i := FirstFam(fams, s);
    assert (s + u)[..1] == s[..1];
    if i < |fams| {
      var n := TagLen(fams[i], s);
      assert (s + u)[|fams[i]|..n] == s[|fams[i]|..n];
    }
  }

  lemma {:induction false} ManyStep(t: Tables, fams: seq<string>, s: string, u: string, k: nat, head: Output)
    requires s != "" && k == ManyStride(fams, s) == ManyStride(fams, s + u)
    requires head == ManyHead(t, fams, s) == ManyHead(t, fams, s + u)
    requires Many(t, fams, s[k..] + u) == Join(Many(t, fams, s[k..]), Many(t, fams, u))
    ensures Many(t, fams, s + u) == Join(Many(t, fams, s), Many(t, fams, u))
  {
    DropSum(s, u, k);
    ManyUnfolds(t, fams, s + u);
    ManyUnfolds(t, fams, s);
    JoinStep(head, Many(t, fams, s), Many(t, fams, s + u), Many(t, fams, s[k..]), Many(t, fams, u));
  }

  lemma JoinStep(head: Output, a: Output, b: Output, c: Output, d: Output)
    requires a == Join(head, c) && b == Join(head, Join(c, d))
    ensures b == Join(a, d)
  {
    assert head.text + c.text + d.text == head.text + (c.text + d.text);
  }

  lemma ManyUnfolds(t: Tables, fams: seq<string>, s: string)
    requires s != ""
    ensures Many(t, fams, s) == Join(ManyHead(t, fams, s), Many(t, fams, s[ManyStride(fams, s)..]))
  {}
}
