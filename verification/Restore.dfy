/** Restoring tags: the single-family scan, the family-by-family passes of an
    explicit family list, and the simultaneous scan they amount to. */
module Restore {
  import opened Text

  /** The two reverse indexes of the store: tag to value, and core to value. */
  datatype Tables = Tables(tags: map<string, string>, cores: map<string, string>)

  datatype Restored = Restored(text: string, count: nat, unresolved: seq<string>)

  /** Exact tag first, then the family-independent core index. */
  function Resolve(t: Tables, fam: string, core: string): Option<string> {
    if fam + core in t.tags then Some(t.tags[fam + core])
    else if core in t.cores then Some(t.cores[core])
    else None
  }

  function Then(a: Restored, b: Restored): Restored {
    Restored(a.text + b.text, a.count + b.count, a.unresolved + b.unresolved)
  }

  lemma ThenAssoc(a: Restored, b: Restored, c: Restored)
    ensures Then(Then(a, b), c) == Then(a, Then(b, c))
  {
    assert a.text + b.text + c.text == a.text + (b.text + c.text);
    assert a.unresolved + b.unresolved + c.unresolved == a.unresolved + (b.unresolved + c.unresolved);
  }

  /** What one tag is replaced by. */
  function RestoreTag(t: Tables, fam: string, core: string): Restored {
    match Resolve(t, fam, core)
    case Some(v) => Restored(v, 1, [])
    case None => Restored(fam + core, 0, [fam + core])
  }

  /** How far one step of the scan goes: over a tag, or over one character. */
  function Stride(fam: string, s: string): (k: nat)
    requires s != ""
    ensures 0 < k <= |s|
  {
    if TagLen(fam, s) > 0 then TagLen(fam, s) else 1
  }

  /** What that step contributes. */
  function Head(t: Tables, fam: string, s: string): Restored
    requires s != ""
  {
    var n := TagLen(fam, s);
    if n > 0 then RestoreTag(t, s[..|fam|], s[|fam|..n]) else Restored(s[..1], 0, [])
  }

  /** The single-family restore as a left-to-right scan. */
  function RestoreOne(t: Tables, fam: string, s: string): Restored
    decreases |s|
  {
    if s == "" then Restored("", 0, [])
    else Then(Head(t, fam, s), RestoreOne(t, fam, s[Stride(fam, s)..]))
  }

  /** No tag of `fam` that starts in `s` reaches into `u`, whatever `u` adds to it. */
  predicate Clean(fam: string, s: string, u: string)
    decreases |s|
  {
    s == "" || (TagLen(fam, s + u) <= |s| && Clean(fam, s[1..], u))
  }

  lemma {:induction false} CleanIf(fam: string, s: string, u: string)
    requires forall i | 0 <= i < |s| :: i + TagLen(fam, s[i..] + u) <= |s|
    ensures Clean(fam, s, u)
    decreases |s|
  {
    if s != "" {
      assert 0 + TagLen(fam, s[0..] + u) <= |s|;
      assert s[0..] == s;
      forall i | 0 <= i < |s[1..]| ensures i + TagLen(fam, s[1..][i..] + u) <= |s[1..]| {
        assert s[1..][i..] == s[i + 1..];
        assert i + 1 + TagLen(fam, s[i + 1..] + u) <= |s|;
      }
      CleanIf(fam, s[1..], u);
    }
  }

  lemma {:induction false} CleanSuffix(fam: string, s: string, u: string, k: nat)
    requires k <= |s| && Clean(fam, s, u)
    ensures Clean(fam, s[k..], u)
    decreases k
  {
    if k == 0 {
      assert s[k..] == s;
    } else {
      CleanSuffix(fam, s[1..], u, k - 1);
      assert s[1..][k - 1..] == s[k..];
    }
  }

  /** A tag that ends inside `s` does not depend on what follows `s`. */
  lemma TagLenPrefix(fam: string, s: string, u: string)
    requires TagLen(fam, s + u) <= |s|
    ensures TagLen(fam, s) == TagLen(fam, s + u)
  {
    assert forall i | 0 <= i < |s| :: (s + u)[i] == s[i];
    if TagLen(fam, s + u) > 0 {
      TagLenIs(fam, s, TagLen(fam, s + u));
    } else if TagLen(fam, s) > 0 {
      HasTagIs(fam, s + u);
    }
  }

  lemma HeadPrefix(t: Tables, fam: string, s: string, u: string)
    requires s != "" && TagLen(fam, s + u) <= |s|
    ensures Stride(fam, s + u) == Stride(fam, s) && Head(t, fam, s + u) == Head(t, fam, s)
  {
    TagLenPrefix(fam, s, u);
    var k := Stride(fam, s);
    assert (s + u)[..k] == s[..k];
    if TagLen(fam, s) > 0 {
      assert (s + u)[|fam|..k] == s[|fam|..k] && (s + u)[..|fam|] == s[..|fam|];
    }
  }

  /** One step of the scan of `s + u` is the same step of the scan of `s`. */
  lemma StepSplits(t: Tables, fam: string, s: string, u: string)
    requires s != "" && TagLen(fam, s + u) <= |s|
    ensures RestoreOne(t, fam, s + u)
         == Then(Head(t, fam, s), RestoreOne(t, fam, s[Stride(fam, s)..] + u))
  {
    HeadPrefix(t, fam, s, u);
    assert (s + u)[Stride(fam, s)..] == s[Stride(fam, s)..] + u;
  }

  /** The restore of a text is the restores of its parts when the cut is clean. */
  lemma {:induction false} RestoreSplits(t: Tables, fam: string, s: string, u: string)
    requires Clean(fam, s, u)
    ensures RestoreOne(t, fam, s + u) == Then(RestoreOne(t, fam, s), RestoreOne(t, fam, u))
    decreases |s|
  {
    if s == "" {
      assert s + u == u;
    } else {
      var k := Stride(fam, s);
      CleanSuffix(fam, s, u, k);
      RestoreSplits(t, fam, s[k..], u);
      SplitsFrom(t, fam, s, u);
    }
  }

  lemma {:induction false} SplitsFrom(t: Tables, fam: string, s: string, u: string)
    requires s != "" && TagLen(fam, s + u) <= |s|
    requires var rest := s[Stride(fam, s)..];
             RestoreOne(t, fam, rest + u) == Then(RestoreOne(t, fam, rest), RestoreOne(t, fam, u))
    ensures RestoreOne(t, fam, s + u) == Then(RestoreOne(t, fam, s), RestoreOne(t, fam, u))
  {
    var rest := s[Stride(fam, s)..];
    StepSplits(t, fam, s, u);
    ThenAssoc(Head(t, fam, s), RestoreOne(t, fam, rest), RestoreOne(t, fam, u));
  }

  // ---------- an explicit family list ----------

  /** The families tried, in order: the valid ones, once each, the default last. */
  function Passes(families: seq<string>): seq<string> { PassesWith(families, PWD) }

  function PassesWith(families: seq<string>, prefix: string): seq<string> {
    Keep(families + [prefix], [])
  }

  function Keep(families: seq<string>, kept: seq<string>): seq<string>
    decreases |families|
  {
    if families == [] then kept
    else if IsPrefix(families[0]) && families[0] !in kept then Keep(families[1..], kept + [families[0]])
    else Keep(families[1..], kept)
  }

  predicate Distinct(s: seq<string>) { forall i, j | 0 <= i < j < |s| :: s[i] != s[j] }

  lemma {:induction false} KeepHas(families: seq<string>, kept: seq<string>)
    requires Distinct(kept) && forall f | f in kept :: IsPrefix(f)
    ensures var r := Keep(families, kept);
            Distinct(r) && forall f :: f in r <==> f in kept || (f in families && IsPrefix(f))
    decreases |families|
  {
    if families != [] {
      assert families == [families[0]] + families[1..];
      if IsPrefix(families[0]) && families[0] !in kept {
        KeepHas(families[1..], kept + [families[0]]);
      } else {
        KeepHas(families[1..], kept);
      }
    }
  }

  /** The families of the passes are the valid requested ones and the default. */
  lemma PassesHas(families: seq<string>)
    ensures Distinct(Passes(families))
    ensures forall f :: f in Passes(families) <==> IsPrefix(f) && (f in families || f == PWD)
  {
    KeepHas(families + [PWD], []);
  }

  lemma {:induction false} KeepAll(families: seq<string>, kept: seq<string>)
    requires Distinct(kept + families) && forall f | f in families :: IsPrefix(f)
    ensures Keep(families, kept) == kept + families
    decreases |families|
  {
    hide IsPrefix;
    if families == [] {
      assert kept + families == kept;
    } else {
      assert kept + [families[0]] + families[1..] == kept + families;
      assert (kept + families)[|kept|] == families[0];
      assert forall i | 0 <= i < |kept| :: (kept + families)[i] == kept[i];
      KeepAll(families[1..], kept + [families[0]]);
    }
  }

  /** They are tried in the order they were requested in, the default one last unless it was requested. */
  lemma {:induction false} PassesInOrder(families: seq<string>)
    requires Distinct(families) && forall f | f in families :: IsPrefix(f)
    ensures Passes(families) == if PWD in families then families else families + [PWD]
  {
    hide IsPrefix, Keep;
    assert [] + families == families;
    KeepAll(families, []);
    KeepSum(families, [PWD], []);
    LastKept(families);
  }

  lemma LastKept(kept: seq<string>)
    ensures Keep([PWD], kept) == if PWD in kept then kept else kept + [PWD]
  {
    assert [PWD][1..] == [];
    assert Keep([], kept) == kept && Keep([], kept + [PWD]) == kept + [PWD];
  }

  lemma {:induction false} KeepSum(a: seq<string>, b: seq<string>, kept: seq<string>)
    ensures Keep(a + b, kept) == Keep(b, Keep(a, kept))
    decreases |a|
  {
    hide IsPrefix;
    if a == [] {
      assert a + b == b;
    } else {
      assert (a + b)[1..] == a[1..] + b;
      KeepSum(a[1..], b, if IsPrefix(a[0]) && a[0] !in kept then kept + [a[0]] else kept);
    }
  }

  /** New unresolved tags are appended in order, each once. */
  function AddNew(seen: seq<string>, more: seq<string>): seq<string>
    decreases |more|
  {
    if more == [] then seen
    else AddNew(if more[0] in seen then seen else seen + [more[0]], more[1..])
  }

  /** One pass for each family, each on the text the previous one left. */
  function RunPasses(t: Tables, fams: seq<string>, r: Restored): Restored
    decreases |fams|
  {
    if fams == [] then r
    else
      var o := RestoreOne(t, fams[0], r.text);
      RunPasses(t, fams[1..], Restored(o.text, r.count + o.count, AddNew(r.unresolved, o.unresolved)))
  }

  function Desanitize(t: Tables, families: seq<string>, s: string): Restored {
    RunPasses(t, Passes(families), Restored(s, 0, []))
  }

  /** Text and count alone: what a stream keeps of a restore. */
  datatype Output = Output(text: string, count: nat)

  function Join(a: Output, b: Output): Output { Output(a.text + b.text, a.count + b.count) }

  function Out(r: Restored): Output { Output(r.text, r.count) }

  /** Text and count of the passes, without the report of unresolved tags. */
  function PassOut(t: Tables, fams: seq<string>, s: string): Output
    decreases |fams|
  {
    if fams == [] then Output(s, 0)
    else
      var o := RestoreOne(t, fams[0], s);
      var p := PassOut(t, fams[1..], o.text);
      Output(p.text, o.count + p.count)
  }

  lemma {:induction false} RunPassesOut(t: Tables, fams: seq<string>, r: Restored)
    ensures Out(RunPasses(t, fams, r))
         == Output(PassOut(t, fams, r.text).text, r.count + PassOut(t, fams, r.text).count)
    decreases |fams|
  {
    if fams != [] {
      var o := RestoreOne(t, fams[0], r.text);
      RunPassesOut(t, fams[1..], Restored(o.text, r.count + o.count, AddNew(r.unresolved, o.unresolved)));
    }
  }

  // ---------- families that stay out of each other's tags ----------

  /** `g` can begin at offset `p` of a tag of `f`: the two families agree where they
      overlap, and what `g` has left over looks like the core of the tag. */
  predicate CanBegin(f: string, p: nat, g: string)
    requires p < |f|
  {
    if |g| <= |f| - p then g <= f[p..]
    else f[p..] <= g && HexRun(g[|f| - p..], 8) == 8
  }

  /** A tag of each family can start at the same place: one family goes on with what the
      other takes for a core. */
  predicate CanShare(f: string, g: string) {
    if |g| <= |f| then g <= f && HexRun(f[|g|..], 8) == 8
    else f <= g && HexRun(g[|f|..], 8) == 8
  }

  /** `g` begins nowhere strictly inside a tag of `f`, and no tag of `g` starts where one of
      `f` does, except as that very tag. */
  predicate Apart(f: string, g: string) {
    (forall p: nat | 0 < p < |f| :: !CanBegin(f, p, g)) && (f != g ==> !CanShare(f, g))
  }

  predicate AllApart(fams: seq<string>) {
    forall f, g | f in fams && g in fams :: Apart(f, g)
  }

  /** A family starts with an upper-case letter, so it starts in no core. */
  lemma StartsInFamily(f: string, g: string, s: string, p: nat)
    requires IsFamily(g) && p < TagLen(f, s) && Compatible(g, s[p..])
    ensures p < |f|
  {
    var c := s[p];
    assert g[0] == s[p..][0] == c;
    assert p >= |f| ==> IsHex(c);
  }

  /** A string that looks like a core as far as it goes, and is no hex string, goes on
      for at least eight digits. */
  lemma LooksLikeCore(rest: string, tail: string)
    requires HexRun(tail, 8) == 8 && Compatible(rest, tail)
    requires rest != "" && !IsHex(rest[|rest| - 1])
    ensures HexRun(rest, 8) == 8
  {
    assert forall i | 0 <= i < 8 :: IsHex(tail[..8][i]) && tail[..8][i] == tail[i];
    assert forall i | 0 <= i < 8 && i < |rest| :: rest[i] == tail[i];
    assert |rest| > 8;
    HexRunIs(rest, 8, 8);
  }

  /** `CanBegin` is what a text shows when `g` starts inside a tag of `f`. */
  lemma BeginInside(f: string, g: string, s: string, p: nat)
    requires IsFamily(f) && IsFamily(g)
    requires HasTag(f, s) && p < TagLen(f, s) && Compatible(g, s[p..])
    ensures p < |f| && CanBegin(f, p, g)
  {
    StartsInFamily(f, g, s, p);
    assert s[p..] == f[p..] + s[|f|..];
    CompatibleSum(g, f[p..], s[|f|..]);
    if |g| > |f| - p {
      LooksLikeCore(g[|f| - p..], s[|f|..]);
    }
  }

  lemma CompatibleSum(g: string, a: string, b: string)
    requires Compatible(g, a + b)
    ensures |g| <= |a| ==> g <= a
    ensures |g| > |a| ==> a <= g && Compatible(g[|a|..], b)
  {
    assert a == (a + b)[..|a|] && b == (a + b)[|a|..];
    if |g| <= |a| {
      assert g <= a + b ==> g == (a + b)[..|g|] == a[..|g|];
    } else {
      assert a == g[..|a|];
    }
  }

  /** Two tags that start a text: what is left of the longer family is read as a core. */
  lemma SharedStart(f: string, g: string, s: string)
    requires IsFamily(f) && |g| <= |f| && f != g && HasTag(f, s) && HasTag(g, s)
    ensures g <= f && HexRun(f[|g|..], 8) == 8
  {
    assert f == s[..|f|] && g == s[..|g|] && |g| < |f|;
    var rest := s[|g|..];
    assert forall i | 0 <= i < 8 :: IsHex(rest[..8][i]) && rest[..8][i] == rest[i];
    assert forall i | 0 <= i < |f| - |g| :: f[|g|..][i] == rest[i];
    assert f[|g|..][|f| - |g| - 1] == '_';
    HexRunIs(f[|g|..], 8, 8);
  }

  /** No family that keeps apart from `f` has a tag inside a tag of `f`. */
  lemma NoTagInside(f: string, g: string, s: string, p: nat)
    requires IsFamily(f) && IsFamily(g) && Apart(f, g) && (p > 0 || f != g)
    requires HasTag(f, s) && p < TagLen(f, s)
    ensures !HasTag(g, s[p..])
  {
    if HasTag(g, s[p..]) {
      if p > 0 {
        BeginInside(f, g, s, p);
      } else {
        assert s[0..] == s;
        if |g| <= |f| {
          SharedStart(f, g, s);
        } else {
          SharedStart(g, f, s);
        }
      }
    }
  }
}
