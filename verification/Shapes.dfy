/** Tag-shaped tokens of any family: the raw spans that sanitizing protects, and the
    tokens that restoring looks up. */
module Shapes {
  import opened Text

  /** Length of the longest family, whole or cut short, that starts `s`: an upper-case
      letter, then the family alphabet without two underscores in a row. */
  function FamilyRun(s: string): (n: nat)
    ensures n <= |s|
  {
    if s == "" || !IsUpper(s[0]) then 0 else 1 + RunTail(s, 1)
  }

  function RunTail(s: string, i: nat): (n: nat)
    requires 0 < i <= |s|
    ensures i + n <= |s|
    ensures forall k | i <= k < i + n :: IsFamilyChar(s[k]) && !(s[k] == '_' && s[k - 1] == '_')
    ensures i + n < |s| ==> !IsFamilyChar(s[i + n]) || (s[i + n] == '_' && s[i + n - 1] == '_')
    decreases |s| - i
  {
    if i == |s| || !IsFamilyChar(s[i]) || (s[i] == '_' && s[i - 1] == '_') then 0
    else 1 + RunTail(s, i + 1)
  }

  /** The characters before `n` form a family, whole or cut short. */
  predicate FamilyUpTo(s: string, n: nat) {
    n <= |s| && (n > 0 ==> IsUpper(s[0]))
    && (forall k | 0 <= k < n :: IsFamilyChar(s[k]))
    && (forall k | 0 < k < n :: !(s[k] == '_' && s[k - 1] == '_'))
  }

  lemma FamilyRunIs(s: string)
    ensures FamilyUpTo(s, FamilyRun(s))
    ensures forall n: nat | FamilyUpTo(s, n) :: n <= FamilyRun(s)
  {
    var r := FamilyRun(s);
    forall n: nat | FamilyUpTo(s, n) ensures n <= r {
      RunIsLongest(s, n);
    }
  }

  lemma RunIsLongest(s: string, n: nat)
    requires FamilyUpTo(s, n)
    ensures n <= FamilyRun(s)
  {
    var r := FamilyRun(s);
    if r < |s| {
      var stop := !IsFamilyChar(s[r]) || (r > 0 && s[r] == '_' && s[r - 1] == '_') || r == 0;
      assert stop;
    }
  }

  // ---------- raw spans ----------

  /** Hex digits behind a family cut at `e`: eight to twelve and no more, else zero. */
  function RawCore(s: string, e: nat): (n: nat)
    requires e <= |s|
    ensures n == 0 || (8 <= n <= 12 && e + n <= |s|)
  {
    var n := HexRun(s[e..], 13);
    if 8 <= n <= 12 then n else 0
  }

  /** The family is given back character by character until a core fits. */
  function RawFrom(s: string, e: nat): (n: nat)
    requires e <= |s|
    ensures n <= |s|
    decreases e
  {
    if e == 0 then 0
    else if RawCore(s, e) > 0 then e + RawCore(s, e)
    else RawFrom(s, e - 1)
  }

  /** Length of the tag-shaped span that starts `s`, zero when there is none. */
  function RawLen(s: string): (n: nat)
    ensures n <= |s|
  {
    RawFrom(s, FamilyRun(s))
  }

  // ---------- tokens of the restore ----------

  /** Where a token's core starts and the token ends. */
  datatype Token = Token(core: nat, end: nat)

  function TokenFrom(s: string, e: nat): (r: Option<Token>)
    requires e <= |s|
    ensures r.Some? ==> 0 < r.value.core <= e && r.value.core + 8 <= r.value.end <= |s|
    decreases e
  {
    if e == 0 then None
    else if s[e - 1] == '_' && HexRun(s[e..], 12) >= 8 then Some(Token(e, e + HexRun(s[e..], 12)))
    else TokenFrom(s, e - 1)
  }

  /** The token that starts `s`: the longest family that ends in an underscore and has a
      core behind it. */
  function TokenAt(s: string): (r: Option<Token>)
    ensures r.Some? ==> 0 < r.value.core && r.value.core + 8 <= r.value.end <= |s|
  {
    TokenFrom(s, FamilyRun(s))
  }

  // ---------- a family and a core, seen from the left ----------

  /** A tag as the store mints them for well-formed families, no wider than what
      restoring reads. */
  predicate IsTag(fam: string, core: string) {
    IsFamily(fam) && AllHex(core) && 8 <= |core| <= 12
  }

  /** The start of a family, whole or not, and a core behind it. */
  predicate IsShape(fam: string, core: string) {
    fam != "" && FamilyUpTo(fam, |fam|) && AllHex(core) && 8 <= |core| <= 12
  }

  lemma TagIsShape(fam: string, core: string)
    requires IsTag(fam, core)
    ensures IsShape(fam, core)
  {
    assert forall k | 0 < k < |fam| :: fam[k - 1 + 1] == fam[k];
  }

  predicate HasLetter(core: string) { exists i | 0 <= i < |core| :: !IsDigit(core[i]) }

  /** What may follow a tag so that it is read as it was written: no hex digit, which
      could lengthen the core, and, when the core is all digits and so could be read as
      part of a longer family, no family character either. */
  predicate Follows(core: string, y: string) {
    y == "" || (!IsHex(y[0]) && (HasLetter(core) || !IsFamilyChar(y[0])))
  }

  /** Within such a shape and what may follow it, the family run stops inside the core. */
  lemma ShapeFamilyRun(fam: string, core: string, y: string)
    requires IsShape(fam, core) && Follows(core, y)
    ensures |fam| <= FamilyRun(fam + core + y) <= |fam| + |core|
  {
    var s := fam + core + y;
    FamilyRunIs(s);
    assert forall k | 0 <= k < |fam| :: s[k] == fam[k];
    assert FamilyUpTo(s, |fam|);
    var r := FamilyRun(s);
    if r > |fam| + |core| {
      assert s[|fam| + |core|] == y[0];
      assert forall k | 0 <= k < |core| :: s[|fam| + k] == core[k];
      assert forall k | 0 <= k < |core| :: IsFamilyChar(s[|fam| + k]) && IsHex(core[k]);
      assert false;
    }
  }

  /** The characters behind position `e` of a tag's core, up to its end. */
  lemma CoreSuffix(fam: string, core: string, y: string, e: nat)
    requires |fam| <= e <= |fam| + |core|
    ensures (fam + core + y)[e..] == core[e - |fam|..] + y
  {}

  lemma CoreRun(core: string, y: string, max: nat)
    requires AllHex(core) && (y == "" || !IsHex(y[0]))
    ensures HexRun(core + y, max) == if |core| <= max then |core| else max
  {
    var n := if |core| <= max then |core| else max;
    assert forall i | 0 <= i < |core| :: (core + y)[i] == core[i];
    HexRunIs(core + y, max, n);
  }

  lemma {:induction false} TagTokenFrom(fam: string, core: string, y: string, e: nat)
    requires IsTag(fam, core) && Follows(core, y) && |fam| <= e <= |fam| + |core|
    ensures TokenFrom(fam + core + y, e) == Some(Token(|fam|, |fam| + |core|))
    decreases e
  {
    var s := fam + core + y;
    if e == |fam| {
      CoreSuffix(fam, core, y, e);
      assert core[0..] == core;
      CoreRun(core, y, 12);
      assert s[e - 1] == fam[|fam| - 1];
    } else {
      assert s[e - 1] == core[e - 1 - |fam|];
      TagTokenFrom(fam, core, y, e - 1);
    }
  }

  /** A tag is read back as its family and its core. */
  lemma TagIsToken(fam: string, core: string, y: string)
    requires IsTag(fam, core) && Follows(core, y)
    ensures TokenAt(fam + core + y) == Some(Token(|fam|, |fam| + |core|))
  {
    TagIsShape(fam, core);
    ShapeFamilyRun(fam, core, y);
    TagTokenFrom(fam, core, y, FamilyRun(fam + core + y));
  }

  lemma ShapeRawCore(fam: string, core: string, y: string, e: nat)
    requires IsShape(fam, core) && Follows(core, y) && |fam| <= e <= |fam| + |core|
    ensures RawCore(fam + core + y, e) == (if |fam| + |core| - e >= 8 then |fam| + |core| - e else 0)
  {
    CoreSuffix(fam, core, y, e);
    CoreRun(core[e - |fam|..], y, 13);
  }

  lemma {:induction false} ShapeRawFrom(fam: string, core: string, y: string, e: nat)
    requires IsShape(fam, core) && Follows(core, y) && |fam| <= e <= |fam| + |core|
    ensures RawFrom(fam + core + y, e) == |fam| + |core|
    decreases e
  {
    hide HexRun;
    ShapeRawCore(fam, core, y, e);
    if |fam| + |core| - e < 8 {
      ShapeRawFrom(fam, core, y, e - 1);
    }
  }

  /** A family, whole or cut short, with a core glued to it is one raw span. */
  lemma ShapeIsRaw(fam: string, core: string, y: string)
    requires IsShape(fam, core) && Follows(core, y)
    ensures RawLen(fam + core + y) == |fam| + |core|
  {
    ShapeFamilyRun(fam, core, y);
    ShapeRawFrom(fam, core, y, FamilyRun(fam + core + y));
  }

  lemma HexRunAt(s: string, e: nat, max: nat)
    requires e <= |s| && max > 0
    ensures e < |s| && !IsHex(s[e]) ==> HexRun(s[e..], max) == 0
  {}

  /** A run of more than twelve digits behind the default family is no span when it starts with a letter; the digits of
      one that starts with digits could belong to a longer family. */
  lemma LongRunIsNoSpan(core: string, y: string)
    requires AllHex(core) && |core| > 12 && !IsDigit(core[0])
    ensures RawLen(PWD + core + y) == 0
  {
    var s := PWD + core + y;
    FamilyRunIs(s);
    assert s[4] == core[0] && !IsFamilyChar(core[0]);
    assert FamilyUpTo(s, 4) by { assert s[..4] == PWD && forall k | 0 <= k < 4 :: s[k] == PWD[k]; }
    assert FamilyRun(s) == 4;
    assert s[4..] == core + y && forall i | 0 <= i < 13 :: (core + y)[i] == core[i];
    HexRunIs(core + y, 13, 13);
    assert s[3] == '_' && s[2] == 'D' && s[1] == 'W';
    HexRunAt(s, 3, 13);
    HexRunAt(s, 2, 13);
    HexRunAt(s, 1, 13);
    hide HexRun;
    assert RawFrom(s, 1) == RawFrom(s, 0) == 0;
    assert RawFrom(s, 3) == RawFrom(s, 2) == RawFrom(s, 1);
    assert RawFrom(s, 4) == RawFrom(s, 3);
  }

  /** A tag is one raw span. */
  lemma TagIsRaw(fam: string, core: string, y: string)
    requires IsTag(fam, core) && Follows(core, y)
    ensures RawLen(fam + core + y) == |fam| + |core|
  {
    TagIsShape(fam, core);
    ShapeIsRaw(fam, core, y);
  }

  // ---------- two tags next to each other ----------

  lemma {:induction false} LongestTokenWins(s: string, e: nat, k: nat)
    requires 0 < k <= e <= |s| && s[k - 1] == '_' && HexRun(s[k..], 12) >= 8
    ensures TokenFrom(s, e).Some? && TokenFrom(s, e).value.core >= k
    decreases e
  {
    hide HexRun;
    if k < e {
      LongestTokenWins(s, e - 1, k);
    }
  }

  /** The family of the second tag is reached from the first when only digits lie between. */
  lemma DigitsJoin(f1: string, c1: string, f2: string, y: string)
    requires IsTag(f1, c1) && IsFamily(f2) && !HasLetter(c1)
    ensures FamilyUpTo(f1 + c1 + (f2 + y), |f1| + |c1| + |f2|)
  {
    var s := f1 + c1 + (f2 + y);
    var n, m := |f1|, |f1| + |c1|;
    assert forall k | 0 <= k < n :: s[k] == f1[k];
    assert forall k | n <= k < m :: s[k] == c1[k - n] && IsDigit(c1[k - n]);
    assert forall k | m <= k < m + |f2| :: s[k] == f2[k - m];
    forall k | 0 < k < m + |f2| ensures !(s[k] == '_' && s[k - 1] == '_') {
      if k < n {
        assert s[k] == f1[k] && s[k - 1] == f1[k - 1];
      } else if k > m {
        assert s[k] == f2[k - m] && s[k - 1] == f2[k - 1 - m];
      }
    }
  }

  /** Of two tags next to each other the first is read as it was written exactly when its
      core has a letter: a core of digits only is taken for a part of a longer family. */
  lemma AdjacentTagsIff(f1: string, c1: string, f2: string, c2: string, y: string)
    requires IsTag(f1, c1) && IsTag(f2, c2)
    ensures TokenAt(f1 + c1 + (f2 + (c2 + y))) == Some(Token(|f1|, |f1| + |c1|)) <==> HasLetter(c1)
  {
    hide FamilyRun, TokenFrom, RawFrom;
    var z := f2 + (c2 + y);
    var s := f1 + c1 + z;
    assert z[0] == f2[0];
    if HasLetter(c1) {
      TagIsToken(f1, c1, z);
    } else {
      var k := |f1| + |c1| + |f2|;
      DigitsJoin(f1, c1, f2, c2 + y);
      FamilyRunIs(s);
      assert s[k - 1] == f2[|f2| - 1];
      assert s[k..] == c2 + y;
      RunOfCore(c2, y);
      LongestTokenWins(s, FamilyRun(s), k);
    }
  }

  lemma RunOfCore(core: string, y: string)
    requires AllHex(core) && |core| >= 8
    ensures HexRun(core + y, 12) >= 8
  {
    assert forall i | 0 <= i < 8 :: (core + y)[i] == core[i];
    HexRunIs(core + y, 8, 8);
    HexRunBounds(core + y);
  }

  // ---------- literal text ----------

  /** A literal that keeps what stands in it apart from what follows: its last character
      belongs to no family, and what follows starts with no hex digit. */
  predicate Sealed(w: string, y: string) {
    y == "" || (!IsHex(y[0]) && (w == "" || !IsFamilyChar(w[|w| - 1])))
  }

  lemma SealedFamilyRun(w: string, y: string)
    requires w != "" && Sealed(w, y)
    ensures FamilyRun(w + y) == FamilyRun(w)
    ensures y != "" ==> FamilyRun(w) < |w|
  {
    var s := w + y;
    FamilyRunIs(s);
    FamilyRunIs(w);
    assert forall k | 0 <= k < |w| :: s[k] == w[k];
    assert forall n: nat | n <= |w| :: FamilyUpTo(s, n) <==> FamilyUpTo(w, n);
    assert y != "" ==> !IsFamilyChar(s[|w| - 1]);
    assert y == "" ==> s == w;
  }

  lemma SealedRun(w: string, y: string, e: nat, max: nat)
    requires (y == "" || !IsHex(y[0])) && e <= |w|
    ensures HexRun((w + y)[e..], max) == HexRun(w[e..], max)
  {
    DropSum(w, y, e);
    var n := HexRun(w[e..], max);
    assert w[e..][..n] == (w[e..] + y)[..n];
    HexRunIs(w[e..] + y, max, n);
  }

  lemma SealedCore(w: string, y: string, e: nat)
    requires (y == "" || !IsHex(y[0])) && 0 < e <= |w|
    ensures (w + y)[e - 1] == w[e - 1] && RawCore(w + y, e) == RawCore(w, e)
    ensures HexRun((w + y)[e..], 12) == HexRun(w[e..], 12)
  {
    SealedRun(w, y, e, 12);
    SealedRun(w, y, e, 13);
  }

  lemma {:induction false} SealedToken(w: string, y: string, e: nat)
    requires (y == "" || !IsHex(y[0])) && e <= |w|
    ensures TokenFrom(w + y, e) == TokenFrom(w, e)
    decreases e
  {
    hide HexRun, IsHex;
    if e > 0 {
      SealedCore(w, y, e);
      SealedToken(w, y, e - 1);
    }
  }

  lemma {:induction false} SealedRaw(w: string, y: string, e: nat)
    requires (y == "" || !IsHex(y[0])) && e <= |w|
    ensures RawFrom(w + y, e) == RawFrom(w, e)
    decreases e
  {
    hide HexRun, IsHex;
    if e > 0 {
      SealedCore(w, y, e);
      SealedRaw(w, y, e - 1);
    }
  }

  /** What stands at the start of a sealed literal does not depend on what follows. */
  lemma {:induction false} SealedShapes(w: string, y: string)
    requires w != "" && Sealed(w, y)
    ensures TokenAt(w + y) == TokenAt(w) && RawLen(w + y) == RawLen(w)
  {
    SealedFamilyRun(w, y);
    SealedToken(w, y, FamilyRun(w));
    SealedRaw(w, y, FamilyRun(w));
  }

  // ---------- what a shape ends in front of ----------

  /** Nothing, or a character that belongs neither to a family nor to a core. */
  predicate Neutral(y: string) { y == "" || (!IsFamilyChar(y[0]) && !IsHex(y[0])) }

  lemma NeutralFamilyRun(w: string, y: string)
    requires w != "" && Neutral(y)
    ensures FamilyRun(w + y) == FamilyRun(w)
  {
    var s := w + y;
    FamilyRunIs(s);
    FamilyRunIs(w);
    assert forall k | 0 <= k < |w| :: s[k] == w[k];
    assert y != "" ==> s[|w|] == y[0];
    assert forall n: nat | n <= |w| :: FamilyUpTo(s, n) <==> FamilyUpTo(w, n);
  }

  /** In front of such a character a text starts with the span it starts with alone. */
  lemma {:induction false} NeutralRaw(w: string, y: string)
    requires w != "" && Neutral(y)
    ensures RawLen(w + y) == RawLen(w)
  {
    NeutralFamilyRun(w, y);
    SealedRaw(w, y, FamilyRun(w));
  }
}
