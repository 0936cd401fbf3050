/** Character classes of the tag grammar and the elementary text scanners that stand for the
    regular expressions of core.py: the hex run behind a family, the tag of a given family at
    the head of a text, and the families that a caller may ask for. Everything above is built
    from these and from slices of strings. */
module Text {

  datatype Option<+T> = None | Some(value: T)

  predicate IsUpper(c: char) { 'A' <= c <= 'Z' }

  predicate IsDigit(c: char) { '0' <= c <= '9' }

  /** Lowercase hexadecimal: the alphabet of a tag core. */
  predicate IsHex(c: char) { IsDigit(c) || 'a' <= c <= 'f' }

  /** The alphabet of a tag family. Digits belong to both alphabets. */
  predicate IsFamilyChar(c: char) { IsUpper(c) || IsDigit(c) || c == '_' }

  /** White space as `str.strip` and the class `\s` understand it. */
  predicate IsSpace(c: char) {
    var n := c as int;
    9 <= n <= 13 || 28 <= n <= 32 || n == 0x85 || n == 0xa0 || n == 0x1680
    || 0x2000 <= n <= 0x200a || n == 0x2028 || n == 0x2029 || n == 0x202f
    || n == 0x205f || n == 0x3000
  }

  /** What the tolerant patterns accept around a tag. */
  predicate IsGuard(c: char) { c == '"' || c == '\'' || IsSpace(c) }

  predicate AllHex(s: string) { forall i | 0 <= i < |s| :: IsHex(s[i]) }

  /** One of the two strings is a prefix of the other. */
  predicate Compatible(a: string, b: string) { a <= b || b <= a }

  lemma PrefixCompatible(a: string, b: string, c: string)
    requires a <= b + c
    ensures Compatible(a, b)
  {
    if |a| <= |b| {
      assert a == (b + c)[..|a|] == b[..|a|];
    } else {
      assert b == (b + c)[..|b|] == a[..|b|];
    }
  }

  lemma DropSum(s: string, u: string, k: nat)
    requires k <= |s|
    ensures (s + u)[k..] == s[k..] + u && (s + u)[..k] == s[..k]
  {}

  lemma SuffixParts(s: string, i: nat, k: nat)
    requires i + k <= |s|
    ensures s[i..][..k] == s[i..i + k] && s[i..][k..] == s[i + k..]
  {}

  lemma SumAssoc(a: string, b: string, c: string)
    ensures a + b + c == a + (b + c)
  {}

  /** Length of the hexadecimal run that starts `s`, counted up to `max`. */
  function HexRun(s: string, max: nat): (n: nat)
    ensures n <= max && n <= |s| && AllHex(s[..n])
    ensures n < max && n < |s| ==> !IsHex(s[n])
  {
    if max == 0 || s == "" || !IsHex(s[0]) then 0
    else
      var n := HexRun(s[1..], max - 1);
      assert s[..n + 1] == [s[0]] + s[1..][..n];
      assert n < max - 1 && n < |s[1..]| ==> s[n + 1] == s[1..][n];
      n + 1
  }

  /** A run is determined by its defining property. */
  lemma HexRunIs(s: string, max: nat, n: nat)
    requires n <= max && n <= |s| && AllHex(s[..n])
    requires n < max && n < |s| ==> !IsHex(s[n])
    ensures HexRun(s, max) == n
  {}

  /** A family: upper-case first, then the family alphabet, single underscores
      only, and one underscore at the end. */
  predicate IsFamily(f: string) {
    |f| >= 2 && IsUpper(f[0]) && f[|f| - 1] == '_'
    && (forall i | 0 <= i < |f| :: IsFamilyChar(f[i]))
    && (forall i | 0 <= i < |f| - 1 :: !(f[i] == '_' && f[i + 1] == '_'))
  }

  /** A family that a caller may ask for: at most seventeen characters. */
  predicate IsPrefix(f: string) { IsFamily(f) && |f| <= 17 }

  const PWD := "PWD_"

  /** `s` starts with a tag of family `fam`: the family and eight hex digits. */
  predicate HasTag(fam: string, s: string) {
    fam <= s && HexRun(s[|fam|..], 8) == 8
  }

  /** Length of the tag of family `fam` that starts `s`, zero when there is none;
      the core is eight to twelve digits, as many as possible. */
  function TagLen(fam: string, s: string): (n: nat)
    ensures n > 0 <==> HasTag(fam, s)
    ensures n > 0 ==> |fam| + 8 <= n <= |fam| + 12 && n <= |s| && fam <= s
    ensures n > 0 ==> forall i | |fam| <= i < n :: IsHex(s[i])
    ensures 0 < n < |fam| + 12 && n < |s| ==> !IsHex(s[n])
  {
    if fam <= s then
      var run := HexRun(s[|fam|..], 12);
      HexRunBounds(s[|fam|..]);
      assert forall i | |fam| <= i < |fam| + run :: s[i] == s[|fam|..][..run][i - |fam|];
      assert run < |s[|fam|..]| ==> s[|fam|..][run] == s[|fam| + run];
      if run >= 8 then |fam| + run else 0
    else 0
  }

  lemma HexRunBounds(s: string)
    ensures HexRun(s, 8) == 8 <==> HexRun(s, 12) >= 8
  {
    var n := HexRun(s, 12);
    if n >= 8 {
      assert s[..8] == s[..n][..8];
      HexRunIs(s, 8, 8);
    } else {
      HexRunIs(s, 8, n);
    }
  }

  /** A tag is decided by its own characters and the one behind it. */
  lemma TagLenIs(fam: string, s: string, n: nat)
    requires |fam| + 8 <= n <= |fam| + 12 && n <= |s| && fam <= s
    requires forall i | |fam| <= i < n :: IsHex(s[i])
    requires n < |fam| + 12 && n < |s| ==> !IsHex(s[n])
    ensures TagLen(fam, s) == n
  {
    var r := s[|fam|..];
    assert forall i | 0 <= i < n - |fam| :: r[i] == s[|fam| + i];
    HexRunIs(r, 12, n - |fam|);
  }

  /** Eight hex digits behind the family make a tag whatever follows. */
  lemma HasTagIs(fam: string, s: string)
    requires fam <= s && |fam| + 8 <= |s|
    requires forall i | |fam| <= i < |fam| + 8 :: IsHex(s[i])
    ensures HasTag(fam, s)
  {
    assert forall i | 0 <= i < 8 :: s[|fam|..][i] == s[|fam| + i];
    HexRunIs(s[|fam|..], 8, 8);
  }

  lemma Shift<T>(xs: seq<T>, i: nat)
    requires i < |xs|
    ensures xs[i..] != [] && xs[i..][0] == xs[i] && xs[i..][1..] == xs[i + 1..]
  {}
}
