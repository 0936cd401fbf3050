/** Vault lines: white space and line breaks as the library takes them, what the loader makes of
    a line, and how the file is written and read back. What imports do to the lines is the matter
    of the modules above this one. */
module Vault {
  import opened Text

  // ---------- lines ----------

  function StripLeft(s: string): (r: string)
    ensures r == "" || !IsSpace(r[0])
    ensures |r| <= |s| && r == s[|s| - |r|..]
    ensures s == "" || IsSpace(s[0]) || r == s
    decreases |s|
  {
    if s != "" && IsSpace(s[0]) then StripLeft(s[1..]) else s
  }

  function StripRight(s: string): (r: string)
    ensures r == "" || !IsSpace(r[|r| - 1])
    ensures r <= s
    ensures s == "" || IsSpace(s[|s| - 1]) || r == s
    decreases |s|
  {
    if s != "" && IsSpace(s[|s| - 1]) then StripRight(s[..|s| - 1]) else s
  }

  /** `str.strip`: white space removed at both ends. */
  function Strip(s: string): string { StripRight(StripLeft(s)) }

  /** Text without white space at its ends. */
  predicate Stripped(s: string) { s == "" || (!IsSpace(s[0]) && !IsSpace(s[|s| - 1])) }

  lemma StripIs(s: string)
    ensures Stripped(Strip(s)) && (Stripped(s) ==> Strip(s) == s)
  {}

  lemma {:induction false} LeftIsSpace(s: string, k: nat)
    requires k < |s| - |StripLeft(s)|
    ensures IsSpace(s[k])
    decreases |s|
  {
    hide IsSpace;
    if k > 0 {
      LeftIsSpace(s[1..], k - 1);
    }
  }

  lemma {:induction false} RightIsSpace(s: string, k: nat)
    requires |StripRight(s)| <= k < |s|
    ensures IsSpace(s[k])
    decreases |s|
  {
    hide IsSpace;
    if k < |s| - 1 {
      RightIsSpace(s[..|s| - 1], k);
    }
  }

  predicate Spaces(s: string) { forall i | 0 <= i < |s| :: IsSpace(s[i]) }

  /** Nothing but white space is taken off, at both ends. */
  lemma {:induction false} StripTakesSpace(s: string)
    ensures exists a, b :: Spaces(a) && Spaces(b) && s == a + Strip(s) + b
  {
    hide IsSpace, StripLeft, StripRight, Spaces;
    var l := StripLeft(s);
    var r := StripRight(l);
    LeftTaken(s);
    RightTaken(l);
    var a, b := s[..|s| - |l|], l[|r|..];
    assert Strip(s) == r;
    PartsBack(s, l, r);
    assert Spaces(a) && Spaces(b) && s == a + Strip(s) + b;
  }

  lemma PartsBack(s: string, l: string, r: string)
    requires |l| <= |s| && l == s[|s| - |l|..] && r <= l
    ensures s == s[..|s| - |l|] + r + l[|r|..]
  {
    assert l == r + l[|r|..];
  }

  lemma LeftTaken(s: string)
    ensures Spaces(s[..|s| - |StripLeft(s)|])
  {
    hide IsSpace, StripLeft;
    forall k | 0 <= k < |s| - |StripLeft(s)| ensures IsSpace(s[k]) {
      LeftIsSpace(s, k);
    }
  }

  lemma RightTaken(s: string)
    ensures Spaces(s[|StripRight(s)|..])
  {
    hide IsSpace, StripRight;
    forall k | |StripRight(s)| <= k < |s| ensures IsSpace(s[k]) {
      RightIsSpace(s, k);
    }
  }

  /** White space around a stripped text is taken off. */
  lemma {:induction false} StripAround(a: string, p: string, b: string)
    requires Spaces(a) && Spaces(b) && Stripped(p) && p != ""
    ensures Strip(a + p + b) == p
  {
    hide IsSpace;
    LeftAround(a, p, b);
    RightAround(p, b);
  }

  lemma {:induction false} LeftAround(a: string, p: string, b: string)
    requires Spaces(a) && p != "" && !IsSpace(p[0])
    ensures StripLeft(a + p + b) == p + b
    decreases |a|
  {
    hide IsSpace;
    var s := a + p + b;
    if a == "" {
      assert s == p + b;
    } else {
      assert s[0] == a[0] && s[1..] == a[1..] + p + b;
      LeftAround(a[1..], p, b);
    }
  }

  lemma {:induction false} RightAround(p: string, b: string)
    requires Spaces(b) && p != "" && !IsSpace(p[|p| - 1])
    ensures StripRight(p + b) == p
    decreases |b|
  {
    hide IsSpace;
    var s := p + b;
    if b == "" {
      assert s == p;
    } else {
      assert s[|s| - 1] == b[|b| - 1] && s[..|s| - 1] == p + b[..|b| - 1];
      RightAround(p, b[..|b| - 1]);
    }
  }

  lemma StaysAsItIs(s: string)
    requires s == "" || !IsSpace(s[0])
    ensures StripLeft(s) == s
  {}

  lemma BlankBefore(y: string)
    requires Stripped(y)
    ensures Strip(" " + y) == y && (y != "" ==> !Stripped(" " + y))
  {
    hide StripRight;
    var v := " " + y;
    assert IsSpace(' ');
    hide IsSpace;
    assert v[0] == ' ' && v[1..] == y;
    StripIs(y);
    StaysAsItIs(y);
  }

  function IndexOf(s: string, c: char): (i: nat)
    ensures i <= |s| && (i < |s| ==> s[i] == c) && forall k | 0 <= k < i :: s[k] != c
    decreases |s|
  {
    if s == "" || s[0] == c then 0
    else
      var j := IndexOf(s[1..], c);
      assert forall k | 1 <= k < j + 1 :: s[k] == s[1..][k - 1];
      j + 1
  }

  predicate HasEquals(s: string) { '=' in s }

  /** The text before the first equals sign, or all of it; stripped. */
  function Name(s: string): string { Strip(s[..IndexOf(s, '=')]) }

  /** The text behind the first equals sign. */
  function Behind(s: string): string { if IndexOf(s, '=') < |s| then s[IndexOf(s, '=') + 1..] else "" }

  predicate IsIdChar(c: char) {
    IsUpper(c) || 'a' <= c <= 'z' || IsDigit(c) || c == '_' || c == '.' || c == '-'
  }

  /** `client:<id>` or `provider:<id>`. */
  predicate IsEntryName(s: string) {
    (("client:" <= s && |s| > 7 && forall i | 7 <= i < |s| :: IsIdChar(s[i]))
     || ("provider:" <= s && |s| > 9 && forall i | 9 <= i < |s| :: IsIdChar(s[i])))
  }

  datatype Entry = Ignored | Pattern(regex: string) | Named(name: string, value: string) | Plain(secret: string)

  /** What the loader makes of a line. */
  function Classify(line: string): Entry {
    var s := Strip(line);
    if s == "" || s[0] == '#' then Ignored
    else if "re:" <= s then Pattern(s[3..])
    else if "ing:" <= s && HasEquals(s) then Plain(s[4..])
    else if HasEquals(s) && IsEntryName(Name(s)) then Named(Name(s), Behind(s))
    else Plain(s)
  }

  /** The parsed vault, in file order. */
  datatype Parsed = Parsed(patterns: seq<string>, named: seq<(string, string)>, secrets: seq<string>)

  function Adds(p: Parsed, e: Entry): Parsed {
    match e
    case Ignored => p
    case Pattern(r) => p.(patterns := p.patterns + [r])
    case Named(n, v) => p.(named := p.named + [(n, v)])
    case Plain(s) => p.(secrets := p.secrets + [s])
  }

  function Parse(lines: seq<string>): Parsed
    decreases |lines|
  {
    if lines == [] then Parsed([], [], [])
    else Adds(Parse(lines[..|lines| - 1]), Classify(lines[|lines| - 1]))
  }

  lemma ParseSnoc(lines: seq<string>, v: string)
    ensures Parse(lines + [v]) == Adds(Parse(lines), Classify(v))
  {
    hide Classify;
    assert (lines + [v])[..|lines|] == lines;
  }

  // ---------- the file ----------

  /** Characters at which `str.splitlines` ends a line. */
  predicate IsBreak(c: char) {
    var n := c as int;
    10 <= n <= 13 || 28 <= n <= 30 || n == 0x85 || n == 0x2028 || n == 0x2029
  }

  predicate Unbroken(s: string) { forall i | 0 <= i < |s| :: !IsBreak(s[i]) }

  predicate AllUnbroken(lines: seq<string>) { forall l | l in lines :: Unbroken(l) }

  /** The vault file: every line closed by a newline, at least one of them. */
  function FileOf(lines: seq<string>): string
    decreases |lines|
  {
    if |lines| <= 1 then (if lines == [] then "" else lines[0]) + "\n"
    else lines[0] + "\n" + FileOf(lines[1..])
  }

  function BreakAt(s: string): (i: nat)
    ensures i <= |s| && (i < |s| ==> IsBreak(s[i])) && Unbroken(s[..i])
    decreases |s|
  {
    if s == "" || IsBreak(s[0]) then 0
    else
      var j := BreakAt(s[1..]);
      assert s[..j + 1] == [s[0]] + s[1..][..j];
      j + 1
  }

  /** `str.splitlines`. */
  function SplitLines(s: string): seq<string>
    decreases |s|
  {
    if s == "" then []
    else
      var i := BreakAt(s);
      if i == |s| then [s]
      else
        var k := if s[i] == '\r' && i + 1 < |s| && s[i + 1] == '\n' then 2 else 1;
        [s[..i]] + SplitLines(s[i + k..])
  }

  /** What is read back after a write. */
  function Reread(lines: seq<string>): seq<string> { SplitLines(FileOf(lines)) }

  lemma {:induction false} SplitLinesUnbroken(s: string)
    ensures AllUnbroken(SplitLines(s))
    decreases |s|
  {
    hide Unbroken, BreakAt;
    if s != "" {
      var i := BreakAt(s);
      if i < |s| {
        var k := if s[i] == '\r' && i + 1 < |s| && s[i + 1] == '\n' then 2 else 1;
        SplitLinesUnbroken(s[i + k..]);
      } else {
        assert s[..i] == s;
      }
    }
  }

  lemma BreakAtIs(a: string, b: string)
    requires Unbroken(a)
    ensures BreakAt(a + "\n" + b) == |a|
  {
    var s := a + "\n" + b;
    var i := BreakAt(s);
    assert s[|a|] == '\n' && IsBreak('\n');
    assert forall k | 0 <= k < |a| :: s[k] == a[k];
    assert forall k | 0 <= k < i :: s[..i][k] == s[k];
  }

  lemma SplitFirst(a: string, b: string)
    requires Unbroken(a)
    ensures SplitLines(a + "\n" + b) == [a] + SplitLines(b)
  {
    BreakAtIs(a, b);
    var s := a + "\n" + b;
    assert s[..|a|] == a && s[|a| + 1..] == b && s[|a|] == '\n';
  }

  /** Unbroken lines come back as they were written; an empty vault comes back as one
      blank line. */
  lemma {:induction false} RereadIs(lines: seq<string>)
    requires AllUnbroken(lines)
    ensures Reread(lines) == if lines == [] then [""] else lines
    decreases |lines|
  {
    if lines == [] {
      SplitFirst("", "");
      assert "" + "\n" + "" == FileOf(lines);
    } else if |lines| == 1 {
      SplitFirst(lines[0], "");
      assert lines[0] + "\n" + "" == FileOf(lines);
      assert lines == [lines[0]];
    } else {
      RereadIs(lines[1..]);
      SplitFirst(lines[0], FileOf(lines[1..]));
      assert lines == [lines[0]] + lines[1..];
    }
  }
}
