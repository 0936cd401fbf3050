/** The last step of sanitizing: with the tags blanked out, no longer vault value may be left
    in the output. */
module LeakCheck {
  import opened Text
  import opened Simultaneous
  import opened TagStore
  import opened Sweep
  import opened Order

  const LEAK_MIN := 4
  const BLANK_MAX := 24

  /** Length of the tag that is blanked at the start of `s`, zero when there is none: a
      listed family and eight to twenty-four hex digits. */
  function BlankLen(fams: seq<string>, s: string): (n: nat)
    ensures n <= |s|
  {
    var i := FirstFam(fams, s);
    if i < |fams| then |fams[i]| + HexRun(s[|fams[i]|..], BLANK_MAX) else 0
  }

  /** Every such tag becomes one blank. */
  function Blanked(fams: seq<string>, s: string): string
    decreases |s|
  {
    if s == "" then ""
    else if BlankLen(fams, s) > 0 then " " + Blanked(fams, s[BlankLen(fams, s)..])
    else s[..1] + Blanked(fams, s[1..])
  }

  /** With the default family alone nothing is blanked. */
  function Searched(fams: seq<string>, s: string): string {
    if |fams| > 1 then Blanked(fams, s) else s
  }

  predicate Contains(s: string, v: string) { exists i: nat | i <= |s| :: StandsAt(s, v, i) }

  /** A value of four characters or more is left: the call is refused. */
  predicate Leaks(fams: seq<string>, values: seq<string>, s: string) {
    exists v | v in values :: |v| >= LEAK_MIN && Contains(Searched(fams, s), v)
  }

  /** The families whose tags are blanked: those of the table, those remembered, and the
      default one. */
  function CheckFams(st: Store): set<string> { Families(st.tags) + st.session + {PWD} }

  predicate Refuses(st: Store, out: string) { Leaks(Listing(CheckFams(st)), st.values, out) }
}
