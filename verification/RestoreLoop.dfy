/** What the two restore loops have done and have still to do. The patterns take quotes and
    white space around a tag along, and the loops jump over them; each such jump, and each
    tag looked up, is a stretch of steps of the scan. The lemmas here are those stretches;
    they say nothing about the program beyond its loops. */
module RestoreLoop {
  import opened Text
  import opened Restore
  import opened Shapes
  import opened RoundTrip

  // ---------- one family ----------

  /** What the restore has and has still to do: `r` and the text from `pos` to `at` are
      done, the text from `at` on is left. */
  function RestOne(t: Tables, fam: string, text: string, r: Restored, pos: nat, at: nat): Restored
    requires pos <= at <= |text|
  {
    Then(r.(text := r.text + text[pos..at]), RestoreOne(t, fam, text[at..]))
  }

  lemma RestStarts(t: Tables, fam: string, text: string)
    ensures RestOne(t, fam, text, Restored("", 0, []), 0, 0) == RestoreOne(t, fam, text)
  {
    hide RestoreOne;
    assert text[0..] == text && "" + text[0..0] == "";
    var r := RestoreOne(t, fam, text);
    assert "" + r.text == r.text && [] + r.unresolved == r.unresolved;
  }

  lemma RestEnds(t: Tables, fam: string, text: string, r: Restored, pos: nat)
    requires pos <= |text|
    ensures RestOne(t, fam, text, r, pos, |text|) == r.(text := r.text + text[pos..])
  {
    assert text[pos..|text|] == text[pos..];
  }

  /** Quotes and white space at the start of a text. */
  function GuardRun(s: string): (n: nat)
    ensures n <= |s|
    ensures forall i | 0 <= i < n :: IsGuard(s[i])
    decreases |s|
  {
    if s == "" || !IsGuard(s[0]) then 0
    else
      var n := GuardRun(s[1..]);
      assert forall i | 1 <= i < n + 1 :: s[i] == s[1..][i - 1];
      n + 1
  }

  /** No tag starts at a quote or a space. */
  lemma NoTagAtGuard(fam: string, s: string)
    requires IsFamily(fam) && s != "" && IsGuard(s[0])
    ensures TagLen(fam, s) == 0
  {}

  lemma NoMatchHere(fam: string, text: string, at: nat, m: nat)
    requires IsFamily(fam) && at < |text| && m == at + GuardRun(text[at..]) && TagLen(fam, text[m..]) == 0
    ensures TagLen(fam, text[at..]) == 0
  {
    if m > at {
      NoTagAtGuard(fam, text[at..]);
    }
  }

  lemma GuardsInText(text: string, at: nat)
    requires at <= |text|
    ensures forall i | at <= i < at + GuardRun(text[at..]) :: IsGuard(text[i])
  {
    var n := GuardRun(text[at..]);
    forall i | at <= i < at + n ensures IsGuard(text[i]) {
      assert text[i] == text[at..][i - at];
    }
  }

  /** A character where no tag starts is passed over. */
  lemma RestCopies(t: Tables, fam: string, text: string, r: Restored, pos: nat, at: nat)
    requires pos <= at < |text| && TagLen(fam, text[at..]) == 0
    ensures RestOne(t, fam, text, r, pos, at) == RestOne(t, fam, text, r, pos, at + 1)
  {
    hide TagLen;
    SuffixParts(text, at, 1);
    var q := RestoreOne(t, fam, text[at + 1..]);
    assert RestoreOne(t, fam, text[at..]) == Then(Restored(text[at..at + 1], 0, []), q);
    CopyMore(text, r, pos, at, at + 1, q);
  }

  lemma CopyMore(text: string, r: Restored, pos: nat, at: nat, m: nat, q: Restored)
    requires pos <= at <= m <= |text|
    ensures Then(r.(text := r.text + text[pos..at]), Then(Restored(text[at..m], 0, []), q))
         == Then(r.(text := r.text + text[pos..m]), q)
  {
    assert text[pos..m] == text[pos..at] + text[at..m];
    assert r.text + text[pos..at] + (text[at..m] + q.text) == r.text + text[pos..m] + q.text;
    assert r.unresolved + ([] + q.unresolved) == r.unresolved + q.unresolved;
  }

  /** A stretch of quotes and spaces is passed over. */
  lemma {:induction false} RestSkips(t: Tables, fam: string, text: string, r: Restored, pos: nat, at: nat, m: nat)
    requires IsFamily(fam) && pos <= at <= m <= |text| && forall i | at <= i < m :: IsGuard(text[i])
    ensures RestOne(t, fam, text, r, pos, at) == RestOne(t, fam, text, r, pos, m)
    decreases m - at
  {
    hide TagLen, RestOne;
    if at < m {
      NoTagAtGuard(fam, text[at..]);
      RestCopies(t, fam, text, r, pos, at);
      RestSkips(t, fam, text, r, pos, at + 1, m);
    }
  }

  /** A tag is looked up and the scan goes on behind it. */
  lemma RestRestores(t: Tables, fam: string, text: string, r: Restored, pos: nat, m: nat, n: nat)
    requires pos <= m <= |text| && n == TagLen(fam, text[m..]) && n > 0
    ensures m + |fam| <= m + n <= |text|
    ensures var head := RestoreTag(t, fam, text[m + |fam|..m + n]);
            RestOne(t, fam, text, r, pos, m)
            == RestOne(t, fam, text, Then(r.(text := r.text + text[pos..m]), head), m + n, m + n)
  {
    TagUnfolds(t, fam, text, m, n);
    var head := RestoreTag(t, fam, text[m + |fam|..m + n]);
    hide TagLen, RestoreOne, RestoreTag;
    var q := RestoreOne(t, fam, text[m + n..]);
    var done := r.(text := r.text + text[pos..m]);
    ThenAssoc(done, head, q);
    assert Then(done, head).text + text[m + n..m + n] == Then(done, head).text;
  }

  lemma {:induction false} TagUnfolds(t: Tables, fam: string, text: string, m: nat, n: nat)
    requires m <= |text| && n == TagLen(fam, text[m..]) && n > 0
    ensures m + |fam| <= m + n <= |text|
    ensures RestoreOne(t, fam, text[m..])
         == Then(RestoreTag(t, fam, text[m + |fam|..m + n]), RestoreOne(t, fam, text[m + n..]))
  {
    var s := text[m..];
    assert s[..|fam|] == fam;
    hide TagLen;
    SuffixParts(text, m, n);
    assert s[|fam|..n] == text[m + |fam|..m + n];
  }

  // ---------- all families ----------

  /** The same for the scan of all families. */
  function RestAll(t: Tables, seen: set<string>, text: string, r: Restored, pos: nat, at: nat): Restored
    requires pos <= at <= |text|
  {
    Then(r.(text := r.text + text[pos..at]), RestoreAllReport(t, seen, text[at..]))
  }

  lemma AllStarts(t: Tables, seen: set<string>, text: string)
    ensures RestAll(t, seen, text, Restored("", 0, []), 0, 0) == RestoreAllReport(t, seen, text)
  {
    hide RestoreAllReport;
    assert text[0..] == text && "" + text[0..0] == "";
    var r := RestoreAllReport(t, seen, text);
    assert "" + r.text == r.text && [] + r.unresolved == r.unresolved;
  }

  lemma AllEnds(t: Tables, seen: set<string>, text: string, r: Restored, pos: nat)
    requires pos <= |text|
    ensures RestAll(t, seen, text, r, pos, |text|) == r.(text := r.text + text[pos..])
  {
    assert text[pos..|text|] == text[pos..];
  }

  lemma NoTokenAtGuard(s: string)
    requires s != "" && IsGuard(s[0])
    ensures TokenAt(s).None?
  {}

  lemma NoTokenHere(text: string, at: nat, m: nat)
    requires at < |text| && m == at + GuardRun(text[at..]) && TokenAt(text[m..]).None?
    ensures TokenAt(text[at..]).None?
  {
    if m > at {
      NoTokenAtGuard(text[at..]);
    }
  }

  lemma AllCopies(t: Tables, seen: set<string>, text: string, r: Restored, pos: nat, at: nat)
    requires pos <= at < |text| && TokenAt(text[at..]).None?
    ensures RestAll(t, seen, text, r, pos, at) == RestAll(t, seen, text, r, pos, at + 1)
  {
    hide TokenAt;
    SuffixParts(text, at, 1);
    var q := RestoreAllReport(t, seen, text[at + 1..]);
    assert RestoreAllReport(t, seen, text[at..]) == Then(Restored(text[at..at + 1], 0, []), q);
    CopyMore(text, r, pos, at, at + 1, q);
  }

  lemma {:induction false} AllSkips(t: Tables, seen: set<string>, text: string, r: Restored, pos: nat, at: nat, m: nat)
    requires pos <= at <= m <= |text| && forall i | at <= i < m :: IsGuard(text[i])
    ensures RestAll(t, seen, text, r, pos, at) == RestAll(t, seen, text, r, pos, m)
    decreases m - at
  {
    hide TokenAt, RestAll;
    if at < m {
      NoTokenAtGuard(text[at..]);
      AllCopies(t, seen, text, r, pos, at);
      AllSkips(t, seen, text, r, pos, at + 1, m);
    }
  }

  /** A token is looked up: known, it is replaced; unknown, it is passed over. */
  lemma {:induction false} AllLooksUp(t: Tables, seen: set<string>, text: string, r: Restored, pos: nat, m: nat,
                                      tok: Token)
    requires pos <= m <= |text| && TokenAt(text[m..]) == Some(tok)
    ensures m < m + tok.core < m + tok.end <= |text|
    ensures var fam, core := text[m..m + tok.core], text[m + tok.core..m + tok.end];
            RestAll(t, seen, text, r, pos, m) ==
              match Resolve(t, fam, core)
              case Some(v) =>
                RestAll(t, seen, text, Restored(r.text + text[pos..m] + v, r.count + 1, r.unresolved),
                        m + tok.end, m + tok.end)
              case None =>
                RestAll(t, seen, text, r.(unresolved := r.unresolved + Reported(seen, fam, text[m..m + tok.end])),
                        pos, m + tok.end)
  {
    hide TokenAt, RestoreAllReport, Resolve, ReportHead, Reported;
    TokenUnfolds(t, seen, text, m, tok);
    TokenHead(t, seen, text, m, tok);
    var fam, core := text[m..m + tok.core], text[m + tok.core..m + tok.end];
    var e := m + tok.end;
    var q := RestoreAllReport(t, seen, text[e..]);
    match Resolve(t, fam, core)
    case Some(v) => JoinValue(text, r, pos, m, e, v, q);
    case None => JoinToken(text, r, pos, m, e, Reported(seen, fam, text[m..e]), q);
  }

  function Reported(seen: set<string>, fam: string, tag: string): seq<string> {
    if fam in seen then [tag] else []
  }

  lemma JoinValue(text: string, r: Restored, pos: nat, m: nat, e: nat, v: string, q: Restored)
    requires pos <= m <= e <= |text|
    ensures var next := Restored(r.text + text[pos..m] + v, r.count + 1, r.unresolved);
            Then(r.(text := r.text + text[pos..m]), Then(Restored(v, 1, []), q))
            == Then(next.(text := next.text + text[e..e]), q)
  {
    assert text[e..e] == "";
    assert r.text + text[pos..m] + (v + q.text) == r.text + text[pos..m] + v + "" + q.text;
    assert r.unresolved + ([] + q.unresolved) == r.unresolved + q.unresolved;
  }

  lemma JoinToken(text: string, r: Restored, pos: nat, m: nat, e: nat, u: seq<string>, q: Restored)
    requires pos <= m <= e <= |text|
    ensures Then(r.(text := r.text + text[pos..m]), Then(Restored(text[m..e], 0, u), q))
         == Then(Restored(r.text + text[pos..e], r.count, r.unresolved + u), q)
  {
    assert text[pos..e] == text[pos..m] + text[m..e];
    assert r.text + text[pos..m] + (text[m..e] + q.text) == r.text + text[pos..e] + q.text;
    assert r.unresolved + (u + q.unresolved) == r.unresolved + u + q.unresolved;
  }

  lemma {:induction false} TokenUnfolds(t: Tables, seen: set<string>, text: string, m: nat, tok: Token)
    requires m <= |text| && TokenAt(text[m..]) == Some(tok)
    ensures m < m + tok.core < m + tok.end <= |text|
    ensures RestoreAllReport(t, seen, text[m..])
         == Then(ReportHead(t, seen, text[m..]), RestoreAllReport(t, seen, text[m + tok.end..]))
  {
    hide TokenAt, ReportHead, RestoreAllReport;
    assert 0 < tok.core < tok.end <= |text[m..]|;
    SuffixParts(text, m, tok.end);
    ReportUnfolds(t, seen, text[m..]);
  }

  lemma ReportUnfolds(t: Tables, seen: set<string>, s: string)
    requires s != ""
    ensures RestoreAllReport(t, seen, s) == Then(ReportHead(t, seen, s), RestoreAllReport(t, seen, s[AllStride(s)..]))
  {
    hide TokenAt, ReportHead, AllStride;
  }

  lemma TokenHead(t: Tables, seen: set<string>, text: string, m: nat, tok: Token)
    requires m <= |text| && TokenAt(text[m..]) == Some(tok) && m < m + tok.core < m + tok.end <= |text|
    ensures var fam, core := text[m..m + tok.core], text[m + tok.core..m + tok.end];
            ReportHead(t, seen, text[m..]) ==
              match Resolve(t, fam, core)
              case Some(v) => Restored(v, 1, [])
              case None => Restored(text[m..m + tok.end], 0, Reported(seen, fam, text[m..m + tok.end]))
  {
    hide TokenAt, Resolve;
    var s := text[m..];
    SuffixParts(text, m, tok.end);
    SuffixParts(text, m, tok.core);
    assert s[tok.core..tok.end] == text[m + tok.core..m + tok.end];
  }
}
