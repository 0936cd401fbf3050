/** The sanitizer object of core.py: fields updated in place, each method proved against
    the step of `TagStore`, `Sanitize` or `Restore` that specifies it. */
module Engine {
  import opened Text
  import opened Restore
  import opened TagStore
  import opened StoreRuns
  import opened Sweep
  import opened Shapes
  import opened Order
  import opened LeakCheck
  import opened Sanitize
  import opened RoundTrip
  import opened SanitizeLoop
  import opened RestoreLoop
  import opened Rows
  import opened RowsBack
  import opened RowsLoop

  /** How a call ends: without a vault, without a tag to mint, refused by the last check, or
      with the text and its count. */
  datatype Sanitized = Locked | NoTagLeft | Leaked | Clean(text: string, count: nat)

  class Sanitizer {
    const mac: Mac
    var salt: string
    var values: seq<string>
    var tags: map<string, string>
    var cores: map<string, string>
    var prefixes: map<string, string>
    var extra: map<string, string>
    var fams: Option<set<string>>
    var session: set<string>
    var loaded: bool
    var replaced: nat

    function State(): Store
      reads this
    {
      Store(mac, salt, values, tags, cores, prefixes, extra, fams, session, loaded)
    }

    constructor (mac: Mac, salt: string)
      ensures this.mac == mac && State() == Store(mac, salt, [], map[], map[], map[], map[], None, {}, false)
      ensures replaced == 0
    {
      this.mac := mac;
      this.salt := salt;
      values, tags, cores, prefixes, extra := [], map[], map[], map[], map[];
      fams, session, loaded, replaced := None, {}, false, 0;
    }

    // ---------- tags ----------

    method TagCore(v: string, n: Width) returns (core: string)
      modifies this`cores
      ensures State() == Indexed(old(State()), v, n) && core == Core(old(State()), v, n)
    {
      var d := mac(salt, v);
      core := d[..2 * n];
      cores := cores[core := v];
    }

    method TouchFams(tag: string)
      modifies this`fams, this`session
      ensures State() == Touched(old(State()), tag)
    {
      fams := None;
      session := session + FamilyOf(tag);
    }

    /** Cached; recomputed from the table when some operation dropped the cache. */
    method GetFamilies() returns (f: set<string>)
      modifies this`fams
      ensures State() == GetFams(old(State()))
      ensures Coherent(old(State())) ==> f == Families(tags)
    {
      if fams.None? {
        fams := Some(Families(tags));
      }
      f := fams.value;
    }

    method MintTag(prefix: string, v: string) returns (r: Option<string>)
      modifies this`tags, this`cores, this`fams, this`session
      ensures State() == Mint(old(State()), prefix, v).st && r == Mint(old(State()), prefix, v).tag
    {
      var i := 0;
      while i < |MINT_WIDTHS|
        invariant 0 <= i <= |MINT_WIDTHS|
        invariant MintAt(State(), prefix, v, MINT_WIDTHS[i..]) == Mint(old(State()), prefix, v)
        invariant replaced == old(replaced)
      {
        var n := MINT_WIDTHS[i];
        assert MINT_WIDTHS[i..][0] == n && MINT_WIDTHS[i..][1..] == MINT_WIDTHS[i + 1..];
        var core := TagCore(v, n);
        var tag := prefix + core;
        if tag !in tags || tags[tag] == v {
          tags := Default(tags, tag, v);
          TouchFams(tag);
          return Some(tag);
        }
        i := i + 1;
      }
      return None;
    }

    method RetagToken(tok: string, prefix: string) returns (r: Option<string>)
      modifies this`tags, this`cores, this`fams, this`session
      ensures State() == Retag(old(State()), tok, prefix).st && r == Retag(old(State()), tok, prefix).tag
    {
      var fam := OrDefault(prefix);
      var i := 0;
      while i < |RETAG_WIDTHS|
        invariant 0 <= i <= |RETAG_WIDTHS| && State() == old(State())
        invariant RetagAt(State(), fam, tok, RETAG_WIDTHS[i..]) == Retag(old(State()), tok, prefix)
      {
        var n := RETAG_WIDTHS[i];
        assert RETAG_WIDTHS[i..][0] == n && RETAG_WIDTHS[i..][1..] == RETAG_WIDTHS[i + 1..];
        var d := mac(salt, tok);
        var core := d[..2 * n];
        var tag := fam + core;
        if tag !in tags || tags[tag] == tok {
          tags := Default(tags, tag, tok);
          cores := Default(cores, core, tok);
          TouchFams(tag);
          return Some(tag);
        }
        i := i + 1;
      }
      r := MintTag(fam, tok);
    }

    method TagForValue(v: string, prefix: string) returns (r: Option<string>)
      modifies this`tags, this`cores, this`fams, this`session
      ensures State() == TagFor(old(State()), v, prefix).st && r == TagFor(old(State()), v, prefix).tag
    {
      var fam := if v in prefixes && prefixes[v] != "" then prefixes[v] else OrDefault(prefix);
      if fam != PWD {
        r := MintTag(fam, v);
        return;
      }
      var i := 0;
      while i < |LOAD_WIDTHS|
        invariant 0 <= i <= |LOAD_WIDTHS|
        invariant Registered(State(), v, LOAD_WIDTHS[i..]) == Registered(old(State()), v, LOAD_WIDTHS)
      {
        var n := LOAD_WIDTHS[i];
        assert LOAD_WIDTHS[i..][0] == n && LOAD_WIDTHS[i..][1..] == LOAD_WIDTHS[i + 1..];
        var core := TagCore(v, n);
        var tag := PWD + core;
        if tag in tags && tags[tag] == v {
          return Some(tag);
        }
        i := i + 1;
      }
      r := MintTag(PWD, v);
    }

    /** The tag of a picked value: its whole-cell tag if it has one. */
    method TagOfPick(v: string, prefix: string) returns (r: Option<string>)
      modifies this`tags, this`cores, this`fams, this`session
      ensures State() == TagValue(old(State()), v, prefix).st && r == TagValue(old(State()), v, prefix).tag
    {
      if v in extra {
        var tag := extra[v];
        tags := Default(tags, tag, v);
        var fam := if v in prefixes && prefixes[v] != "" then prefixes[v] else PWD;
        var key := if |fam| <= |tag| then tag[|fam|..] else "";
        cores := Default(cores, key, v);
        TouchFams(tag);
        r := Some(tag);
      } else {
        r := TagForValue(v, prefix);
      }
    }

    // ---------- the vault ----------

    /** First pass of a load: the values grouped by their short tag. */
    method GroupByShortTag() returns (groups: map<string, seq<string>>)
      requires Distinct(values)
      modifies this`cores
      ensures State() == IndexAll(old(State()), values)
      ensures TellsCollisions(groups)
    {
      groups := map[];
      var i := 0;
      while i < |values|
        invariant 0 <= i <= |values|
        invariant State() == old(State()).(cores := cores)
        invariant IndexAll(State(), values[i..]) == IndexAll(old(State()), values)
        invariant Grouped(groups, values[..i])
      {
        var v := values[i];
        assert values[i..][0] == v && values[i..][1..] == values[i + 1..];
        assert values[..i + 1] == values[..i] + [v];
        assert v !in values[..i];
        var core := TagCore(v, 4);
        var group := if PWD + core in groups then groups[PWD + core] else [];
        GroupGrows(groups, values[..i], v, group);
        groups := groups[PWD + core := group + [v]];
        i := i + 1;
      }
      assert values[..i] == values;
      forall v | v in values
        ensures ShortTag(v) in groups && (|groups[ShortTag(v)]| > 1 <==> Colliding(State(), values, v))
      {
        GroupSize(groups, values, v);
      }
    }

    /** A group of more than one says that the value shares its short core. */
    ghost predicate TellsCollisions(groups: map<string, seq<string>>)
      reads this
    {
      forall v | v in values ::
        ShortTag(v) in groups && (|groups[ShortTag(v)]| > 1 <==> Colliding(State(), values, v))
    }

    function ShortTag(v: string): string
      reads this`salt
    {
      PWD + mac(salt, v)[..8]
    }

    /** Each group holds exactly the values with its short tag, each once. */
    ghost predicate Grouped(groups: map<string, seq<string>>, vs: seq<string>)
      reads this`salt
    {
      (forall v | v in vs :: ShortTag(v) in groups && v in groups[ShortTag(v)])
      && (forall t | t in groups :: Distinct(groups[t]) && groups[t] != []
                                    && forall u | u in groups[t] :: u in vs && ShortTag(u) == t)
    }

    lemma GroupGrows(groups: map<string, seq<string>>, vs: seq<string>, v: string, group: seq<string>)
      requires Grouped(groups, vs) && v !in vs
      requires group == if ShortTag(v) in groups then groups[ShortTag(v)] else []
      ensures Grouped(groups[ShortTag(v) := group + [v]], vs + [v])
    {}

    lemma GroupSize(groups: map<string, seq<string>>, vs: seq<string>, v: string)
      requires Grouped(groups, vs) && v in vs
      ensures |groups[ShortTag(v)]| > 1 <==> Colliding(State(), vs, v)
    {
      var g := groups[ShortTag(v)];
      assert forall u :: ShortTag(u) == PWD + Core(State(), u, 4);
      assert forall u :: ShortTag(u)[4..] == Core(State(), u, 4);
      if |g| > 1 {
        var u := if g[0] == v then g[1] else g[0];
        assert g[0] != g[1] && u in g;
        assert u in vs && u != v && Core(State(), u, 4) == Core(State(), v, 4);
      }
      if Colliding(State(), vs, v) {
        var u :| u in vs && u != v && Core(State(), u, 4) == Core(State(), v, 4);
        assert ShortTag(u) == ShortTag(v) && u in g && v in g;
      }
    }

    /** One value of the second pass; false when its tag is another value's. */
    method Register(v: string, n: Width) returns (ok: bool)
      modifies this`tags, this`cores, this`fams, this`session
      ensures var st := Indexed(old(State()), v, n);
              var tag := PWD + Core(old(State()), v, n);
              ok == Free(st, tag, v) && State() == if ok then Filled(st, tag, v) else st
    {
      var core := TagCore(v, n);
      var tag := PWD + core;
      if tag in tags && tags[tag] != v {
        return false;
      }
      tags := tags[tag := v];
      TouchFams(tag);
      return true;
    }

    /** Second pass: every value gets its tag, unless the tag is taken. */
    method RegisterAll(groups: map<string, seq<string>>) returns (ok: bool)
      requires TellsCollisions(groups)
      modifies this`tags, this`cores, this`fams, this`session, this`loaded
      ensures State() == Fill(old(State()), values, values).st && ok == Fill(old(State()), values, values).ok
    {
      hide Fill, Colliding, Filled, Free, FamilyOf;
      var i := 0;
      while i < |values|
        invariant 0 <= i <= |values| && loaded == old(loaded)
        invariant Fill(State(), values[i..], values) == Fill(old(State()), values, values)
      {
        var v := values[i];
        assert values[i..][0] == v && values[i..][1..] == values[i + 1..];
        var n: Width := if |groups[ShortTag(v)]| > 1 then 6 else 4;
        SameTags(old(State()), State(), values, v);
        FillUnfolds(State(), values[i..], values, v, n);
        ok := Register(v, n);
        if !ok {
          return;
        }
        i := i + 1;
      }
      assert values[i..] == [];
      FillEnds(State(), values);
      loaded := true;
      return true;
    }

    method Clear(secrets: seq<string>, named: seq<string>, newSalt: string)
      modifies this
      ensures State() == Emptied(old(State()), Vault(secrets, named), newSalt) && replaced == old(replaced)
      ensures Distinct(values)
    {
      salt := newSalt;
      values := Dedup(Dedup(secrets) + named);
      tags, fams, session, cores, prefixes := map[], None, {}, map[], map[];
    }

    /** False when two values cannot be told apart: the vault is refused half-registered. */
    method LoadFromLists(secrets: seq<string>, named: seq<string>, newSalt: string) returns (ok: bool)
      modifies this
      ensures State() == Load(old(State()), secrets, named, newSalt).st
      ensures ok == Load(old(State()), secrets, named, newSalt).ok && replaced == old(replaced)
    {
      hide Fill, IndexAll, Dedup, Distinct, TellsCollisions;
      Clear(secrets, named, newSalt);
      var groups := GroupByShortTag();
      ok := RegisterAll(groups);
    }

    method LockStore(newSalt: string)
      modifies this
      ensures State() == Lock(old(State()), newSalt) && replaced == old(replaced)
    {
      salt, values, tags, fams, cores := newSalt, [], map[], None, map[];
      prefixes, extra, loaded := map[], map[], false;
    }

    method SetValuePrefixes(m: map<string, string>)
      modifies this`prefixes
      ensures State() == SetPrefixes(old(State()), m)
    {
      prefixes := prefixes + map v | v in m && IsPrefix(m[v]) :: m[v];
    }

    // ---------- sanitizing ----------

    /** The values to replace in a fragment: all matches, sorted, swept. */
    method PickValues(s: string) returns (picked: seq<Span>)
      ensures picked == Scan(values, s, 0) && InOrder(picked, values, s, 0)
    {
      var matches := AllMatches(values, s);
      SortSorts(matches);
      SortKeeps(matches, values, s);
      matches := Sort(matches);
      picked := SweepMatches(matches);
      SweepIsScan(matches, values, s);
      ScanIs(values, s, 0);
    }

    /** Putting the tags in place of the picks, from left to right. */
    method ReplacePicks(s: string, picked: seq<Span>, prefix: string) returns (out: Option<(string, nat)>)
      requires InOrder(picked, values, s, 0)
      modifies this`tags, this`cores, this`fams, this`session
      ensures State() == Replace(old(State()), s, 0, picked, prefix).st
      ensures out == Outcome(Replace(old(State()), s, 0, picked, prefix))
    {
      hide TagValue, Replace, PartsText, PartsChanges;
      var parts, count, i := "", 0, 0;
      var pos: nat := 0;
      ghost var acc: seq<Part> := [];
      ghost var w0 := Replace(State(), s, 0, picked, prefix);
      NoParts(w0);
      while i < |picked|
        invariant 0 <= i <= |picked| && pos <= |s|
        invariant InOrder(picked[i..], values, s, pos)
        invariant w0 == WrapWork(acc, Replace(State(), s, pos, picked[i..], prefix))
        invariant parts == PartsText(acc) && count == PartsChanges(acc)
      {
        Shift(picked, i);
        var p := picked[i];
        var v := s[p.start..p.end];
        TagValueKeepsVault(State(), v, prefix);
        PartStep(acc, State(), s, pos, picked[i..], prefix);
        var tag := TagOfPick(v, prefix);
        if tag.None? {
          return None;
        }
        acc := acc + [Part(s[pos..p.start], Atom(tag.value, v, false))];
        parts := parts + (s[pos..p.start] + tag.value);
        pos, count, i := p.end, count + 1, i + 1;
      }
      assert picked[i..] == [];
      LastPart(acc, State(), s, pos, prefix);
      parts := parts + s[pos..];
      out := Some((parts, count));
    }

    /** One pass over a fragment without protected spans. */
    method SanitizePlain(s: string, prefix: string) returns (out: Option<(string, nat)>)
      modifies this`tags, this`cores, this`fams, this`session
      ensures State() == Plain(old(State()), s, prefix).st
      ensures out == Outcome(Plain(old(State()), s, prefix))
    {
      var picked := PickValues(s);
      out := ReplacePicks(s, picked, prefix);
      if out.Some? {
        var families := GetFamilies();
      }
    }

    /** Tag-shaped spans that are no vault value, with those to be replaced marked. */
    method LocateSpans(text: string) returns (spans: seq<Span>, retag: seq<bool>)
      ensures spans == SpansOf(Segment(values, text), 0) && |retag| == |spans|
      ensures forall k | 0 <= k < |spans| :: spans[k].start <= spans[k].end <= |text|
                                             && (retag[k] <==> text[spans[k].start..spans[k].end] !in tags)
    {
      hide RawLen, Segment, SpansOf, MeetOf;
      spans, retag := [], [];
      var pos := 0;
      assert text[0..] == text;
      while pos < |text|
        invariant 0 <= pos <= |text| && |retag| == |spans|
        invariant spans + SpansOf(Segment(values, text[pos..]), pos) == SpansOf(Segment(values, text), 0)
        invariant forall k | 0 <= k < |spans| :: spans[k].start <= spans[k].end <= pos
                                                 && (retag[k] <==> text[spans[k].start..spans[k].end] !in tags)
      {
        ghost var m := MeetOf(values, text[pos..]);
        SpansMeet(values, text[pos..], pos, m);
        SuffixParts(text, pos, m.step);
        MeetIs(values, text, pos);
        var n := RawLen(text[pos..]);
        if n == 0 {
          pos := pos + 1;
          continue;
        }
        var tok := text[pos..pos + n];
        if tok !in values {
          // matches of one scan never overlap, so no span is ever merged with the last one
          if |spans| > 0 && pos < spans[|spans| - 1].end {
            assert false;
          }
          spans, retag := spans + [Span(pos, pos + n)], retag + [tok !in tags];
        }
        pos := pos + n;
      }
      assert text[pos..] == "";
      NoSpansLeft(values, pos);
    }

    /** Spans located, then cut by cut; refused without a vault. */
    method SanitizeParts(text: string, prefix: string) returns (loadedVault: bool, out: Option<(string, nat)>)
      modifies this`tags, this`cores, this`fams, this`session
      ensures loadedVault == old(loaded)
      ensures !loadedVault ==> State() == old(State()) && out.None?
      ensures loadedVault ==> State() == Draft(old(State()), text, prefix).st
                              && out == Outcome(Draft(old(State()), text, prefix))
    {
      loadedVault := loaded;
      if !loaded {
        return false, None;
      }
      var spans, retag := LocateSpans(text);
      out := ProcessSpans(text, spans, retag, prefix);
    }

    /** Families whose tags the check blanks, sorted. */
    method ListFamilies() returns (l: seq<string>)
      requires Coherent(State())
      modifies this`fams
      ensures State() == GetFams(old(State())) && l == Listing(CheckFams(State()))
    {
      hide Listing;
      var families := GetFamilies();
      l := Listing(families + session + {PWD});
    }

    method BlankTags(s: string, l: seq<string>) returns (r: string)
      ensures r == Blanked(l, s)
    {
      hide BlankLen;
      r := "";
      var pos := 0;
      assert s[0..] == s && "" + Blanked(l, s) == Blanked(l, s);
      while pos < |s|
        invariant 0 <= pos <= |s| && r + Blanked(l, s[pos..]) == Blanked(l, s)
      {
        var n := BlankLen(l, s[pos..]);
        if n > 0 {
          SuffixParts(s, pos, n);
          SumAssoc(r, " ", Blanked(l, s[pos + n..]));
          r, pos := r + " ", pos + n;
        } else {
          SuffixParts(s, pos, 1);
          SumAssoc(r, s[pos..pos + 1], Blanked(l, s[pos + 1..]));
          r, pos := r + s[pos..pos + 1], pos + 1;
        }
      }
      assert s[pos..] == "" && r + "" == r;
    }

    /** Whether a longer vault value is left between the tags. */
    method FindsLeak(out: string, l: seq<string>) returns (leak: bool)
      ensures leak == Leaks(l, values, out)
    {
      hide Blanked;
      var scan := out;
      if |l| > 1 {
        scan := BlankTags(out, l);
      }
      var i := 0;
      while i < |values|
        invariant 0 <= i <= |values|
        invariant forall k | 0 <= k < i :: |values[k]| >= LEAK_MIN ==> !Contains(scan, values[k])
      {
        if |values[i]| >= LEAK_MIN {
          var at := Find(scan, values[i], 0);
          if at >= 0 {
            assert StandsAt(scan, values[i], at);
            return true;
          }
        }
        i := i + 1;
      }
      return false;
    }

    /** The whole call, last check included. */
    method Sanitize(text: string, prefix: string) returns (r: Sanitized)
      requires Coherent(State())
      modifies this`tags, this`cores, this`fams, this`session, this`replaced
      ensures Coherent(State()) && (r.Locked? <==> !old(loaded)) && (r.Locked? ==> State() == old(State()))
      ensures var d, w := Draft(old(State()), text, prefix), SanitizeText(old(State()), text, prefix);
              !r.Locked? ==>
                State() == w.st
                && (r.NoTagLeft? <==> d.Failed?)
                && (r.Leaked? <==> d.Done? && w.Failed?)
                && (r.Clean? <==> w.Done?) && (r.Clean? ==> r == Clean(Render(w.doc), Changes(w.doc)))
      ensures replaced == old(replaced) + if r.Clean? then r.count else 0
    {
      hide Draft, Families, Leaks, Listing, Coherent;
      DraftIsGood(State(), text, prefix);
      SanitizeIsGood(State(), text, prefix);
      var ok, out := SanitizeParts(text, prefix);
      if !ok {
        return Locked;
      }
      if out.None? {
        return NoTagLeft;
      }
      var l := ListFamilies();
      var leak := FindsLeak(out.value.0, l);
      if leak {
        return Leaked;
      }
      replaced := replaced + out.value.1;
      r := Clean(out.value.0, out.value.1);
    }

    /** A gap through the value pass and the span behind it, replaced whole or kept. */
    method EmitCut(gap: string, tok: string, retag: bool, prefix: string) returns (out: Option<(string, nat)>)
      modifies this`tags, this`cores, this`fams, this`session
      ensures State() == OneCut(old(State()), gap, tok, !retag, prefix).st
      ensures out == CutOutcome(OneCut(old(State()), gap, tok, !retag, prefix))
    {
      hide Plain, Retag, Render, Changes;
      EmptyDoc();
      out := Some(("", 0));
      if gap != "" {
        out := SanitizePlain(gap, prefix);
      }
      if out.None? {
        return;
      }
      if retag {
        var tag := RetagToken(tok, prefix);
        if tag.None? {
          return None;
        }
        return Some((out.value.0 + tag.value, out.value.1 + 1));
      }
      return Some((out.value.0 + tok, out.value.1));
    }

    /** Cut by cut, then the text behind the last span. */
    method ProcessSpans(text: string, spans: seq<Span>, retag: seq<bool>,
                        prefix: string) returns (out: Option<(string, nat)>)
      requires spans == SpansOf(Segment(values, text), 0) && |retag| == |spans|
      requires forall k | 0 <= k < |spans| :: spans[k].start <= spans[k].end <= |text|
                                              && (retag[k] <==> text[spans[k].start..spans[k].end] !in tags)
      modifies this`tags, this`cores, this`fams, this`session
      ensures State() == Draft(old(State()), text, prefix).st
      ensures out == Outcome(Draft(old(State()), text, prefix))
    {
      hide Plain, OneCut, Segment, RawLen;
      ghost var known := tags;
      ghost var c := Segment(values, text);
      ghost var acc: seq<Part> := [];
      ghost var w0 := Process(State(), c, known, prefix);
      SegmentIs(values, text);
      assert text[0..] == text;
      var parts, count, i := "", 0, 0;
      var pos: nat := 0;
      while i < |spans|
        invariant 0 <= i <= |spans| && pos <= |text|
        invariant spans[i..] == SpansOf(c, pos) && text[pos..] == Whole(c)
        invariant w0 == WrapWork(acc, Process(State(), c, known, prefix))
        invariant parts == PartsText(acc) && count == PartsChanges(acc)
      {
        Shift(spans, i);
        CutHere(text, pos, c, spans[i..]);
        var a, b := spans[i].start, spans[i].end;
        ghost var w := OneCut(State(), c.gap, c.token, c.token in known, prefix);
        ProcessStep(acc, State(), c, known, prefix);
        var cut := EmitCut(text[pos..a], text[a..b], retag[i], prefix);
        if cut.None? {
          return None;
        }
        acc := acc + PartsOf(w.doc, w.atom);
        parts := parts + cut.value.0;
        count := count + cut.value.1;
        c := c.rest;
        pos, i := b, i + 1;
      }
      assert spans[i..] == [] && c.Last?;
      ghost var w := Gap(State(), text[pos..], prefix);
      var gap := Some(("", 0));
      if pos < |text| {
        gap := SanitizePlain(text[pos..], prefix);
      }
      if gap.None? {
        return None;
      }
      WrapIs(acc, w.doc);
      out := Some((parts + gap.value.0, count + gap.value.1));
    }

    // ---------- restoring ----------

    /** Single-family restore: the pattern takes quotes and white space around a tag along,
        but only the tag itself is replaced. */
    method DesanitizeOne(text: string, prefix: string) returns (r: Restored)
      requires IsFamily(prefix)
      ensures r == RestoreOne(TablesOf(State()), prefix, text)
    {
      hide TagLen, RestoreOne, RestOne, HexRun;
      ghost var t := TablesOf(State());
      r := Restored("", 0, []);
      var pos, at: nat := 0, 0;
      RestStarts(t, prefix, text);
      while at < |text|
        invariant 0 <= pos <= at <= |text|
        invariant RestOne(t, prefix, text, r, pos, at) == RestoreOne(t, prefix, text)
      {
        var m := at + GuardRun(text[at..]);
        var n := TagLen(prefix, text[m..]);
        if n == 0 {
          NoMatchHere(prefix, text, at, m);
          RestCopies(t, prefix, text, r, pos, at);
          at := at + 1;
          continue;
        }
        var e := m + n;
        GuardsInText(text, at);
        RestSkips(t, prefix, text, r, pos, at, m);
        RestRestores(t, prefix, text, r, pos, m, n);
        var core := text[m + |prefix|..e];
        var tag := prefix + core;
        r := r.(text := r.text + text[pos..m]);
        var secret := if tag in tags then Some(tags[tag]) else if core in cores then Some(cores[core]) else None;
        if secret.Some? {
          r := Restored(r.text + secret.value, r.count + 1, r.unresolved + []);
        } else {
          r := Restored(r.text + tag, r.count, r.unresolved + [tag]);
        }
        pos, at := e, e + GuardRun(text[e..]);
        GuardsInText(text, e);
        RestSkips(t, prefix, text, r, e, e, at);
      }
      RestEnds(t, prefix, text, r, pos);
      r := r.(text := r.text + text[pos..]);
    }

    /** All families in one scan; an unknown tag is reported when its family has been seen. */
    method DesanitizeMulti(text: string) returns (r: Restored)
      requires Coherent(State())
      modifies this`fams
      ensures State() == GetFams(old(State()))
      ensures r == RestoreAllReport(TablesOf(old(State())), Families(tags) + session, text)
    {
      hide TokenAt, RestoreAllReport, RestAll;
      var families := GetFamilies();
      ghost var t := TablesOf(State());
      ghost var seen, now := families + session, State();
      r := Restored("", 0, []);
      var pos, at: nat := 0, 0;
      AllStarts(t, seen, text);
      while at < |text|
        invariant 0 <= pos <= at <= |text| && State() == now
        invariant RestAll(t, seen, text, r, pos, at) == RestoreAllReport(t, seen, text)
      {
        var m := at + GuardRun(text[at..]);
        var match_ := TokenAt(text[m..]);
        if match_.None? {
          NoTokenHere(text, at, m);
          AllCopies(t, seen, text, r, pos, at);
          at := at + 1;
          continue;
        }
        var c, e := m + match_.value.core, m + match_.value.end;
        GuardsInText(text, at);
        AllSkips(t, seen, text, r, pos, at, m);
        AllLooksUp(t, seen, text, r, pos, m, match_.value);
        var fam, core := text[m..c], text[c..e];
        var tag := fam + core;
        assert tag == text[m..e];
        var secret := if tag in tags then Some(tags[tag]) else if core in cores then Some(cores[core]) else None;
        if secret.None? {
          assert r.unresolved + [] == r.unresolved && r.(unresolved := r.unresolved) == r;
          if fam in families || fam in session {
            r := r.(unresolved := r.unresolved + [tag]);
          }
        } else {
          r := Restored(r.text + text[pos..m] + secret.value, r.count + 1, r.unresolved);
          pos := e;
        }
        at := e + GuardRun(text[e..]);
        GuardsInText(text, e);
        AllSkips(t, seen, text, r, pos, e, at);
      }
      AllEnds(t, seen, text, r, pos);
      r := r.(text := r.text + text[pos..]);
    }

    /** An explicit list: one pass a family, the requested prefix last. */
    method DesanitizeFamilies(text: string, prefix: string, families: seq<string>) returns (r: Restored)
      ensures r == RunPasses(TablesOf(State()), PassesWith(families, prefix), Restored(text, 0, []))
    {
      hide RestoreOne;
      var wanted := families + [prefix];
      var fams: seq<string> := [];
      var i := 0;
      KeepHas(wanted, []);
      while i < |wanted|
        invariant 0 <= i <= |wanted|
        invariant Keep(wanted[i..], fams) == Keep(wanted, [])
      {
        Shift(wanted, i);
        if IsPrefix(wanted[i]) && wanted[i] !in fams {
          fams := fams + [wanted[i]];
        }
        i := i + 1;
      }
      assert wanted[i..] == [] && fams == Keep(wanted, []);
      assert forall f | f in fams :: IsPrefix(f);
      r := Restored(text, 0, []);
      i := 0;
      while i < |fams|
        invariant 0 <= i <= |fams|
        invariant RunPasses(TablesOf(State()), fams[i..], r)
               == RunPasses(TablesOf(State()), fams, Restored(text, 0, []))
      {
        Shift(fams, i);
        assert fams[i] in fams;
        var o := DesanitizeOne(r.text, fams[i]);
        r := Restored(o.text, r.count + o.count, AddNew(r.unresolved, o.unresolved));
        i := i + 1;
      }
    }

    // ---------- tables ----------

    /** One cell: vault values first; a cell without any may be tagged whole. */
    method SanitizeOneCell(cell: string, p: Plan, typed: bool) returns (r: Option<(string, nat, nat)>)
      requires Coherent(State())
      modifies this`tags, this`cores, this`fams, this`session, this`extra, this`replaced
      ensures State() == SanitizeCell(old(State()), cell, p, typed).st
      ensures r == CellOutcome(SanitizeCell(old(State()), cell, p, typed))
      ensures replaced == old(replaced) + if r.Some? then r.value.1 else 0
    {
      hide SanitizeText, Draft, Mint, Coherent, StaysClear, CellFamily;
      if cell == "" {
        return Some(("", 0, 0));
      }
      var out := Sanitize(cell, p.prefix);
      if !out.Clean? {
        return None;
      }
      if out.count > 0 || !p.missing || |cell| < SENSITIVE_CELL_MIN {
        return Some((out.text, out.count, 0));
      }
      if StaysClear(p, typed) {
        return Some((cell, 0, 0));
      }
      var tag := MintTag(CellFamily(p, typed), cell);
      if tag.None? {
        return None;
      }
      tags := Default(tags, tag.value, cell);
      TouchFams(tag.value);
      extra := Default(extra, cell, tag.value);
      return Some((tag.value, 0, 1));
    }

    /** The cells of one row, each looked up in the cache first unless it is the header row. */
    method SanitizeRow(q: Request, first: seq<string>, head: bool, row: seq<string>, cache0: Cache)
      returns (cache: Cache, r: Option<(seq<string>, nat, nat)>)
      requires Coherent(State())
      modifies this`tags, this`cores, this`fams, this`session, this`extra, this`replaced
      ensures var w := RunRow(q, first, head, true, old(State()), cache0, row, 0);
              State() == w.st && r == RunOutcome(w) && (w.Ran? ==> cache == w.cache)
    {
      hide SanitizeCell, PlanOf, RunRow, Coherent;
      ghost var w0 := RunRow(q, first, head, true, State(), cache0, row, 0);
      cache := cache0;
      var out: seq<string> := [];
      var n: nat, t: nat, j: nat := 0, 0, 0;
      OntoNothing(w0);
      while j < |row|
        invariant j <= |row| && Coherent(State())
        invariant Onto(out, n, t, RunRow(q, first, head, true, State(), cache, row, j)) == w0
      {
        NextCell(q, first, head, State(), cache, row, j, out, n, t);
        var cell := row[j];
        var p := PlanOf(q, first, j);
        var key := KeyOf(p, cell);
        RunCellLater(q, p, head, true, State(), cache, cell);
        if cell == "" {
          out := out + [""];
        } else if !head && key in cache {
          out, n, t := out + [cache[key].out], n + cache[key].n, t + cache[key].t;
        } else {
          var c := SanitizeOneCell(cell, if head then HEAD else p, !head && q.typed);
          if c.None? {
            return cache, None;
          }
          if !head {
            cache := cache[key := Hit(c.value.0, c.value.1, c.value.2)];
          }
          out, n, t := out + [c.value.0], n + c.value.1, t + c.value.2;
        }
        j := j + 1;
      }
      RowEnds(q, first, head, State(), cache, row, out, n, t);
      r := Some((out, n, t));
    }

    /** False for a request that is refused; no result when the batch stops at a cell. */
    method SanitizeTable(q: Request, rows: seq<seq<string>>)
      returns (ok: bool, r: Option<(seq<seq<string>>, nat, nat)>)
      requires Coherent(State())
      modifies this`tags, this`cores, this`fams, this`session, this`extra, this`replaced
      ensures ok == ValidRequest(q)
      ensures !ok ==> State() == old(State()) && r.None?
      ensures ok ==> var w := SanitizeRows(q, old(State()), rows).value;
                     State() == w.st && r == RunOutcome(w)
    {
      hide RunRow, RunRows, Coherent;
      ok := ValidRequest(q);
      if !ok {
        return false, None;
      }
      ghost var w0 := RunRows(q, true, State(), map[], rows, 0);
      var cache: Cache := map[];
      var out: seq<seq<string>> := [];
      var n: nat, t: nat, i: nat := 0, 0, 0;
      OntoNothing(w0);
      while i < |rows|
        invariant i <= |rows| && Coherent(State())
        invariant Onto(out, n, t, RunRows(q, true, State(), cache, rows, i)) == w0
      {
        NextRow(q, State(), cache, rows, i, out, n, t);
        RunRowLater(q, rows[0], q.header && i == 0, true, State(), cache, rows[i], 0);
        var row;
        cache, row := SanitizeRow(q, rows[0], q.header && i == 0, rows[i], cache);
        if row.None? {
          return true, None;
        }
        out, n, t, i := out + [row.value.0], n + row.value.1, t + row.value.2, i + 1;
      }
      RowsEnd(q, State(), cache, rows, out, n, t);
      r := Some((out, n, t));
    }

    /** The patterns of the families are tried in turn; the length of the one that matches
        says where the core is looked for. */
    method RestoreOneCell(c: string, fams: seq<string>) returns (r: Restored)
      requires c != "" && fams != [] && forall f | f in fams :: IsFamily(f)
      ensures r == if WholeTag(c) then LookUpCell(TablesOf(State()), fams[0], c)
                   else if TagLike(c) then Restored(c, 0, [c])
                   else Desanitize(TablesOf(State()), fams, c)
    {
      hide WholeTag, RunPasses;
      var matched: Option<string>, i := None, 0;
      while i < |fams|
        invariant 0 <= i <= |fams| && matched.None?
        invariant i > 0 ==> !WholeTag(c)
      {
        PatternsAreOne(fams[i], c);
        if PatternMatches(fams[i], c) {
          matched := Some(fams[i]);
          break;
        }
        i := i + 1;
      }
      if matched.Some? {
        var key := KeyBehind(matched.value, c);
        if c in tags {
          return Restored(tags[c], 1, []);
        }
        if key in cores {
          return Restored(cores[key], 1, []);
        }
        return Restored(c, 0, [c]);
      }
      if TagLike(c) {
        return Restored(c, 0, [c]);
      }
      r := DesanitizeFamilies(c, PWD, fams);
    }

    /** What the cache of a restore holds is what the cell restores to. */
    ghost predicate RightCache(cache: map<string, Restored>, prefix: string, families: seq<string>)
      reads this
    {
      forall c | c in cache :: cache[c] == RestoreCell(TablesOf(State()), prefix, families, c)
    }

    method RestoreRow(row: seq<string>, prefix: string, families: seq<string>, fams: seq<string>,
                      cache0: map<string, Restored>, met0: seq<string>)
      returns (r: Back<seq<string>>, cache: map<string, Restored>)
      requires fams == RestoreFams(prefix, families) && fams != [] && fams[0] == prefix
      requires (forall f | f in fams :: IsFamily(f)) && RightCache(cache0, prefix, families)
      ensures r == BackRow(TablesOf(State()), prefix, families, row, 0, met0) && RightCache(cache, prefix, families)
    {
      hide WholeTag, TagLike, Desanitize, BackRow;
      ghost var t := TablesOf(State());
      cache := cache0;
      var out: seq<string>, count: nat, met := [], 0, met0;
      var j := 0;
      BackOntoNothing(BackRow(t, prefix, families, row, 0, met0));
      while j < |row|
        invariant 0 <= j <= |row| && RightCache(cache, prefix, families)
        invariant BackOnto(out, count, BackRow(t, prefix, families, row, j, met))
               == BackRow(t, prefix, families, row, 0, met0)
      {
        NextBack(t, prefix, families, row, j, met, out, count);
        var c := row[j];
        var b := Restored("", 0, []);
        if c in cache {
          b := cache[c];
        } else if c != "" {
          b := RestoreOneCell(c, fams);
          cache := cache[c := b];
        }
        out, count, met := out + [b.text], count + b.count, AddNew(met, b.unresolved);
        j := j + 1;
      }
      BackRowEnds(t, prefix, families, row, met, out, count);
      r := Back(out, count, met);
    }

    /** No result for a prefix that is refused. */
    method RestoreTable(rows: seq<seq<string>>, prefix: string, families: seq<string>)
      returns (r: Option<Back<seq<seq<string>>>>)
      ensures r == RestoreRows(TablesOf(State()), prefix, families, rows)
    {
      hide BackRow, BackRows, RestoreCell;
      if !IsPrefix(prefix) {
        return None;
      }
      ghost var t := TablesOf(State());
      var fams := RestoreFams(prefix, families);
      FamsStartWith(prefix, families);
      var cache: map<string, Restored> := map[];
      var out: seq<seq<string>>, count: nat, met: seq<string> := [], 0, [];
      var i := 0;
      BackOntoNothing(BackRows(t, prefix, families, rows, 0, []));
      while i < |rows|
        invariant 0 <= i <= |rows| && RightCache(cache, prefix, families)
        invariant BackOnto(out, count, BackRows(t, prefix, families, rows, i, met))
               == BackRows(t, prefix, families, rows, 0, [])
      {
        NextBackRow(t, prefix, families, rows, i, met, out, count);
        var b;
        b, cache := RestoreRow(rows[i], prefix, families, fams, cache, met);
        out, count, met, i := out + [b.out], count + b.count, b.unresolved, i + 1;
      }
      BackRowsEnd(t, prefix, families, rows, met, out, count);
      r := Some(Back(out, count, met));
    }
  }
}
