/** The streaming restorer object of core.py: a text buffer that is cut before every possible
    tag, and a line buffer for event streams on top of it. The families it watches are fixed
    when it is made; the store it restores from is the one it was made with, as it then is. */
module Streaming {
  import opened Text
  import opened Restore
  import opened TagStore
  import opened Stream
  import opened Json
  import opened Sse
  import opened SseText
  import E = Engine

  /** The family of a registered tag with four to twelve hex digits. */
  function KeyFamily(k: string): Option<string> {
    var e := FamilyEnd(k);
    if IsFamily(k[..e]) && AllHex(k[e..]) && 4 <= |k| - e <= 12 then Some(k[..e]) else None
  }

  /** The families of the tags, in order. */
  function FamiliesIn(keys: seq<string>): seq<string>
    decreases |keys|
  {
    if keys == [] then []
    else (if KeyFamily(keys[0]).Some? then [KeyFamily(keys[0]).value] else []) + FamiliesIn(keys[1..])
  }

  /** The families a stream restores: the requested one, then the valid listed ones, or those of
      the registered tags when none are listed, each once, in order; nothing for an invalid
      request. */
  method StreamFamilies(prefix: string, families: Option<seq<string>>,
                        keys: seq<string>) returns (r: Option<seq<string>>)
    ensures r.Some? <==> IsPrefix(prefix)
    ensures r.Some? ==> prefix in r.value && StreamFams(r.value)
    ensures r.Some? && families.None? ==>
              r.value == AddNew([prefix], FamiliesIn(keys))
              && forall f :: f in r.value <==> f == prefix || exists k :: k in keys && KeyFamily(k) == Some(f)
    ensures r.Some? && families.Some? ==>
              r.value == Keep(families.value, [prefix])
              && forall f :: f in r.value <==> f == prefix || (f in families.value && IsPrefix(f))
  {
    hide KeyFamily;
    if !IsPrefix(prefix) {
      return None;
    }
    var fams := [prefix];
    var i := 0;
    if families.None? {
      assert keys[0..] == keys;
      while i < |keys|
        invariant 0 <= i <= |keys| && prefix in fams && StreamFams(fams)
        invariant AddNew(fams, FamiliesIn(keys[i..])) == AddNew([prefix], FamiliesIn(keys))
        invariant forall f :: f in fams <==> f == prefix || HasFamily(keys[..i], f)
      {
        Shift(keys, i);
        var f := KeyFamily(keys[i]);
        KeysGrow(keys, i);
        KeyFamilyIs(keys[i]);
        FamilyFirst(fams, keys[i..]);
        if f.Some? && f.value !in fams {
          fams := fams + [f.value];
        }
        i := i + 1;
      }
      assert keys[..i] == keys && keys[i..] == [];
      assert forall f :: HasFamily(keys, f) <==> exists k :: k in keys && KeyFamily(k) == Some(f);
    } else {
      var listed := families.value;
      assert listed[0..] == listed;
      while i < |listed|
        invariant 0 <= i <= |listed| && prefix in fams && StreamFams(fams)
        invariant Keep(listed[i..], fams) == Keep(listed, [prefix])
        invariant forall f :: f in fams <==> f == prefix || (f in listed[..i] && IsPrefix(f))
      {
        Shift(listed, i);
        assert listed[..i + 1] == listed[..i] + [listed[i]];
        if IsPrefix(listed[i]) && listed[i] !in fams {
          fams := fams + [listed[i]];
        }
        i := i + 1;
      }
      assert listed[..i] == listed && listed[i..] == [];
    }
    return Some(fams);
  }

  lemma FamilyFirst(fams: seq<string>, keys: seq<string>)
    requires keys != []
    ensures var f := KeyFamily(keys[0]);
            AddNew(fams, FamiliesIn(keys))
            == AddNew(if f.Some? && f.value !in fams then fams + [f.value] else fams, FamiliesIn(keys[1..]))
  {
    hide KeyFamily;
    var f := KeyFamily(keys[0]);
    if f.Some? {
      assert ([f.value] + FamiliesIn(keys[1..]))[1..] == FamiliesIn(keys[1..]);
    } else {
      assert [] + FamiliesIn(keys[1..]) == FamiliesIn(keys[1..]);
    }
  }

  predicate HasFamily(keys: seq<string>, f: string) { exists k :: k in keys && KeyFamily(k) == Some(f) }

  lemma KeysGrow(keys: seq<string>, i: nat)
    requires i < |keys|
    ensures forall f :: HasFamily(keys[..i + 1], f) <==> HasFamily(keys[..i], f) || KeyFamily(keys[i]) == Some(f)
  {
    hide KeyFamily;
    assert keys[..i + 1] == keys[..i] + [keys[i]];
    forall f ensures HasFamily(keys[..i + 1], f) <==> HasFamily(keys[..i], f) || KeyFamily(keys[i]) == Some(f) {
      if KeyFamily(keys[i]) == Some(f) {
        assert keys[i] in keys[..i + 1];
      }
      if HasFamily(keys[..i], f) {
        var k :| k in keys[..i] && KeyFamily(k) == Some(f);
        assert k in keys[..i + 1];
      }
    }
  }

  lemma KeyFamilyIs(k: string)
    ensures KeyFamily(k).Some? ==> IsFamily(KeyFamily(k).value)
  {}

  /** The family of a tag is watched by a stream exactly when the tag has four to twelve digits. */
  lemma WatchedIff(fam: string, core: string)
    requires IsFamily(fam) && AllHex(core)
    ensures KeyFamily(fam + core) == Some(fam) <==> 4 <= |core| <= 12
    ensures KeyFamily(fam + core).Some? ==> KeyFamily(fam + core) == Some(fam)
  {
    FamilyEndIs(fam, core);
    assert (fam + core)[..|fam|] == fam && (fam + core)[|fam|..] == core;
  }

  class StreamDesanitizer {
    const san: E.Sanitizer
    const fams: seq<string>
    var buf: string
    var linebuf: string
    var restored: nat
    var shape: Option<Shape>

    constructor (san: E.Sanitizer, fams: seq<string>)
      ensures this.san == san && this.fams == fams
      ensures buf == "" && linebuf == "" && restored == 0 && shape == None
    {
      this.san, this.fams := san, fams;
      buf, linebuf, restored, shape := "", "", 0, None;
    }

    function Tables(): Tables
      reads san
    {
      TablesOf(san.State())
    }

    function Here(): Cursor
      reads this
    {
      Cursor(buf, shape)
    }

    // ---------- the cut ----------

    /** The longest suffix that is a proper prefix of the family starts here. */
    static method FindTail(fam: string, s: string) returns (i: nat)
      ensures i == TailHold(fam, s)
      ensures fam != "" && i < |s| ==> s[i..] < fam
      ensures fam != "" ==> forall j: nat | j < |s| && s[j..] < fam :: i <= j
    {
      if fam != "" {
        TailWaits(fam, s);
      }
      var k: int := if |fam| - 1 <= |s| then |fam| - 1 else |s|;
      while k > 0
        invariant k <= |s| && (fam == "" || k >= 0)
        invariant fam != "" ==> TailFrom(fam, s, |s| - k) == TailHold(fam, s)
      {
        if s[|s| - k..] <= fam {
          return |s| - k;
        }
        k := k - 1;
      }
      return |s|;
    }

    /** `str.rfind`. */
    static method FindLast(fam: string, s: string) returns (last: int)
      ensures last == RFind(fam, s)
    {
      last := |s|;
      while last >= 0 && !(fam <= s[last..])
        invariant -1 <= last <= |s|
        invariant RFindFrom(fam, s, last) == RFind(fam, s)
      {
        last := last - 1;
      }
    }

    static method CountHex(core: string) returns (n: nat)
      ensures n == HexRun(core, |core|)
    {
      n := 0;
      while n < |core| && IsHex(core[n])
        invariant n <= |core| && AllHex(core[..n])
      {
        n := n + 1;
      }
      HexRunIs(core, |core|, n);
    }

    /** Where the last family occurrence starts, if its core may still be incomplete. */
    static method FindCore(fam: string, s: string) returns (i: nat)
      ensures i == CoreHold(fam, s)
      ensures fam != "" && i < |s| ==> LastAt(fam, s, i) && !Finished(s[i + |fam|..])
      ensures fam != "" ==> forall j: nat | LastAt(fam, s, j) && !Finished(s[j + |fam|..]) :: i == j
    {
      hide RFindFrom, HexRun, Finished;
      if fam != "" {
        CoreWaits(fam, s);
      }
      var last := FindLast(fam, s);
      if last < 0 {
        return |s|;
      }
      var core := s[last + |fam|..];
      var n := CountHex(core);
      if n < 8 || (n < 12 && n == |core|) {
        return last;
      }
      return |s|;
    }

    method FindCut(s: string) returns (cut: nat)
      ensures cut == Cut(fams, s)
      ensures "" !in fams && cut < |s| ==> exists f :: f in fams && Waits(f, s, cut)
      ensures "" !in fams ==> forall f, i: nat | f in fams && Waits(f, s, i) :: cut <= i
    {
      hide TailHold, CoreHold, Waits, LastAt;
      if "" !in fams {
        CutIsFirstWaiting(fams, s);
      }
      cut := |s|;
      var i := 0;
      while i < |fams|
        invariant 0 <= i <= |fams| && cut <= |s|
        invariant Min(cut, MinTails(fams[i..], s)) == MinTails(fams, s)
      {
        Shift(fams, i);
        var tail := FindTail(fams[i], s);
        cut := Min(cut, tail);
        i := i + 1;
      }
      assert fams[i..] == [];
      i := 0;
      while i < |fams|
        invariant 0 <= i <= |fams| && cut <= |s|
        invariant Min(cut, MinCores(fams[i..], s)) == Min(MinTails(fams, s), MinCores(fams, s))
      {
        Shift(fams, i);
        var core := FindCore(fams[i], s);
        cut := Min(cut, core);
        i := i + 1;
      }
      assert fams[i..] == [];
      CutIsBoth(fams, s);
    }

    /** Releases the text before the cut, restored; holds the rest. A text in which every tag has
        ended is released whole, and what is held may still become a tag. */
    method Feed(chunk: string) returns (out: string)
      modifies this`buf, this`restored
      ensures var all := old(buf) + chunk;
              var o := RestoreList(Tables(), fams, all[..Cut(fams, all)]);
              out == o.text && buf == all[Cut(fams, all)..] && restored == old(restored) + o.count
      ensures var all := old(buf) + chunk;
              "" !in fams && Ended(fams, all) ==> buf == "" && out == RestoreList(Tables(), fams, all).text
      ensures var all := old(buf) + chunk;
              "" !in fams && buf != "" ==> exists f :: f in fams && Waits(f, all, |all| - |buf|)
    {
      hide Cut, RestoreList, Ended, Waits;
      if "" !in fams {
        ReleasedWholeIff(fams, buf + chunk);
        CutIsFirstWaiting(fams, buf + chunk);
        assert (buf + chunk)[..|buf + chunk|] == buf + chunk;
      }
      buf := buf + chunk;
      var cut := FindCut(buf);
      var safe := buf[..cut];
      buf := buf[cut..];
      if safe == "" {
        NothingRestored(Tables(), fams);
        return "";
      }
      var r := san.DesanitizeFamilies(safe, PWD, fams);
      PassesOut(Tables(), fams, safe);
      restored := restored + r.count;
      out := r.text;
    }

    method Flush() returns (out: string)
      modifies this`buf, this`restored
      ensures var o := RestoreList(Tables(), fams, old(buf));
              out == o.text && buf == "" && restored == old(restored) + o.count
    {
      hide RestoreList;
      var r := san.DesanitizeFamilies(buf, PWD, fams);
      PassesOut(Tables(), fams, buf);
      buf, restored := "", restored + r.count;
      out := r.text;
    }

    // ---------- event streams ----------

    method ProcessLine(c: Codec, line: string) returns (out: string)
      modifies this`buf, this`restored, this`shape
      ensures var o := OneLine(c, Tables(), fams, old(Here()), line);
              Here() == o.cursor && out + "\n" == Render(c, o.items) && restored == old(restored) + o.count
    {
      hide Find, Extract, Sse.Replace, Cut, RestoreList;
      match Look(c, line) {
        case Other =>
          RenderOne(c, Same(line));
          out := line;
        case Event(j, text) =>
          LookFinds(c, line);
          shape := Some(ShapeOf(Find(j).value));
          var content := Feed(text);
          RenderOne(c, Changed(Sse.Replace(j, content)));
          out := "data: " + c.dump(Sse.Replace(j, content));
      }
    }

    /** One chunk of the body: its complete lines are processed in order. */
    method SseFeedChunk(c: Codec, chunk: string) returns (out: string)
      modifies this
      ensures var fed := FeedChunk(c, Tables(), fams, Sse.State(old(linebuf), old(Here())), chunk);
              Sse.State(linebuf, Here()) == fed.state && out == Render(c, fed.items)
              && restored == old(restored) + fed.count
    {
      hide V.IndexOf, OneLine, Render, AllLines, Frame;
      ghost var t := Tables();
      BeginLines(c, t, fams, Sse.State(linebuf, Here()), chunk);
      linebuf := linebuf + chunk;
      out := "";
      ghost var start := Sse.State(linebuf, Here());
      ghost var done: seq<Item>, count: nat := [], 0;
      while V.IndexOf(linebuf, '\n') < |linebuf|
        invariant LinesLeft(c, t, fams, Sse.State(linebuf, Here()), done, count) == LinesLeft(c, t, fams, start, [], 0)
        invariant out == Render(c, done) && restored == old(restored) + count
        decreases |linebuf|
      {
        var i := V.IndexOf(linebuf, '\n');
        LineTaken(c, t, fams, Sse.State(linebuf, Here()), done, count);
        ghost var o := OneLine(c, t, fams, Here(), linebuf[..i]);
        var line := linebuf[..i];
        linebuf := linebuf[i + 1..];
        var text := ProcessLine(c, line);
        RenderJoins(c, done, o.items);
        done, count := done + o.items, count + o.count;
        out := out + (text + "\n");
      }
      LinesDone(c, t, fams, Sse.State(linebuf, Here()), done, count);
    }

    /** Closing the stream: the unfinished line, then the held text as one more event. */
    method SseFlush(c: Codec) returns (out: string)
      modifies this
      ensures var fl := Sse.Flush(c, Tables(), fams, Sse.State(old(linebuf), old(Here())));
              out == FlushText(c, fl) && restored == old(restored) + fl.count && linebuf == ""
    {
      hide OneLine, RestoreList, Synthetic;
      out := "";
      if linebuf != "" {
        var text := ProcessLine(c, linebuf);
        out := text + "\n";
        linebuf := "";
      }
      var rest := Flush();
      if rest != "" {
        out := out + ("data: " + c.dump(Synthetic(shape, rest)) + "\n\n");
      }
    }

    /** The whole response: every chunk as it arrives, then the end. */
    method Forward(c: Codec, chunks: seq<string>) returns (out: string)
      requires linebuf == "" && buf == "" && shape == None && restored == 0
      modifies this
      ensures var fed := FeedAll(c, Tables(), fams, START, chunks);
              var fl := Sse.Flush(c, Tables(), fams, fed.state);
              out == Render(c, fed.items) + FlushText(c, fl) && restored == fed.count + fl.count
      ensures var lines := BodyLines(Concat(chunks));
              Printer(c, lines) ==>
                ReadsBack(c, lines, out)
                && var text := Concat(Contents(c, lines));
                   Ready(Tables(), fams, text) ==>
                     Output(Concat(Contents(c, Frame(out).lines)), restored) == RestoreList(Tables(), fams, text)
    {
      hide FeedChunk, Sse.Flush, FlushText, Render, Printer, ReadsBack, Ready, RestoreList, Contents, BodyLines;
      out := "";
      ghost var t := Tables();
      ghost var done: seq<Item>, count: nat := [], 0;
      var i := 0;
      ChunksBegin(c, t, fams, chunks);
      while i < |chunks|
        invariant 0 <= i <= |chunks|
        invariant ChunksLeft(c, t, fams, Sse.State(linebuf, Here()), chunks[i..], done, count)
               == FeedAll(c, t, fams, START, chunks)
        invariant out == Render(c, done) && restored == count
      {
        Shift(chunks, i);
        ghost var st := Sse.State(linebuf, Here());
        ghost var fed := FeedChunk(c, t, fams, st, chunks[i]);
        ChunkTaken(c, t, fams, st, chunks[i..], done, count);
        var text := SseFeedChunk(c, chunks[i]);
        RenderJoins(c, done, fed.items);
        done, count := done + fed.items, count + fed.count;
        out := out + text;
        i := i + 1;
      }
      assert chunks[i..] == [];
      ChunksDone(c, t, fams, Sse.State(linebuf, Here()), done, count);
      var tail := SseFlush(c);
      out := out + tail;
      if Printer(c, BodyLines(Concat(chunks))) {
        ForwardedReads(c, t, fams, chunks);
      }
    }
  }

  lemma {:induction false} PassNothing(t: Tables, passes: seq<string>)
    ensures PassOut(t, passes, "") == Output("", 0)
    decreases |passes|
  {
    if passes != [] {
      PassNothing(t, passes[1..]);
    }
  }

  lemma NothingRestored(t: Tables, fams: seq<string>)
    ensures RestoreList(t, fams, "") == Output("", 0)
  {
    PassNothing(t, Passes(fams));
  }

  /** A listed restore, seen without its report. */
  lemma PassesOut(t: Tables, fams: seq<string>, s: string)
    ensures Out(RunPasses(t, PassesWith(fams, PWD), Restored(s, 0, []))) == RestoreList(t, fams, s)
  {
    RunPassesOut(t, Passes(fams), Restored(s, 0, []));
  }

  lemma RenderOne(c: Codec, item: Item)
    ensures Render(c, [item]) == LineText(c, item) + "\n"
  {
    assert [item][1..] == [];
    assert LineText(c, item) + "\n" + "" == LineText(c, item) + "\n";
  }

  /** What is done of a chunk and what its remaining lines will add. */
  function LinesLeft(c: Codec, t: Tables, fams: seq<string>, st: Sse.State, done: seq<Item>, count: nat): Fed {
    var f := Frame(st.linebuf);
    var r := AllLines(c, t, fams, st.cursor, f.lines);
    Fed(Sse.State(f.rest, r.cursor), done + r.items, count + r.count)
  }

  lemma BeginLines(c: Codec, t: Tables, fams: seq<string>, st: Sse.State, chunk: string)
    ensures Render(c, []) == ""
    ensures LinesLeft(c, t, fams, Sse.State(st.linebuf + chunk, st.cursor), [], 0) == FeedChunk(c, t, fams, st, chunk)
  {
    hide Frame, AllLines;
    var r := AllLines(c, t, fams, st.cursor, Frame(st.linebuf + chunk).lines);
    assert [] + r.items == r.items;
  }

  lemma {:induction false} LineTaken(c: Codec, t: Tables, fams: seq<string>, st: Sse.State, done: seq<Item>, count: nat)
    requires V.IndexOf(st.linebuf, '\n') < |st.linebuf|
    ensures var i := V.IndexOf(st.linebuf, '\n');
            var o := OneLine(c, t, fams, st.cursor, st.linebuf[..i]);
            LinesLeft(c, t, fams, st, done, count)
            == LinesLeft(c, t, fams, Sse.State(st.linebuf[i + 1..], o.cursor), done + o.items, count + o.count)
  {
    hide OneLine, V.IndexOf, Frame;
    var i := V.IndexOf(st.linebuf, '\n');
    FrameUnfolds(st.linebuf);
    var o := OneLine(c, t, fams, st.cursor, st.linebuf[..i]);
    var f := Frame(st.linebuf[i + 1..]);
    assert ([st.linebuf[..i]] + f.lines)[1..] == f.lines;
    var r := AllLines(c, t, fams, o.cursor, f.lines);
    assert done + (o.items + r.items) == done + o.items + r.items;
  }

  lemma LinesDone(c: Codec, t: Tables, fams: seq<string>, st: Sse.State, done: seq<Item>, count: nat)
    requires V.IndexOf(st.linebuf, '\n') == |st.linebuf|
    ensures LinesLeft(c, t, fams, st, done, count) == Fed(st, done, count)
  {
    hide V.IndexOf;
    assert done + [] == done;
  }

  function ChunksLeft(c: Codec, t: Tables, fams: seq<string>, st: Sse.State, chunks: seq<string>, done: seq<Item>,
                      count: nat): Fed {
    var r := FeedAll(c, t, fams, st, chunks);
    Fed(r.state, done + r.items, count + r.count)
  }

  lemma ChunksBegin(c: Codec, t: Tables, fams: seq<string>, chunks: seq<string>)
    ensures Render(c, []) == "" && chunks[0..] == chunks
    ensures ChunksLeft(c, t, fams, START, chunks, [], 0) == FeedAll(c, t, fams, START, chunks)
  {
    var r := FeedAll(c, t, fams, START, chunks);
    assert [] + r.items == r.items;
  }

  lemma ChunkTaken(c: Codec, t: Tables, fams: seq<string>, st: Sse.State, chunks: seq<string>, done: seq<Item>,
                   count: nat)
    requires chunks != []
    ensures var a := FeedChunk(c, t, fams, st, chunks[0]);
            ChunksLeft(c, t, fams, st, chunks, done, count)
            == ChunksLeft(c, t, fams, a.state, chunks[1..], done + a.items, count + a.count)
  {
    hide FeedChunk;
    var a := FeedChunk(c, t, fams, st, chunks[0]);
    var r := FeedAll(c, t, fams, a.state, chunks[1..]);
    assert done + (a.items + r.items) == done + a.items + r.items;
  }

  lemma ChunksDone(c: Codec, t: Tables, fams: seq<string>, st: Sse.State, done: seq<Item>, count: nat)
    ensures ChunksLeft(c, t, fams, st, [], done, count) == Fed(st, done, count)
  {
    assert done + [] == done;
  }
}
