/** The text of a forwarded event stream, read again line by line: what a client of the stream sees. */
module SseText {
  import opened Text
  import opened Restore
  import opened Stream
  import opened Json
  import opened Sse
  import V = Vault

  // ---------- what is asked of a codec ----------

  /** The document is printed on one line without white space at its ends, and is read from it. */
  predicate Prints(c: Codec, j: Json) {
    c.parse(c.dump(j)) == Some(j) && '\n' !in c.dump(j) && V.Stripped(c.dump(j))
  }

  /** The events among the lines, with any content, are printed like this, and so is a closing event; nothing
      and `[DONE]` are no JSON. */
  ghost predicate Printer(c: Codec, lines: seq<string>) {
    c.parse("") == None && c.parse("[DONE]") == None
    && (forall i, x | 0 <= i < |lines| && Look(c, lines[i]).Event? :: PrintsWith(c, lines[i], x))
    && (forall shape, x :: Prints(c, Synthetic(shape, x)))
  }

  predicate PrintsWith(c: Codec, line: string, x: string) {
    match Look(c, line)
    case Other => true
    case Event(j, _) => Find(j).Some? ==> Prints(c, Replace(j, x))
  }

  // ---------- lines of the text ----------

  function Texts(c: Codec, items: seq<Item>): seq<string>
    decreases |items|
  {
    if items == [] then [] else [LineText(c, items[0])] + Texts(c, items[1..])
  }

  lemma BreakAt(line: string, rest: string)
    requires '\n' !in line
    ensures V.IndexOf(line + "\n" + rest, '\n') == |line|
  {
    var s := line + "\n" + rest;
    assert s[|line|] == '\n';
    assert forall i | 0 <= i < |line| :: s[i] == line[i];
  }

  lemma FrameLine(line: string, rest: string)
    requires '\n' !in line
    ensures Frame(line + "\n" + rest) == Framed([line] + Frame(rest).lines, Frame(rest).rest)
  {
    hide V.IndexOf, Frame;
    var s := line + "\n" + rest;
    BreakAt(line, rest);
    FrameUnfolds(s);
    assert s[..|line|] == line && s[|line| + 1..] == rest;
  }

  predicate Unbroken(lines: seq<string>) { forall i | 0 <= i < |lines| :: '\n' !in lines[i] }

  /** Forwarded lines without breaks are the lines of the forwarded text. */
  lemma {:induction false} RenderFrames(c: Codec, items: seq<Item>, z: string)
    requires Unbroken(Texts(c, items))
    ensures Frame(Render(c, items) + z) == Framed(Texts(c, items) + Frame(z).lines, Frame(z).rest)
    decreases |items|
  {
    hide LineText, Frame;
    if items == [] {
      assert "" + z == z && [] + Frame(z).lines == Frame(z).lines;
    } else {
      var line := LineText(c, items[0]);
      var more := Texts(c, items[1..]);
      assert forall i | 0 <= i < |more| :: more[i] == Texts(c, items)[i + 1];
      assert Texts(c, items)[0] == line;
      RenderFrames(c, items[1..], z);
      FrameLine(line, Render(c, items[1..]) + z);
      SumAssoc(line + "\n", Render(c, items[1..]), z);
      assert [line] + (more + Frame(z).lines) == Texts(c, items) + Frame(z).lines;
    }
  }

  lemma {:induction false} FrameUnbroken(s: string)
    ensures Unbroken(Frame(s).lines) && '\n' !in Frame(s).rest
    decreases |s|
  {
    var i := V.IndexOf(s, '\n');
    if i < |s| {
      FrameUnbroken(s[i + 1..]);
    }
  }

  lemma BodyUnbroken(s: string)
    ensures Unbroken(BodyLines(s))
  {
    hide Frame;
    FrameUnbroken(s);
  }

  // ---------- an event, read again ----------

  /** A printed event is an event at the same place, with the content it was printed with. */
  lemma EventIsRead(c: Codec, j: Json)
    requires c.parse("") == None && c.parse("[DONE]") == None
    requires Prints(c, j) && Find(j).Some? && Extract(j).Some?
    ensures Look(c, "data: " + c.dump(j)) == Event(j, Extract(j).value) && '\n' !in "data: " + c.dump(j)
  {
    hide Find, Extract, V.Strip, V.Stripped;
    var d := c.dump(j);
    V.BlankBefore(d);
    assert ("data: " + d)[5..] == " " + d && "data:" <= "data: " + d;
  }

  /** What a client reads in place of a line: the line itself, or the same event with other content. */
  predicate Passed(c: Codec, line: string, out: string) {
    match Look(c, line)
    case Other => out == line
    case Event(j, _) =>
      Find(j).Some?
      && match Look(c, out)
         case Other => false
         case Event(k, x) => Find(k) == Find(j) && k == Replace(j, x)
  }

  /** One item, as text: no break in it, and its content is the item's. */
  lemma {:induction false} ItemIsRead(c: Codec, lines: seq<string>, i: nat, item: Item)
    requires Printer(c, lines) && i < |lines| && '\n' !in lines[i] && MatchesLine(c, lines[i], item)
    ensures Passed(c, lines[i], LineText(c, item)) && '\n' !in LineText(c, item)
    ensures Concat(LineContents(c, LineText(c, item))) == Forwarded([item])
  {
    hide Look, Find, Extract, Sse.Replace, Prints;
    ForwardedOne(item);
    LookFinds(c, lines[i]);
    match Look(c, lines[i])
    case Other =>
    case Event(j, _) =>
      var x := Extract(item.json).value;
      assert PrintsWith(c, lines[i], x);
      EventIsRead(c, item.json);
      ConcatOne(x);
  }

  lemma ConcatOne(x: string)
    ensures Concat([x]) == x
  {
    assert [x][1..] == [];
    assert x + "" == x;
  }

  lemma {:induction false} ConcatJoins(a: seq<string>, b: seq<string>)
    ensures Concat(a + b) == Concat(a) + Concat(b)
    decreases |a|
  {
    if a == [] {
      assert a + b == b && "" + Concat(b) == Concat(b);
    } else {
      ConcatJoins(a[1..], b);
      assert (a + b)[1..] == a[1..] + b;
      SumAssoc(a[0], Concat(a[1..]), Concat(b));
    }
  }

  /** Line for line. */
  ghost predicate AllPassed(c: Codec, lines: seq<string>, outs: seq<string>) {
    |outs| == |lines| && forall i | 0 <= i < |lines| :: Passed(c, lines[i], outs[i])
  }

  lemma {:induction false} TextsAreRead(c: Codec, lines: seq<string>, items: seq<Item>)
    requires Printer(c, lines) && Unbroken(lines) && Matches(c, lines, items)
    ensures var outs := Texts(c, items);
            |outs| == |lines| && AllPassed(c, lines, outs) && Unbroken(outs)
            && Concat(Contents(c, outs)) == Forwarded(items)
    decreases |lines|
  {
    hide Look, LineText, Passed, MatchesLine, PrintsWith, Forwarded, Prints;
    if lines == [] {
      ForwardedNothing();
    } else {
      var outs := Texts(c, items);
      PrinterRest(c, lines);
      assert forall i | 0 <= i < |lines[1..]| :: lines[1..][i] == lines[i + 1] && items[1..][i] == items[i + 1];
      TextsAreRead(c, lines[1..], items[1..]);
      ItemIsRead(c, lines, 0, items[0]);
      assert outs[0] == LineText(c, items[0]) && outs[1..] == Texts(c, items[1..]);
      ContentsStep(c, outs);
      ConcatJoins(LineContents(c, outs[0]), Contents(c, outs[1..]));
      ForwardedStep(items);
      assert forall i | 0 < i < |lines| :: lines[i] == lines[1..][i - 1] && outs[i] == outs[1..][i - 1];
    }
  }

  lemma ForwardedNothing()
    ensures Forwarded([]) == ""
  {}

  lemma PrinterRest(c: Codec, lines: seq<string>)
    requires Printer(c, lines) && lines != []
    ensures Printer(c, lines[1..])
  {
    hide Look, PrintsWith, Prints;
    forall i, x | 0 <= i < |lines[1..]| && Look(c, lines[1..][i]).Event? ensures PrintsWith(c, lines[1..][i], x) {
      assert lines[1..][i] == lines[i + 1];
    }
  }

  // ---------- the closing event ----------

  /** The place of the last event among the lines, or the one from before. */
  function LastPlace(c: Codec, lines: seq<string>, last: Option<Place>): Option<Place>
    decreases |lines|
  {
    if lines == [] then last
    else LastPlace(c, lines[1..], match Look(c, lines[0]) case Other => last case Event(j, _) => Find(j))
  }

  /** Where the closing event has its content: where the last event had it, the first choice always below `delta`,
      at the top when there was none. */
  function ClosingPlace(last: Option<Place>): Place {
    match last
    case None => Top
    case Some(ChoiceMessage) => Delta
    case Some(p) => p
  }

  ghost predicate ShapeIs(shape: Option<Shape>, last: Option<Place>) {
    shape == match last case None => None case Some(p) => Some(ShapeOf(p))
  }

  lemma {:induction false} ShapeIsLast(c: Codec, t: Tables, fams: seq<string>, cur: Cursor, lines: seq<string>,
                                       last: Option<Place>)
    requires ShapeIs(cur.shape, last)
    ensures ShapeIs(AllLines(c, t, fams, cur, lines).cursor.shape, LastPlace(c, lines, last))
    decreases |lines|
  {
    hide Look, Find, Extract, Sse.Replace, Cut, RestoreList, ShapeOf;
    if lines != [] {
      LookFinds(c, lines[0]);
      var o := OneLine(c, t, fams, cur, lines[0]);
      var next := match Look(c, lines[0]) case Other => last case Event(j, _) => Find(j);
      ShapeIsLast(c, t, fams, o.cursor, lines[1..], next);
    }
  }

  /** The closing event has its content where the last event had it. */
  lemma ClosingIs(shape: Option<Shape>, last: Option<Place>, rest: string)
    requires ShapeIs(shape, last)
    ensures Find(Synthetic(shape, rest)) == Some(ClosingPlace(last)) && Extract(Synthetic(shape, rest)) == Some(rest)
  {
    SyntheticExtracts(shape, rest);
    var content := Field("content", Str(rest));
    var inner := Obj([content]);
    assert ContentOf(inner) == Some(rest);
    var d := Obj([Field("delta", inner)]);
    assert ContentAt(d, "delta") == Some(rest);
    var m := Obj([Field("message", inner)]);
    assert ContentAt(m, "message") == Some(rest) && FirstChoice(m) == None && FirstChoice(inner) == None;
    assert ContentAt(inner, "message") == None;
    var k := Obj([Field("choices", Arr([d]))]);
    assert FirstChoice(k) == Some(d);
  }

  // ---------- the whole stream ----------

  lemma {:induction false} RenderJoins(c: Codec, a: seq<Item>, b: seq<Item>)
    ensures Render(c, a + b) == Render(c, a) + Render(c, b)
    decreases |a|
  {
    hide LineText;
    if a == [] {
      assert a + b == b && "" + Render(c, b) == Render(c, b);
    } else {
      RenderJoins(c, a[1..], b);
      assert (a + b)[1..] == a[1..] + b;
      SumAssoc(LineText(c, a[0]) + "\n", Render(c, a[1..]), Render(c, b));
    }
  }

  /** What stands behind the lines: nothing, or one event that closes the stream and an empty line. */
  predicate Closed(c: Codec, more: seq<string>, last: Option<Place>) {
    more == []
    || (|more| == 2 && more[1] == ""
        && match Look(c, more[0])
           case Other => false
           case Event(j, x) => x != "" && Find(j) == Some(ClosingPlace(last)))
  }

  /** A forwarded text, read by its lines: every line is closed, each line that came in is passed, and behind them
      the stream is closed. */
  ghost predicate ReadsBack(c: Codec, lines: seq<string>, out: string) {
    var f := Frame(out);
    f.rest == "" && |lines| <= |f.lines|
    && AllPassed(c, lines, f.lines[..|lines|]) && Closed(c, f.lines[|lines|..], LastPlace(c, lines, None))
  }

  /** The closing event as text. */
  lemma ClosingFrames(c: Codec, shape: Option<Shape>, last: Option<Place>, rest: string)
    requires c.parse("") == None && c.parse("[DONE]") == None && Prints(c, Synthetic(shape, rest))
    requires ShapeIs(shape, last) && rest != ""
    ensures var f := Frame("data: " + c.dump(Synthetic(shape, rest)) + "\n\n");
            f.rest == "" && Closed(c, f.lines, last) && Concat(Contents(c, f.lines)) == rest
  {
    hide Look, Find, Extract, Frame, Synthetic, Prints;
    ClosingIs(shape, last, rest);
    EventIsRead(c, Synthetic(shape, rest));
    var line := "data: " + c.dump(Synthetic(shape, rest));
    FrameEnds();
    FrameLine("", "");
    assert "" + "\n" + "" == "\n";
    FrameLine(line, "\n");
    assert line + "\n" + "\n" == line + "\n\n";
    assert [""] + [] == [""] && [line] + [""] == [line, ""];
    TwoLines(c, line, rest);
  }

  lemma FrameEnds()
    ensures Frame("") == Framed([], "")
  {}

  lemma TwoLines(c: Codec, line: string, x: string)
    requires Look(c, line).Event? && Look(c, line).content == x
    ensures Concat(Contents(c, [line, ""])) == x
  {
    hide Find, Extract;
    assert [line, ""][1..] == [""] && [""][1..] == [];
    assert Look(c, "") == Other;
    ConcatOne(x);
  }

  /** For every chunking: the text that is forwarded is read line by line as the lines that came in, each event at
      its place, and what closes the stream; and when the contents that came in are ready for a stream, the contents
      that are read are their restore. */
  lemma {:induction false} ForwardedReads(c: Codec, t: Tables, fams: seq<string>, chunks: seq<string>)
    requires Printer(c, BodyLines(Concat(chunks)))
    ensures var fed := FeedAll(c, t, fams, START, chunks);
            var fl := Flush(c, t, fams, fed.state);
            var out := Sse.Render(c, fed.items) + FlushText(c, fl);
            var lines := BodyLines(Concat(chunks));
            ReadsBack(c, lines, out)
            && var text := Concat(Contents(c, lines));
               Ready(t, fams, text) ==>
                 Output(Concat(Contents(c, Frame(out).lines)), fed.count + fl.count) == RestoreList(t, fams, text)
  {
    hide FeedAll, FeedChunk, Flush, BodyLines, AllLines, Contents, RestoreList, Matches, Ready, Sse.Render;
    hide Forwarded, Closed, AllPassed, Prints, Synthetic, Frame, Look, LastPlace, Extract;
    var lines := BodyLines(Concat(chunks));
    BodyRestored(c, t, fams, chunks);
    var fed := FeedAll(c, t, fams, START, chunks);
    var fl := Flush(c, t, fams, fed.state);
    var items := fed.items + fl.items;
    BodyUnbroken(Concat(chunks));
    TextsAreRead(c, lines, items);
    WholeBody(c, t, fams, Concat(chunks));
    ShapeIsLast(c, t, fams, Cursor("", None), lines, None);
    var tail := TailText(c, fl);
    RenderJoins(c, fed.items, fl.items);
    SumAssoc(Sse.Render(c, fed.items), Sse.Render(c, fl.items), tail);
    RenderFrames(c, items, tail);
    TailReads(c, fl, AllLines(c, t, fams, Cursor("", None), lines).cursor.shape, LastPlace(c, lines, None));
    PartsRead(c, lines, Texts(c, items), Frame(tail).lines);
  }

  function TailText(c: Codec, f: Flushed): string {
    match f.last
    case None => ""
    case Some(j) => "data: " + c.dump(j) + "\n\n"
  }

  lemma TailReads(c: Codec, fl: Flushed, shape: Option<Shape>, last: Option<Place>)
    requires c.parse("") == None && c.parse("[DONE]") == None && ShapeIs(shape, last)
    requires fl.last.Some? ==>
               exists rest :: rest != "" && fl.last.value == Synthetic(shape, rest) && Prints(c, Synthetic(shape, rest))
    ensures var f := Frame(TailText(c, fl));
            f.rest == "" && Closed(c, f.lines, last) && Concat(Contents(c, f.lines)) == LastText(fl)
  {
    hide Look, Find, Extract, Synthetic, Prints, Frame;
    if fl.last.Some? {
      var rest :| rest != "" && fl.last.value == Synthetic(shape, rest) && Prints(c, Synthetic(shape, rest));
      ClosingFrames(c, shape, last, rest);
      SyntheticExtracts(shape, rest);
    } else {
      FrameEnds();
    }
  }

  lemma {:induction false} PartsRead(c: Codec, lines: seq<string>, outs: seq<string>, more: seq<string>)
    requires |outs| == |lines|
    ensures (outs + more)[..|lines|] == outs && (outs + more)[|lines|..] == more
    ensures Concat(Contents(c, outs + more)) == Concat(Contents(c, outs)) + Concat(Contents(c, more))
  {
    ContentsJoin(c, outs, more);
    ConcatJoins(Contents(c, outs), Contents(c, more));
  }

  lemma {:induction false} ContentsJoin(c: Codec, a: seq<string>, b: seq<string>)
    ensures Contents(c, a + b) == Contents(c, a) + Contents(c, b)
    decreases |a|
  {
    hide Look;
    if a == [] {
      assert a + b == b;
      assert [] + Contents(c, b) == Contents(c, b);
    } else {
      ContentsJoin(c, a[1..], b);
      assert (a + b)[1..] == a[1..] + b;
      ContentsStep(c, a);
      ContentsStep(c, a + b);
      assert LineContents(c, a[0]) + (Contents(c, a[1..]) + Contents(c, b))
          == LineContents(c, a[0]) + Contents(c, a[1..]) + Contents(c, b);
    }
  }
}
