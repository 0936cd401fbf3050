/** Event-stream framing: lines are cut out of the chunks, the content of each JSON event
    is streamed, everything else is forwarded untouched. */
module Sse {
  import opened Text
  import opened Restore
  import opened Stream
  import opened Json
  import V = Vault

  datatype Shape = OpenAi | Ollama | Generic

  /** Where the text of an event is: `choices[0].delta.content`,
      `choices[0].message.content`, `message.content` or `content`. */
  datatype Place = Delta | ChoiceMessage | Message | Top

  function ShapeOf(p: Place): Shape {
    match p
    case Delta => OpenAi
    case ChoiceMessage => OpenAi
    case Message => Ollama
    case Top => Generic
  }

  /** The string at key `content`. */
  function ContentOf(j: Json): Option<string> {
    if j.Obj? && Has(j.fields, "content") && Get(j.fields, "content").Str? then Some(Get(j.fields, "content").s)
    else None
  }

  function SetContent(j: Json, text: string): Json
    requires ContentOf(j).Some?
  {
    Obj(Put(j.fields, "content", Str(text)))
  }

  /** The content below one key. */
  function ContentAt(j: Json, key: string): Option<string> {
    if j.Obj? && Has(j.fields, key) then ContentOf(Get(j.fields, key)) else None
  }

  function SetAt(j: Json, key: string, text: string): Json
    requires ContentAt(j, key).Some?
  {
    Obj(Put(j.fields, key, SetContent(Get(j.fields, key), text)))
  }

  /** The first choice of an OpenAI-compatible event. */
  function FirstChoice(j: Json): Option<Json> {
    if j.Obj? && Has(j.fields, "choices") then
      var ch := Get(j.fields, "choices");
      if ch.Arr? && ch.items != [] && ch.items[0].Obj? then Some(ch.items[0]) else None
    else None
  }

  function SetChoice(j: Json, c: Json): Json
    requires FirstChoice(j).Some?
  {
    Obj(Put(j.fields, "choices", Arr(Get(j.fields, "choices").items[0 := c])))
  }

  /** The known shapes, in the order they are tried. */
  function Find(j: Json): Option<Place> {
    if FirstChoice(j).Some? && ContentAt(FirstChoice(j).value, "delta").Some? then Some(Delta)
    else if FirstChoice(j).Some? && ContentAt(FirstChoice(j).value, "message").Some? then Some(ChoiceMessage)
    else if ContentAt(j, "message").Some? then Some(Message)
    else if ContentOf(j).Some? then Some(Top)
    else None
  }

  function Extract(j: Json): Option<string> {
    match Find(j)
    case None => None
    case Some(Delta) => ContentAt(FirstChoice(j).value, "delta")
    case Some(ChoiceMessage) => ContentAt(FirstChoice(j).value, "message")
    case Some(Message) => ContentAt(j, "message")
    case Some(Top) => ContentOf(j)
  }

  function Replace(j: Json, text: string): Json
    requires Find(j).Some?
  {
    match Find(j).value
    case Delta => SetChoice(j, SetAt(FirstChoice(j).value, "delta", text))
    case ChoiceMessage => SetChoice(j, SetAt(FirstChoice(j).value, "message", text))
    case Message => SetAt(j, "message", text)
    case Top => SetContent(j, text)
  }

  lemma SetContentIs(j: Json, text: string, key: string)
    requires ContentOf(j).Some?
    ensures ContentOf(SetContent(j, text)) == Some(text)
    ensures key != "content" ==> ContentAt(SetContent(j, text), key) == ContentAt(j, key)
    ensures FirstChoice(SetContent(j, text)) == FirstChoice(j)
  {
    PutGet(j.fields, "content", Str(text), "content");
    PutGet(j.fields, "content", Str(text), key);
    PutGet(j.fields, "content", Str(text), "choices");
  }

  lemma SetAtIs(j: Json, key: string, text: string, other: string)
    requires ContentAt(j, key).Some?
    ensures ContentAt(SetAt(j, key, text), key) == Some(text)
    ensures other != key ==> ContentAt(SetAt(j, key, text), other) == ContentAt(j, other)
    ensures key != "choices" ==> FirstChoice(SetAt(j, key, text)) == FirstChoice(j)
  {
    var c := SetContent(Get(j.fields, key), text);
    SetContentIs(Get(j.fields, key), text, "");
    PutGet(j.fields, key, c, key);
    PutGet(j.fields, key, c, other);
    PutGet(j.fields, key, c, "choices");
  }

  lemma SetChoiceIs(j: Json, c: Json)
    requires FirstChoice(j).Some? && c.Obj?
    ensures FirstChoice(SetChoice(j, c)) == Some(c)
  {
    PutGet(j.fields, "choices", Arr(Get(j.fields, "choices").items[0 := c]), "choices");
  }

  /** Writing a text into an event and reading it back: same place, that text. */
  lemma ReplaceExtracts(j: Json, text: string)
    requires Find(j).Some?
    ensures Find(Replace(j, text)) == Find(j) && Extract(Replace(j, text)) == Some(text)
  {
    match Find(j).value
    case Delta =>
      var c := FirstChoice(j).value;
      SetAtIs(c, "delta", text, "message");
      SetChoiceIs(j, SetAt(c, "delta", text));
    case ChoiceMessage =>
      var c := FirstChoice(j).value;
      SetAtIs(c, "message", text, "delta");
      SetChoiceIs(j, SetAt(c, "message", text));
    case Message => SetAtIs(j, "message", text, "");
    case Top => SetContentIs(j, text, "message");
  }

  // ---------- places as paths ----------

  datatype Step = Key(key: string) | First

  /** What stands at the end of a path of keys and first elements. */
  function At(j: Json, path: seq<Step>): Option<Json>
    decreases |path|
  {
    if path == [] then Some(j)
    else
      match path[0]
      case Key(k) => if j.Obj? && Has(j.fields, k) then At(Get(j.fields, k), path[1..]) else None
      case First => if j.Arr? && j.items != [] then At(j.items[0], path[1..]) else None
  }

  function PathOf(p: Place): seq<Step> {
    match p
    case Delta => [Key("choices"), First, Key("delta"), Key("content")]
    case ChoiceMessage => [Key("choices"), First, Key("message"), Key("content")]
    case Message => [Key("message"), Key("content")]
    case Top => [Key("content")]
  }

  /** The string at a place. */
  function TextAt(j: Json, p: Place): Option<string> {
    match At(j, PathOf(p))
    case Some(Str(x)) => Some(x)
    case _ => None
  }

  lemma StepsOf(j: Json, key: string)
    ensures At(j, [Key("content")])
         == if j.Obj? && Has(j.fields, "content") then Some(Get(j.fields, "content")) else None
    ensures At(j, [Key(key), Key("content")])
         == if j.Obj? && Has(j.fields, key) then At(Get(j.fields, key), [Key("content")]) else None
    ensures At(j, [Key("choices"), First, Key(key), Key("content")])
         == if j.Obj? && Has(j.fields, "choices") && Get(j.fields, "choices").Arr?
               && Get(j.fields, "choices").items != []
            then At(Get(j.fields, "choices").items[0], [Key(key), Key("content")]) else None
  {
    assert [Key("content")][1..] == [];
    assert [Key(key), Key("content")][1..] == [Key("content")];
    var path := [Key("choices"), First, Key(key), Key("content")];
    assert path[1..] == [First, Key(key), Key("content")];
    assert path[1..][1..] == [Key(key), Key("content")];
  }

  lemma TextsAre(j: Json)
    ensures TextAt(j, Top) == ContentOf(j) && TextAt(j, Message) == ContentAt(j, "message")
    ensures TextAt(j, Delta) == if FirstChoice(j).Some? then ContentAt(FirstChoice(j).value, "delta") else None
    ensures TextAt(j, ChoiceMessage)
         == if FirstChoice(j).Some? then ContentAt(FirstChoice(j).value, "message") else None
  {
    hide At, Has, Get;
    StepsOf(j, "message");
    StepsOf(j, "delta");
    if j.Obj? && Has(j.fields, "message") {
      StepsOf(Get(j.fields, "message"), "");
    }
    if j.Obj? && Has(j.fields, "choices") && Get(j.fields, "choices").Arr? && Get(j.fields, "choices").items != [] {
      var c := Get(j.fields, "choices").items[0];
      StepsOf(c, "message");
      StepsOf(c, "delta");
      if c.Obj? && Has(c.fields, "message") {
        StepsOf(Get(c.fields, "message"), "");
      }
      if c.Obj? && Has(c.fields, "delta") {
        StepsOf(Get(c.fields, "delta"), "");
      }
    }
  }

  const PLACES := [Delta, ChoiceMessage, Message, Top]

  /** An event's content is the string at the first place, in this order, that has one; without one the
      document is no event. */
  lemma FindIsFirst(j: Json)
    ensures Find(j).Some? <==> exists k | 0 <= k < 4 :: TextAt(j, PLACES[k]).Some?
    ensures forall k | 0 <= k < 4 ::
              Find(j) == Some(PLACES[k]) <==>
              TextAt(j, PLACES[k]).Some? && forall i | 0 <= i < k :: TextAt(j, PLACES[i]).None?
    ensures Find(j).Some? ==> Extract(j) == TextAt(j, Find(j).value)
  {
    hide TextAt, ContentOf, ContentAt, FirstChoice;
    TextsAre(j);
    assert PLACES[0] == Delta && PLACES[1] == ChoiceMessage && PLACES[2] == Message && PLACES[3] == Top;
  }

  lemma PutTwice(fs: seq<Field>, key: string, v: Json)
    requires Has(fs, key)
    ensures Has(Put(fs, key, v), key) && Put(Put(fs, key, v), key, Get(fs, key)) == fs
  {
    PutGet(fs, key, v, key);
    LookupSame(fs, Put(fs, key, v), key);
    var i := Lookup(fs, key);
    assert fs[i] == Field(key, Get(fs, key));
  }

  lemma ContentUndone(j: Json, text: string)
    requires ContentOf(j).Some?
    ensures ContentOf(SetContent(j, text)).Some? && SetContent(SetContent(j, text), ContentOf(j).value) == j
  {
    SetContentIs(j, text, "");
    PutTwice(j.fields, "content", Str(text));
  }

  lemma AtUndone(j: Json, key: string, text: string)
    requires ContentAt(j, key).Some?
    ensures ContentAt(SetAt(j, key, text), key).Some? && SetAt(SetAt(j, key, text), key, ContentAt(j, key).value) == j
  {
    SetAtIs(j, key, text, "");
    var c := Get(j.fields, key);
    ContentUndone(c, text);
    PutTwice(j.fields, key, SetContent(c, text));
    PutGet(j.fields, key, SetContent(c, text), key);
  }

  lemma ChoiceUndone(j: Json, c: Json)
    requires FirstChoice(j).Some? && c.Obj?
    ensures FirstChoice(SetChoice(j, c)) == Some(c) && SetChoice(SetChoice(j, c), FirstChoice(j).value) == j
  {
    SetChoiceIs(j, c);
    var a := Get(j.fields, "choices");
    var b := Arr(a.items[0 := c]);
    PutTwice(j.fields, "choices", b);
    PutGet(j.fields, "choices", b, "choices");
    assert b.items[0 := a.items[0]] == a.items;
  }

  /** Nothing else in the event is lost: writing the old text back gives the event. */
  lemma ReplaceUndone(j: Json, text: string)
    requires Find(j).Some? && Extract(j).Some?
    ensures Find(Replace(j, text)).Some? && Replace(Replace(j, text), Extract(j).value) == j
  {
    hide SetAt, SetChoice, SetContent, ContentAt, ContentOf, FirstChoice;
    ReplaceExtracts(j, text);
    match Find(j).value
    case Delta =>
      var c := FirstChoice(j).value;
      AtUndone(c, "delta", text);
      ChoiceIsObj(c, "delta", text);
      ChoiceUndone(j, SetAt(c, "delta", text));
    case ChoiceMessage =>
      var c := FirstChoice(j).value;
      AtUndone(c, "message", text);
      ChoiceIsObj(c, "message", text);
      ChoiceUndone(j, SetAt(c, "message", text));
    case Message => AtUndone(j, "message", text);
    case Top => ContentUndone(j, text);
  }

  lemma ChoiceIsObj(c: Json, key: string, text: string)
    requires ContentAt(c, key).Some?
    ensures SetAt(c, key, text).Obj?
  {}

  // ---------- lines ----------

  /** What a line is to the restorer. */
  datatype Seen = Other | Event(json: Json, content: string)

  /** A data line whose payload is JSON with a known content field. */
  function Look(c: Codec, line: string): Seen {
    if !("data:" <= line) then Other
    else
      var payload := V.Strip(line[5..]);
      if payload == "" || payload == "[DONE]" then Other
      else
        match c.parse(payload)
        case None => Other
        case Some(j) => if Find(j).Some? && Extract(j).Some? then Event(j, Extract(j).value) else Other
  }

  /** A data line with this document in it, whatever white space stands around it. */
  ghost predicate Carries(c: Codec, line: string, j: Json) {
    exists a, p, b :: CarriesAs(c, line, j, a, p, b)
  }

  predicate CarriesAs(c: Codec, line: string, j: Json, a: string, p: string, b: string) {
    line == "data:" + (a + p + b) && V.Spaces(a) && V.Spaces(b) && V.Stripped(p) && p != "" && p != "[DONE]"
    && c.parse(p) == Some(j)
  }

  lemma LineCarries(c: Codec, line: string)
    requires Look(c, line).Event?
    ensures var e := Look(c, line); Carries(c, line, e.json) && Find(e.json).Some? && Extract(e.json) == Some(e.content)
  {
    hide Find, Extract, V.Strip, V.Stripped, V.Spaces;
    var s := line[5..];
    V.StripIs(s);
    V.StripTakesSpace(s);
    var a, b :| V.Spaces(a) && V.Spaces(b) && s == a + V.Strip(s) + b;
    assert line == "data:" + s;
    assert CarriesAs(c, line, Look(c, line).json, a, V.Strip(s), b);
  }

  lemma CarrierIsSeen(c: Codec, line: string, j: Json, a: string, p: string, b: string)
    requires CarriesAs(c, line, j, a, p, b) && Find(j).Some? && Extract(j).Some?
    ensures Look(c, line) == Event(j, Extract(j).value)
  {
    hide Find, Extract, V.Strip, V.Stripped, V.Spaces;
    V.StripAround(a, p, b);
    assert line[5..] == a + p + b && "data:" <= line;
  }

  /** A line is an event exactly when it carries a document with a content, and then it is that event. */
  lemma LookIff(c: Codec, line: string)
    ensures forall j, x ::
              Look(c, line) == Event(j, x) <==> Carries(c, line, j) && Find(j).Some? && Extract(j) == Some(x)
  {
    hide Find, Extract, Look, CarriesAs;
    forall j, x | Look(c, line) == Event(j, x) ensures Carries(c, line, j) && Find(j).Some? && Extract(j) == Some(x) {
      LineCarries(c, line);
    }
    forall j, x | Carries(c, line, j) && Find(j).Some? && Extract(j) == Some(x) ensures Look(c, line) == Event(j, x) {
      var a, p, b :| CarriesAs(c, line, j, a, p, b);
      CarrierIsSeen(c, line, j, a, p, b);
    }
  }

  /** The restorer's buffer and the shape of the last content. */
  datatype Cursor = Cursor(buf: string, shape: Option<Shape>)

  /** What is forwarded: a line as it came, or an event with new content. */
  datatype Item = Same(line: string) | Changed(json: Json)

  datatype Lined = Lined(cursor: Cursor, items: seq<Item>, count: nat)

  /** One line. */
  function OneLine(c: Codec, t: Tables, fams: seq<string>, cur: Cursor, line: string): Lined {
    match Look(c, line)
    case Other => Lined(cur, [Same(line)], 0)
    case Event(j, text) =>
      var all := cur.buf + text;
      var cut := Cut(fams, all);
      var o := RestoreList(t, fams, all[..cut]);
      Lined(Cursor(all[cut..], Some(ShapeOf(Find(j).value))), [Changed(Replace(j, o.text))], o.count)
  }

  function AllLines(c: Codec, t: Tables, fams: seq<string>, cur: Cursor, lines: seq<string>): Lined
    decreases |lines|
  {
    if lines == [] then Lined(cur, [], 0)
    else
      var a := OneLine(c, t, fams, cur, lines[0]);
      var b := AllLines(c, t, fams, a.cursor, lines[1..]);
      Lined(b.cursor, a.items + b.items, a.count + b.count)
  }

  function LineText(c: Codec, item: Item): string {
    match item
    case Same(line) => line
    case Changed(j) => "data: " + c.dump(j)
  }

  /** Forwarded lines, each closed by a newline. */
  function Render(c: Codec, items: seq<Item>): string
    decreases |items|
  {
    if items == [] then "" else LineText(c, items[0]) + "\n" + Render(c, items[1..])
  }

  // ---------- framing ----------

  /** The complete lines of a text and what is behind the last newline. */
  datatype Framed = Framed(lines: seq<string>, rest: string)

  function Frame(s: string): Framed
    decreases |s|
  {
    var i := V.IndexOf(s, '\n');
    if i == |s| then Framed([], s)
    else
      var f := Frame(s[i + 1..]);
      Framed([s[..i]] + f.lines, f.rest)
  }

  lemma IndexOfSum(a: string, b: string, c: char)
    ensures V.IndexOf(a, c) < |a| ==> V.IndexOf(a + b, c) == V.IndexOf(a, c)
    ensures V.IndexOf(a, c) == |a| ==> V.IndexOf(a + b, c) == |a| + V.IndexOf(b, c)
  {
    var i, j, k := V.IndexOf(a, c), V.IndexOf(b, c), V.IndexOf(a + b, c);
    var s := a + b;
    assert forall x | 0 <= x < |a| :: s[x] == a[x];
    assert forall x | 0 <= x < |b| :: s[|a| + x] == b[x];
    if i < |a| {
      assert s[i] == c;
      assert k <= i;
      assert a[k] == s[k];
    } else {
      if j < |b| {
        assert s[|a| + j] == c;
      }
      assert k >= |a|;
      if k < |s| {
        assert b[k - |a|] == c;
      }
    }
  }

  /** Framing a text is framing its first part and then what is left with the second. */
  lemma {:induction false} FrameSplits(a: string, b: string)
    ensures Frame(a + b) == Framed(Frame(a).lines + Frame(Frame(a).rest + b).lines, Frame(Frame(a).rest + b).rest)
    decreases |a|
  {
    hide V.IndexOf, Frame;
    var i := V.IndexOf(a, '\n');
    FrameUnfolds(a);
    if i == |a| {
      assert [] + Frame(a + b).lines == Frame(a + b).lines;
    } else {
      FrameSplits(a[i + 1..], b);
      FrameFirst(a, b);
      var f := Frame(a[i + 1..]);
      assert [a[..i]] + (f.lines + Frame(f.rest + b).lines) == [a[..i]] + f.lines + Frame(f.rest + b).lines;
    }
  }

  lemma FrameUnfolds(s: string)
    ensures var i := V.IndexOf(s, '\n');
            Frame(s) == if i == |s| then Framed([], s)
                        else Framed([s[..i]] + Frame(s[i + 1..]).lines, Frame(s[i + 1..]).rest)
  {
    hide V.IndexOf;
  }

  lemma FrameFirst(a: string, b: string)
    requires V.IndexOf(a, '\n') < |a|
    ensures var i := V.IndexOf(a, '\n');
            Frame(a + b) == Framed([a[..i]] + Frame(a[i + 1..] + b).lines, Frame(a[i + 1..] + b).rest)
  {
    hide V.IndexOf, Frame;
    var i := V.IndexOf(a, '\n');
    IndexOfSum(a, b, '\n');
    DropSum(a, b, i);
    DropSum(a, b, i + 1);
    FrameUnfolds(a + b);
  }

  // ---------- a whole body ----------

  /** The framing state between chunks. */
  datatype State = State(linebuf: string, cursor: Cursor)

  datatype Fed = Fed(state: State, items: seq<Item>, count: nat)

  function FeedChunk(c: Codec, t: Tables, fams: seq<string>, st: State, chunk: string): Fed {
    var f := Frame(st.linebuf + chunk);
    var r := AllLines(c, t, fams, st.cursor, f.lines);
    Fed(State(f.rest, r.cursor), r.items, r.count)
  }

  function FeedAll(c: Codec, t: Tables, fams: seq<string>, st: State, chunks: seq<string>): Fed
    decreases |chunks|
  {
    if chunks == [] then Fed(st, [], 0)
    else
      var a := FeedChunk(c, t, fams, st, chunks[0]);
      var b := FeedAll(c, t, fams, a.state, chunks[1..]);
      Fed(b.state, a.items + b.items, a.count + b.count)
  }

  lemma {:induction false} AllLinesSplit(c: Codec, t: Tables, fams: seq<string>, cur: Cursor, a: seq<string>,
                                         b: seq<string>)
    ensures var x := AllLines(c, t, fams, cur, a);
            var y := AllLines(c, t, fams, x.cursor, b);
            AllLines(c, t, fams, cur, a + b) == Lined(y.cursor, x.items + y.items, x.count + y.count)
    decreases |a|
  {
    hide OneLine;
    if a == [] {
      assert a + b == b;
      assert [] + AllLines(c, t, fams, cur, b).items == AllLines(c, t, fams, cur, b).items;
    } else {
      var o := OneLine(c, t, fams, cur, a[0]);
      AllLinesSplit(c, t, fams, o.cursor, a[1..], b);
      assert (a + b)[1..] == a[1..] + b;
      var x := AllLines(c, t, fams, o.cursor, a[1..]);
      var y := AllLines(c, t, fams, x.cursor, b);
      assert o.items + (x.items + y.items) == o.items + x.items + y.items;
    }
  }

  /** However a body is cut into chunks, the framing state and the forwarded items are
      those of the whole body in one piece. */
  lemma {:induction false} FramingInvariant(c: Codec, t: Tables, fams: seq<string>, st: State, chunks: seq<string>)
    requires V.IndexOf(st.linebuf, '\n') == |st.linebuf|
    ensures FeedAll(c, t, fams, st, chunks) == FeedChunk(c, t, fams, st, Concat(chunks))
    decreases |chunks|
  {
    hide AllLines, V.IndexOf;
    if chunks == [] {
      assert st.linebuf + Concat(chunks) == st.linebuf;
      NoLines(c, t, fams, st.cursor);
    } else {
      var z := Concat(chunks[1..]);
      var f := Frame(st.linebuf + chunks[0]);
      var a := FeedChunk(c, t, fams, st, chunks[0]);
      RestHasNoBreak(st.linebuf + chunks[0]);
      FramingInvariant(c, t, fams, a.state, chunks[1..]);
      SumAssoc(st.linebuf, chunks[0], z);
      FrameSplits(st.linebuf + chunks[0], z);
      AllLinesSplit(c, t, fams, st.cursor, f.lines, Frame(f.rest + z).lines);
    }
  }

  lemma NoLines(c: Codec, t: Tables, fams: seq<string>, cur: Cursor)
    ensures AllLines(c, t, fams, cur, []) == Lined(cur, [], 0)
  {}

  lemma {:induction false} RestHasNoBreak(s: string)
    ensures V.IndexOf(Frame(s).rest, '\n') == |Frame(s).rest|
    decreases |s|
  {
    hide V.IndexOf;
    var i := V.IndexOf(s, '\n');
    if i < |s| {
      RestHasNoBreak(s[i + 1..]);
    }
  }

  // ---------- the end of the stream ----------

  /** The event that carries the rest of the text, in the shape last seen. */
  function Synthetic(shape: Option<Shape>, rest: string): Json {
    var content := Field("content", Str(rest));
    match shape
    case Some(Ollama) => Obj([Field("message", Obj([content]))])
    case Some(OpenAi) => Obj([Field("choices", Arr([Obj([Field("delta", Obj([content]))])]))])
    case _ => Obj([content])
  }

  lemma SyntheticExtracts(shape: Option<Shape>, rest: string)
    ensures Extract(Synthetic(shape, rest)) == Some(rest)
  {
    var inner := Obj([Field("content", Str(rest))]);
    assert ContentOf(inner) == Some(rest);
    var d := Obj([Field("delta", inner)]);
    assert ContentAt(d, "delta") == Some(rest);
  }

  /** Flushing: the unfinished line, then the rest of the buffer if there is any. */
  datatype Flushed = Flushed(items: seq<Item>, last: Option<Json>, count: nat)

  function Flush(c: Codec, t: Tables, fams: seq<string>, st: State): Flushed {
    var r := if st.linebuf == "" then Lined(st.cursor, [], 0) else OneLine(c, t, fams, st.cursor, st.linebuf);
    var o := RestoreList(t, fams, r.cursor.buf);
    Flushed(r.items, if o.text == "" then None else Some(Synthetic(r.cursor.shape, o.text)), r.count + o.count)
  }

  function FlushText(c: Codec, f: Flushed): string {
    Render(c, f.items) + match f.last case None => "" case Some(j) => "data: " + c.dump(j) + "\n\n"
  }

  /** The lines of a body: the last one counts when it is not empty. */
  function BodyLines(s: string): seq<string> {
    var f := Frame(s);
    if f.rest == "" then f.lines else f.lines + [f.rest]
  }

  /** The content texts of the events among the lines. */
  function Contents(c: Codec, lines: seq<string>): seq<string>
    decreases |lines|
  {
    if lines == [] then []
    else
      match Look(c, lines[0])
      case Other => Contents(c, lines[1..])
      case Event(_, text) => [text] + Contents(c, lines[1..])
  }

  /** The content texts of the forwarded items, put together. */
  function Forwarded(items: seq<Item>): string
    decreases |items|
  {
    if items == [] then ""
    else
      (match items[0]
       case Same(_) => ""
       case Changed(j) => (match Extract(j) case Some(x) => x case None => "")) + Forwarded(items[1..])
  }

  /** Line by line: what is not an event is forwarded as it came, and an event stays an
      event, with its content in the same place. */
  ghost predicate Matches(c: Codec, lines: seq<string>, items: seq<Item>) {
    |items| == |lines|
    && forall i | 0 <= i < |lines| :: MatchesLine(c, lines[i], items[i])
  }

  predicate MatchesLine(c: Codec, line: string, item: Item) {
    match Look(c, line)
    case Other => item == Same(line)
    case Event(j, _) =>
      item.Changed? && Find(item.json) == Find(j) && Extract(item.json).Some?
      && item.json == Replace(j, Extract(item.json).value)
  }

  lemma {:induction false} LinesMatch(c: Codec, t: Tables, fams: seq<string>, cur: Cursor, lines: seq<string>)
    ensures Matches(c, lines, AllLines(c, t, fams, cur, lines).items)
    decreases |lines|
  {
    hide Look, Find, Replace, Extract, Cut;
    if lines != [] {
      var o := OneLine(c, t, fams, cur, lines[0]);
      LineMatches(c, t, fams, cur, lines[0]);
      LinesMatch(c, t, fams, o.cursor, lines[1..]);
      var rest := AllLines(c, t, fams, o.cursor, lines[1..]).items;
      var all := AllLines(c, t, fams, cur, lines).items;
      assert all == o.items + rest;
      forall i | 0 <= i < |lines| ensures MatchesLine(c, lines[i], all[i]) {
        if i > 0 {
          assert all[i] == rest[i - 1] && lines[i] == lines[1..][i - 1];
        }
      }
    }
  }

  lemma LineMatches(c: Codec, t: Tables, fams: seq<string>, cur: Cursor, line: string)
    ensures var o := OneLine(c, t, fams, cur, line);
            |o.items| == 1 && MatchesLine(c, line, o.items[0])
  {
    hide Extract, Replace, Find, Cut;
    match Look(c, line)
    case Other =>
    case Event(j, text) =>
      LookFinds(c, line);
      var all := cur.buf + text;
      var x := RestoreList(t, fams, all[..Cut(fams, all)]).text;
      ReplaceExtracts(j, x);
      assert OneLine(c, t, fams, cur, line).items[0] == Changed(Replace(j, x));
  }

  lemma LookFinds(c: Codec, line: string)
    ensures match Look(c, line) case Other => true case Event(j, text) => Find(j).Some? && Extract(j) == Some(text)
  {}

  /** The restorer of a stream sees the contents of the events, one after the other. */
  lemma {:induction false} LinesAreStream(c: Codec, t: Tables, fams: seq<string>, cur: Cursor, lines: seq<string>)
    ensures var r := AllLines(c, t, fams, cur, lines);
            Stream.Run(t, fams, cur.buf, Contents(c, lines))
            == Join(Output(Forwarded(r.items), r.count), RestoreList(t, fams, r.cursor.buf))
    decreases |lines|
  {
    hide Look, Find, Replace, Extract, Cut, RestoreList;
    if lines == [] {
      var o := RestoreList(t, fams, cur.buf);
      assert "" + o.text == o.text;
    } else {
      var o := OneLine(c, t, fams, cur, lines[0]);
      LineIsFeed(c, t, fams, cur, lines[0], Contents(c, lines[1..]));
      LinesAreStream(c, t, fams, o.cursor, lines[1..]);
      var r := AllLines(c, t, fams, o.cursor, lines[1..]);
      ForwardedJoins(o.items, r.items);
      var last := RestoreList(t, fams, r.cursor.buf);
      SumAssoc(Forwarded(o.items), Forwarded(r.items), last.text);
      ContentsStep(c, lines);
    }
  }

  /** The contents of one line. */
  function LineContents(c: Codec, line: string): seq<string> {
    match Look(c, line)
    case Other => []
    case Event(_, text) => [text]
  }

  lemma ContentsStep(c: Codec, lines: seq<string>)
    requires lines != []
    ensures Contents(c, lines) == LineContents(c, lines[0]) + Contents(c, lines[1..])
  {
    hide Look, Extract;
    LookFinds(c, lines[0]);
    assert [] + Contents(c, lines[1..]) == Contents(c, lines[1..]);
  }

  lemma LineIsFeed(c: Codec, t: Tables, fams: seq<string>, cur: Cursor, line: string, more: seq<string>)
    ensures var o := OneLine(c, t, fams, cur, line);
            Stream.Run(t, fams, cur.buf, LineContents(c, line) + more)
            == Join(Output(Forwarded(o.items), o.count), Stream.Run(t, fams, o.cursor.buf, more))
  {
    hide Look, Find, Replace, Extract, Cut, RestoreList, Stream.Run;
    LookFinds(c, line);
    var o := OneLine(c, t, fams, cur, line);
    match Look(c, line)
    case Other =>
      assert [] + more == more;
      ForwardedOne(Same(line));
      var x := Stream.Run(t, fams, cur.buf, more);
      assert "" + x.text == x.text;
    case Event(j, text) =>
      var all := cur.buf + text;
      var out := RestoreList(t, fams, all[..Cut(fams, all)]);
      assert ([text] + more)[0] == text && ([text] + more)[1..] == more;
      RunUnfolds(t, fams, cur.buf, [text] + more);
      ListIs(t, fams, all[..Cut(fams, all)]);
      ReplaceExtracts(j, out.text);
      ForwardedOne(Changed(Replace(j, out.text)));
  }

  lemma ListIs(t: Tables, fams: seq<string>, s: string)
    ensures RestoreList(t, fams, s) == PassOut(t, Passes(fams), s)
  {}

  lemma ForwardedOne(item: Item)
    ensures Forwarded([item]) == match item
                                 case Same(_) => ""
                                 case Changed(j) => (match Extract(j) case Some(x) => x case None => "")
  {
    hide Extract;
    assert [item][1..] == [];
    assert Forwarded([]) == "";
  }

  lemma {:induction false} ForwardedJoins(a: seq<Item>, b: seq<Item>)
    ensures Forwarded(a + b) == Forwarded(a) + Forwarded(b)
    decreases |a|
  {
    hide Extract;
    if a == [] {
      assert a + b == b && "" + Forwarded(b) == Forwarded(b);
    } else {
      ForwardedJoins(a[1..], b);
      assert (a + b)[1..] == a[1..] + b;
      ForwardedStep(a);
      ForwardedStep(a + b);
      SumAssoc(Forwarded([a[0]]), Forwarded(a[1..]), Forwarded(b));
    }
  }

  lemma ForwardedStep(a: seq<Item>)
    requires a != []
    ensures Forwarded(a) == Forwarded([a[0]]) + Forwarded(a[1..])
  {
    hide Extract;
    ForwardedOne(a[0]);
  }

  /** The content of the closing event, if there is one. */
  function LastText(f: Flushed): string {
    match f.last
    case None => ""
    case Some(j) => (match Extract(j) case Some(x) => x case None => "")
  }

  const START := State("", Cursor("", None))

  /** The body as one piece, line by line. */
  lemma WholeBody(c: Codec, t: Tables, fams: seq<string>, body: string)
    ensures var fed := FeedChunk(c, t, fams, START, body);
            var fl := Flush(c, t, fams, fed.state);
            var r := AllLines(c, t, fams, Cursor("", None), BodyLines(body));
            fed.items + fl.items == r.items
            && (var last := RestoreList(t, fams, r.cursor.buf).text;
                fl.last == if last == "" then None else Some(Synthetic(r.cursor.shape, last)))
            && LastText(fl) == RestoreList(t, fams, r.cursor.buf).text
            && fed.count + fl.count == r.count + RestoreList(t, fams, r.cursor.buf).count
  {
    hide OneLine, Frame, RestoreList, Extract, Synthetic;
    assert "" + body == body;
    var f := Frame(body);
    var x := AllLines(c, t, fams, Cursor("", None), f.lines);
    AllLinesSplit(c, t, fams, Cursor("", None), f.lines, [f.rest]);
    OneIsAll(c, t, fams, x.cursor, f.rest);
    var fl := Flush(c, t, fams, State(f.rest, x.cursor));
    var last := if f.rest == "" then x.cursor else OneLine(c, t, fams, x.cursor, f.rest).cursor;
    SyntheticExtracts(last.shape, RestoreList(t, fams, last.buf).text);
    assert x.items + [] == x.items;
  }

  lemma OneIsAll(c: Codec, t: Tables, fams: seq<string>, cur: Cursor, line: string)
    ensures AllLines(c, t, fams, cur, [line]) == OneLine(c, t, fams, cur, line)
  {
    hide OneLine;
    assert [line][1..] == [];
    var o := OneLine(c, t, fams, cur, line);
    assert o.items + [] == o.items;
  }

  /** Families and a text for which no cut of a stream shows. */
  ghost predicate Ready(t: Tables, fams: seq<string>, text: string) {
    StreamFams(fams) && Unnested(fams) && Tame(t, Passes(fams), text) && forall f | f in Passes(fams) :: f in fams
  }

  /** For every chunking of an event-stream body: what is forwarded is the same; lines that
      are no content events pass unchanged and in order; and when the contents that came in
      are ready for a stream, the contents of the forwarded events, with the closing one, are
      their restore, and the count is its count. */
  lemma BodyRestored(c: Codec, t: Tables, fams: seq<string>, chunks: seq<string>)
    ensures var fed := FeedAll(c, t, fams, START, chunks);
            var fl := Flush(c, t, fams, fed.state);
            var lines := BodyLines(Concat(chunks));
            fed == FeedChunk(c, t, fams, START, Concat(chunks))
            && Matches(c, lines, fed.items + fl.items)
            && (Ready(t, fams, Concat(Contents(c, lines))) ==>
                  Output(Forwarded(fed.items + fl.items) + LastText(fl), fed.count + fl.count)
                  == RestoreList(t, fams, Concat(Contents(c, lines))))
  {
    hide FeedAll, FeedChunk, Flush, BodyLines, AllLines, Contents, Stream.Run, RestoreList, Matches;
    hide LastText, Forwarded;
    hide Tame, Unnested;
    var body := Concat(chunks);
    var lines := BodyLines(body);
    FramingInvariant(c, t, fams, START, chunks);
    WholeBody(c, t, fams, body);
    LinesMatch(c, t, fams, Cursor("", None), lines);
    LinesAreStream(c, t, fams, Cursor("", None), lines);
    var contents := Contents(c, lines);
    assert "" + Concat(contents) == Concat(contents);
    if Ready(t, fams, Concat(contents)) {
      RunIsWhole(t, fams, "", contents);
    }
  }
}
