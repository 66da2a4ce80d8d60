/** The event frames between engine, backend and browser (the `event:`/`data:` subset of
    server-sent events), read back incrementally from text that may be cut anywhere. */
module ServerSentEvents {
  import opened Text

  datatype Json =
    | JNull
    | JBool(b: bool)
    | JNum(n: int)
    | JStr(s: string)
    | JArr(items: seq<Json>)
    | JObj(fields: map<string, Json>)

  datatype Frame = Frame(event: string, data: Json)

  /** A JSON writer whose output is one line and is read back by `parse`. */
  ghost predicate Writes(write: Json -> string, parse: string -> Option<Json>) {
    forall v :: NoNewline(write(v)) && parse(write(v)) == Some(v)
  }

  // ---- printing -----------------------------------------------------------------------------

  const SEPARATOR := "\n\n"

  function Body(f: Frame, write: Json -> string): string {
    "event: " + f.event + "\n" + ("data: " + write(f.data))
  }

  function Print(f: Frame, write: Json -> string): string { Body(f, write) + SEPARATOR }

  function PrintAll(fs: seq<Frame>, write: Json -> string): string {
    if fs == [] then "" else Print(fs[0], write) + PrintAll(fs[1..], write)
  }

  function Bodies(fs: seq<Frame>, write: Json -> string): (bodies: seq<string>) {
    seq(|fs|, i requires 0 <= i < |fs| => Body(fs[i], write))
  }

  /** Event names are literals in the code: one line, no blanks around them. */
  predicate CleanNames(fs: seq<Frame>) {
    forall i :: 0 <= i < |fs| ==> NoNewline(fs[i].event) && Trimmed(fs[i].event)
  }

  // ---- cutting text into frames -------------------------------------------------------------

  datatype Split = Split(frames: seq<string>, rest: string)

  /** The whole-text meaning of the scanner: complete frames, and the unfinished remainder. */
  function SplitFrames(text: string): Split {
    var sep := Find(text, SEPARATOR);
    if sep < 0 then Split([], text)
    else
      var later := SplitFrames(text[sep + 2..]);
      Split([text[..sep]] + later.frames, later.rest)
  }

  /** Scanning is incremental: the frames of a longer text are the frames found so far followed
      by those of the remainder joined to the new text. */
  lemma {:induction false} SplitAppend(a: string, b: string)
    ensures var first := SplitFrames(a);
            var second := SplitFrames(first.rest + b);
            SplitFrames(a + b) == Split(first.frames + second.frames, second.rest)
    decreases |a|
  {
    var sep := Find(a, SEPARATOR);
    if sep < 0 {
      assert [] + SplitFrames(a + b).frames == SplitFrames(a + b).frames;
    } else {
      SplitAppend(a[sep + 2..], b);
      FirstFrame(a, sep);
      FirstFrameOfMore(a, b, sep);
      var first := SplitFrames(a[sep + 2..]);
      Regroup([a[..sep]], first.frames, SplitFrames(first.rest + b).frames);
    }
  }

  lemma FirstFrame(a: string, sep: nat)
    requires Find(a, SEPARATOR) == sep
    ensures SplitFrames(a) == Split([a[..sep]] + SplitFrames(a[sep + 2..]).frames, SplitFrames(a[sep + 2..]).rest)
  {
  }

  lemma FirstFrameOfMore(a: string, b: string, sep: nat)
    requires Find(a, SEPARATOR) == sep
    ensures SplitFrames(a + b)
            == Split([a[..sep]] + SplitFrames(a[sep + 2..] + b).frames, SplitFrames(a[sep + 2..] + b).rest)
  {
    FindStable(a, b, SEPARATOR);
    assert (a + b)[..sep] == a[..sep];
    assert (a + b)[sep + 2..] == a[sep + 2..] + b;
    FirstFrame(a + b, sep);
  }

  /** A frame's body contains no separator, so the first separator is the one printed after it. */
  lemma SeparatorEndsFrame(f: Frame, write: Json -> string, parse: string -> Option<Json>, more: string)
    requires Writes(write, parse) && NoNewline(f.event)
    ensures Find(Print(f, write) + more, SEPARATOR) == |Body(f, write)|
  {
    var head, tail := "event: " + f.event, "data: " + write(f.data);
    assert NoNewline(write(f.data));
    var body := head + "\n" + tail;
    var text := Print(f, write) + more;
    assert text == body + SEPARATOR + more;
    forall i: nat | i < |body|
      ensures !OccursAt(text, SEPARATOR, i)
    {
      assert text[i..i + 2] == [text[i], text[i + 1]];
      if i == |head| {
        assert text[i + 1] == tail[0];
      } else {
        assert text[i] != '\n';
      }
    }
    assert text[|body|..|body| + 2] == SEPARATOR;
    FindIs(text, SEPARATOR, |body|);
  }

  /** Printed frames are cut back exactly. */
  lemma {:induction false} SplitPrinted(fs: seq<Frame>, write: Json -> string, parse: string -> Option<Json>)
    requires Writes(write, parse) && CleanNames(fs)
    ensures SplitFrames(PrintAll(fs, write)) == Split(Bodies(fs, write), "")
  {
    if fs == [] {
      assert Bodies(fs, write) == [];
    } else {
      var text, body, more := PrintAll(fs, write), Body(fs[0], write), PrintAll(fs[1..], write);
      SeparatorEndsFrame(fs[0], write, parse, more);
      assert text[..|body|] == body;
      assert text[|body| + 2..] == more;
      SplitPrinted(fs[1..], write, parse);
      assert Bodies(fs, write) == [body] + Bodies(fs[1..], write);
    }
  }

  // ---- parsing one frame --------------------------------------------------------------------

  /** The value of the last `event:` line, trimmed; "message" when there is none. */
  function EventName(lines: seq<string>): string {
    if lines == [] then "message"
    else
      var last := lines[|lines| - 1];
      if StartsWith(last, "event:") then Trim(last[6..]) else EventName(lines[..|lines| - 1])
  }

  /** `line.slice(5).replace(/^ /, '')`. */
  function DataValue(line: string): string
    requires StartsWith(line, "data:")
  {
    if StartsWith(line[5..], " ") then line[6..] else line[5..]
  }

  function DataLines(lines: seq<string>): seq<string> {
    if lines == [] then []
    else
      var last := lines[|lines| - 1];
      var earlier := DataLines(lines[..|lines| - 1]);
      if StartsWith(last, "data:") then earlier + [DataValue(last)] else earlier
  }

  function Decode(frame: string, parse: string -> Option<Json>): Option<Frame> {
    var lines := SplitLines(frame);
    var data := DataLines(lines);
    if data == [] then None
    else match parse(JoinLines(data))
         case None => None
         case Some(v) => Some(Frame(EventName(lines), v))
  }

  method ParseFrame(frame: string, parse: string -> Option<Json>) returns (evt: Option<Frame>)
    ensures evt == Decode(frame, parse)
  {
    var event := "message";
    var dataLines: seq<string> := [];
    var lines := SplitLines(frame);
    for i := 0 to |lines|
      invariant event == EventName(lines[..i])
      invariant dataLines == DataLines(lines[..i])
    {
      var line := lines[i];
      assert lines[..i + 1][..i] == lines[..i];
      if StartsWith(line, "event:") {
        assert line[0] == line[..6][0] == 'e';
        event := Trim(line[6..]);
      } else if StartsWith(line, "data:") {
        dataLines := dataLines + [DataValue(line)];
      }
    }
    assert lines[..|lines|] == lines;
    if dataLines == [] { return None; }
    match parse(JoinLines(dataLines)) {
      case None => return None;
      case Some(v) => return Some(Frame(event, v));
    }
  }

  lemma BodyLines(f: Frame, write: Json -> string, parse: string -> Option<Json>)
    requires Writes(write, parse) && NoNewline(f.event)
    ensures SplitLines(Body(f, write)) == ["event: " + f.event] + ["data: " + write(f.data)]
  {
    assert NoNewline(write(f.data));
    OneLine("data: " + write(f.data));
    FirstLine("event: " + f.event, "data: " + write(f.data));
  }

  lemma EventLine(value: string)
    requires Trimmed(value)
    ensures var line := "event: " + value;
            StartsWith(line, "event:") && !StartsWith(line, "data:") && Trim(line[6..]) == value
  {
    var line := "event: " + value;
    assert line[..5][0] == 'e';
    assert line[6..] == " " + value;
    TrimBlank(value);
  }

  lemma DataLine(value: string)
    ensures var line := "data: " + value;
            StartsWith(line, "data:") && !StartsWith(line, "event:") && DataValue(line) == value
  {
    var line := "data: " + value;
    assert |line| >= 6 ==> line[..6][0] == 'd';
    assert line[5..] == " " + value;
    assert line[6..] == value;
  }

  lemma TwoLines(first: string, second: string)
    requires StartsWith(first, "event:") && !StartsWith(first, "data:")
    requires StartsWith(second, "data:") && !StartsWith(second, "event:")
    ensures EventName([first] + [second]) == Trim(first[6..])
    ensures DataLines([first] + [second]) == [DataValue(second)]
  {
    var lines := [first] + [second];
    assert lines[..1] == [first] && [first][..0] == [];
    assert EventName([first]) == Trim(first[6..]);
    assert DataLines([first]) == [];
    assert DataLines(lines) == [] + [DataValue(second)];
  }

  /** A printed frame parses back to itself. */
  lemma DecodePrinted(f: Frame, write: Json -> string, parse: string -> Option<Json>)
    requires Writes(write, parse) && NoNewline(f.event) && Trimmed(f.event)
    ensures Decode(Body(f, write), parse) == Some(f)
  {
    BodyLines(f, write, parse);
    EventLine(f.event);
    DataLine(write(f.data));
    TwoLines("event: " + f.event, "data: " + write(f.data));
  }

  // ---- frames in general ----------------------------------------------------------------------

  function DataText(value: string): string { "data: " + value }

  function EventText(name: string): string { "event: " + name }

  /** A `data:` line for each value. */
  function DataFor(values: seq<string>): seq<string> {
    seq(|values|, i requires 0 <= i < |values| => DataText(values[i]))
  }

  /** The lines name this event and carry these values. */
  ghost predicate Gives(lines: seq<string>, event: string, values: seq<string>) {
    EventName(lines) == event && DataLines(lines) == values
  }

  lemma DataSnoc(lines: seq<string>, event: string, values: seq<string>, value: string)
    requires Gives(lines, event, values)
    ensures Gives(lines + [DataText(value)], event, values + [value])
  {
    DataLine(value);
    assert (lines + [DataText(value)])[..|lines|] == lines;
  }

  lemma DataForSnoc(first: seq<string>, values: seq<string>)
    requires values != []
    ensures var n := |values| - 1;
            first + DataFor(values) == first + DataFor(values[..n]) + [DataText(values[n])]
  {
  }

  lemma {:induction false} DataLinesGive(first: seq<string>, event: string, values: seq<string>)
    requires Gives(first, event, [])
    ensures Gives(first + DataFor(values), event, values)
  {
    if values == [] {
      AppendNothing(first);
      assert DataFor(values) == [];
    } else {
      var n := |values| - 1;
      DataLinesGive(first, event, values[..n]);
      DataSnoc(first + DataFor(values[..n]), event, values[..n], values[n]);
      DataForSnoc(first, values);
      assert values == values[..n] + [values[n]];
    }
  }

  function FrameOf(event: string, data: Option<Json>): Option<Frame> {
    match data case None => None case Some(v) => Some(Frame(event, v))
  }

  lemma DecodeJoined(lines: seq<string>, event: string, values: seq<string>, parse: string -> Option<Json>)
    requires lines != [] && AllOneLine(lines) && Gives(lines, event, values) && values != []
    ensures Decode(JoinLines(lines), parse) == FrameOf(event, parse(JoinLines(values)))
  {
    SplitJoined(lines);
  }

  lemma TextsAreOneLine(name: string, values: seq<string>)
    requires NoNewline(name) && AllOneLine(values)
    ensures AllOneLine(DataFor(values)) && AllOneLine([EventText(name)] + DataFor(values))
  {
    forall i | 0 <= i < |values|
      ensures NoNewline(DataText(values[i]))
    {
      assert NoNewline(values[i]) && NoNewline("data: ");
    }
    assert NoNewline("event: ") && NoNewline(EventText(name));
  }

  /** A frame's data are its `data:` lines joined by newlines, and its event is the one named … */
  lemma DecodeNamed(name: string, values: seq<string>, parse: string -> Option<Json>)
    requires NoNewline(name) && Trimmed(name) && values != [] && AllOneLine(values)
    ensures Decode(JoinLines([EventText(name)] + DataFor(values)), parse) == FrameOf(name, parse(JoinLines(values)))
  {
    NamedLine(name);
    DataLinesGive([EventText(name)], name, values);
    TextsAreOneLine(name, values);
    DecodeJoined([EventText(name)] + DataFor(values), name, values, parse);
  }

  /** … or "message". */
  lemma DecodeUnnamed(values: seq<string>, parse: string -> Option<Json>)
    requires values != [] && AllOneLine(values)
    ensures Decode(JoinLines(DataFor(values)), parse) == FrameOf("message", parse(JoinLines(values)))
  {
    DataLinesGive([], "message", values);
    AppendNothing(DataFor(values));
    TextsAreOneLine("", values);
    DecodeJoined(DataFor(values), "message", values, parse);
  }

  lemma NamedLine(name: string)
    requires Trimmed(name)
    ensures Gives([EventText(name)], name, [])
  {
    EventLine(name);
    assert [EventText(name)][..0] == [];
  }

  /** Without a `data:` line there is no frame. */
  lemma NoDataNoFrame(name: string, parse: string -> Option<Json>)
    requires NoNewline(name) && Trimmed(name)
    ensures Decode(EventText(name), parse) == None
  {
    NamedLine(name);
    assert NoNewline("event: ");
    OneLine(EventText(name));
  }

  lemma TrimBlank(s: string)
    requires Trimmed(s)
    ensures Trim(" " + s) == s
  {
    assert (" " + s)[1..] == s;
    TrimIsTrimmed(s);
  }

  // ---- the read loop ------------------------------------------------------------------------

  /** What handling one frame does: pass something on, or throw out of the loop. */
  datatype Reaction<+O> = Emit(out: seq<O>) | Throw

  datatype Outcome<+O> = Outcome(out: seq<O>, threw: bool)

  /** Handling items in order until one throws. */
  function Handle<I, O>(react: I -> Reaction<O>, items: seq<I>): Outcome<O> {
    if items == [] then Outcome([], false)
    else
      var before := Handle(react, items[..|items| - 1]);
      if before.threw then before
      else match react(items[|items| - 1])
           case Emit(out) => Outcome(before.out + out, false)
           case Throw => Outcome(before.out, true)
  }

  lemma HandleSnoc<I, O>(react: I -> Reaction<O>, items: seq<I>, item: I)
    ensures var before := Handle(react, items);
            Handle(react, items + [item]) ==
              if before.threw then before
              else match react(item)
                   case Emit(out) => Outcome(before.out + out, false)
                   case Throw => Outcome(before.out, true)
  {
    assert (items + [item])[..|items|] == items;
  }

  lemma {:induction false} ThrowEndsHandling<I, O>(react: I -> Reaction<O>, done: seq<I>, more: seq<I>)
    requires Handle(react, done).threw
    ensures Handle(react, done + more) == Handle(react, done)
  {
    if more == [] {
      assert done + more == done;
    } else {
      var n := |more| - 1;
      ThrowEndsHandling(react, done, more[..n]);
      assert (done + more)[..|done + more| - 1] == done + more[..n];
    }
  }

  /** The first `j` items are handled, and the next one, if there is one, throws. */
  ghost predicate StopsAt<I, O>(react: I -> Reaction<O>, items: seq<I>, j: nat) {
    && j <= |items|
    && (forall i :: 0 <= i < j ==> react(items[i]).Emit?)
    && (j < |items| ==> react(items[j]).Throw?)
  }

  /** What comes out is what the items before the first throwing one give. */
  lemma {:induction false} HandleStops<I, O>(react: I -> Reaction<O>, items: seq<I>) returns (j: nat)
    ensures StopsAt(react, items, j)
    ensures !Handle(react, items[..j]).threw
    ensures Handle(react, items) == Outcome(Handle(react, items[..j]).out, j < |items|)
  {
    if items == [] {
      j := 0;
    } else {
      var n := |items| - 1;
      j := HandleStops(react, items[..n]);
      assert items[..n][..j] == items[..j];
      if j == n && react(items[n]).Emit? {
        j := |items|;
        assert items[..j] == items;
      }
    }
  }

  /** The inner loop: cut complete frames off the buffer and handle them. `done` are the frames
      handled before, with output `before`. */
  method Drain<O>(text: string, react: string -> Reaction<O>, before: seq<O>, ghost done: seq<string>)
    returns (out: seq<O>, buf: string, threw: bool)
    requires Outcome(before, false) == Handle(react, done)
    ensures Outcome(out, threw) == Handle(react, done + SplitFrames(text).frames)
    ensures !threw ==> buf == SplitFrames(text).rest
  {
    out, buf, threw := before, text, false;
    ghost var all := SplitFrames(text).frames;
    ghost var handled := done;
    var sep := Find(buf, SEPARATOR);
    while sep != -1
      invariant sep == Find(buf, SEPARATOR)
      invariant done + all == handled + SplitFrames(buf).frames
      invariant SplitFrames(text).rest == SplitFrames(buf).rest
      invariant Outcome(out, false) == Handle(react, handled)
      decreases |buf|
    {
      var frame := buf[..sep];
      ghost var later := SplitFrames(buf[sep + 2..]).frames;
      assert handled + ([frame] + later) == (handled + [frame]) + later;
      assert (handled + [frame])[..|handled|] == handled;
      handled := handled + [frame];
      buf := buf[sep + 2..];
      sep := Find(buf, SEPARATOR);
      match react(frame) {
        case Emit(more) =>
          out := out + more;
        case Throw =>
          threw := true;
          ThrowEndsHandling(react, handled, later);
          return;
      }
    }
    assert handled + [] == handled;
  }

  /** The read loop that backend and browser share: append the piece to the buffer, then cut off
      and handle complete frames. How the text was cut into `chunks` makes no difference. */
  method ReadLoop<O>(chunks: seq<string>, react: string -> Reaction<O>) returns (out: seq<O>, threw: bool)
    ensures Outcome(out, threw) == Handle(react, SplitFrames(Concat(chunks)).frames)
  {
    out, threw := [], false;
    var buf := "";
    for i := 0 to |chunks|
      invariant buf == SplitFrames(Concat(chunks[..i])).rest
      invariant Outcome(out, false) == Handle(react, SplitFrames(Concat(chunks[..i])).frames)
    {
      ghost var done := SplitFrames(Concat(chunks[..i])).frames;
      ConcatTake(chunks, i);
      SplitAppend(Concat(chunks[..i]), chunks[i]);
      out, buf, threw := Drain(buf + chunks[i], react, out, done);
      if threw {
        LaterTextIsIgnored(react, chunks, i + 1);
        return;
      }
    }
    assert chunks[..|chunks|] == chunks;
  }

  lemma {:induction false} LaterTextIsIgnored<O>(react: string -> Reaction<O>, chunks: seq<string>, n: nat)
    requires n <= |chunks|
    requires Handle(react, SplitFrames(Concat(chunks[..n])).frames).threw
    ensures Handle(react, SplitFrames(Concat(chunks)).frames) == Handle(react, SplitFrames(Concat(chunks[..n])).frames)
  {
    assert chunks == chunks[..n] + chunks[n..];
    ConcatAppend(chunks[..n], chunks[n..]);
    var seen := SplitFrames(Concat(chunks[..n]));
    SplitAppend(Concat(chunks[..n]), Concat(chunks[n..]));
    ThrowEndsHandling(react, seen.frames, SplitFrames(seen.rest + Concat(chunks[n..])).frames);
  }
}
