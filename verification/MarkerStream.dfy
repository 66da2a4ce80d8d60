/** The engine's streaming chat turn: prose is passed on as it arrives, everything from the
    action marker onward is withheld, although the model may cut the marker anywhere. */
module MarkerStream {
  import opened Text

  /** What the generator yields. */
  datatype Event<+A> = Token(text: string) | Actions(list: seq<A>)

  const MARKER := "<<<ACTIONS>>>"
  const KEEP := |MARKER| - 1

  /** The whole-text meaning of a reply: what the user may see … */
  function Prose(text: string): string {
    var at := Find(text, MARKER);
    if at < 0 then text else text[..at]
  }

  /** … and what follows the first marker, if there is one. */
  function ActionText(text: string): Option<string> {
    var at := Find(text, MARKER);
    if at < 0 then None else Some(text[at + |MARKER|..])
  }

  function ErrorNote(message: string): string {
    "\n\n_(The assistant hit an error: " + message + ")_"
  }

  /** Only tokens, none of them empty. */
  predicate AllTokens<A>(events: seq<Event<A>>) {
    forall i :: 0 <= i < |events| ==> events[i].Token? && events[i].text != ""
  }

  function Shown<A>(events: seq<Event<A>>): string {
    if events == [] then ""
    else (if events[0].Token? then events[0].text else "") + Shown(events[1..])
  }

  lemma {:induction false} ShownAppend<A>(a: seq<Event<A>>, b: seq<Event<A>>)
    ensures Shown(a + b) == Shown(a) + Shown(b)
  {
    if a == [] {
      assert a + b == b;
    } else {
      assert (a + b)[1..] == a[1..] + b;
      ShownAppend(a[1..], b);
      Regroup(if a[0].Token? then a[0].text else "", Shown(a[1..]), Shown(b));
    }
  }

  lemma ShownSnoc<A>(a: seq<Event<A>>, e: Event<A>)
    ensures Shown(a + [e]) == Shown(a) + (if e.Token? then e.text else "")
  {
    ShownAppend(a, [e]);
    assert Shown([e]) == (if e.Token? then e.text else "") + Shown<A>([]);
  }

  /** The held-back tail is long enough: when nothing was found in `flushed + buf` and at least
      KEEP characters are held back (or nothing was flushed yet), searching the short buffer
      finds exactly what searching the whole text would find. */
  lemma SearchingTheTailSuffices(flushed: string, buf: string, delta: string)
    requires Find(flushed + buf, MARKER) < 0
    requires |buf| == KEEP || flushed == ""
    ensures var short, whole := Find(buf + delta, MARKER), Find(flushed + (buf + delta), MARKER);
            if short < 0 then whole < 0 else whole == |flushed| + short
  {
    var tail, all := buf + delta, flushed + (buf + delta);
    var short := Find(tail, MARKER);
    forall i: nat | i < |flushed| || (short < 0 || i < |flushed| + short)
      ensures !OccursAt(all, MARKER, i)
    {
      if i < |flushed| {
        Regroup(flushed, buf, delta);
        OccursInFirst(flushed + buf, delta, MARKER, i);
      } else {
        OccursInSecond(flushed, tail, MARKER, i - |flushed|);
      }
    }
    if short >= 0 {
      OccursInSecond(flushed, tail, MARKER, short);
      FindIs(all, MARKER, |flushed| + short);
    }
  }

  /** Nothing found yet: `received` is what was shown plus a held-back tail that could still
      turn out to be the beginning of the marker. */
  predicate Holding(received: string, flushed: string, buf: string) {
    && Find(received, MARKER) < 0
    && received == flushed + buf
    && |buf| <= KEEP
    && (|buf| == KEEP || flushed == "")
  }

  lemma ScanFound(received: string, flushed: string, buf: string, delta: string)
    requires Holding(received, flushed, buf)
    requires Find(buf + delta, MARKER) >= 0
    ensures var grown := buf + delta;
            var idx := Find(grown, MARKER);
            && Prose(received + delta) == flushed + grown[..idx]
            && ActionText(received + delta) == Some(grown[idx + |MARKER|..])
  {
    SearchingTheTailSuffices(flushed, buf, delta);
    Regroup(flushed, buf, delta);
    SplitPoint(flushed, buf + delta, Find(buf + delta, MARKER));
    SplitPoint(flushed, buf + delta, Find(buf + delta, MARKER) + |MARKER|);
  }

  lemma SplitPoint(a: string, b: string, n: nat)
    requires n <= |b|
    ensures (a + b)[..|a| + n] == a + b[..n] && (a + b)[|a| + n..] == b[n..]
  {
  }

  lemma ScanHeld(received: string, flushed: string, buf: string, delta: string)
    requires Holding(received, flushed, buf)
    requires Find(buf + delta, MARKER) < 0
    ensures var grown := buf + delta;
            if |grown| > KEEP then
              Holding(received + delta, flushed + grown[..|grown| - KEEP], grown[|grown| - KEEP..])
            else
              Holding(received + delta, flushed, grown)
  {
    var grown := buf + delta;
    SearchingTheTailSuffices(flushed, buf, delta);
    Regroup(flushed, buf, delta);
    if |grown| > KEEP {
      Regroup(flushed, grown[..|grown| - KEEP], grown[|grown| - KEEP..]);
      assert grown == grown[..|grown| - KEEP] + grown[|grown| - KEEP..];
    }
  }

  lemma MarkerStays(received: string, delta: string)
    requires ActionText(received).Some?
    ensures Prose(received + delta) == Prose(received)
    ensures ActionText(received + delta) == Some(ActionText(received).value + delta)
  {
    FindStable(received, delta, MARKER);
    var at := Find(received, MARKER);
    assert (received + delta)[..at] == received[..at];
    assert (received + delta)[at + |MARKER|..] == received[at + |MARKER|..] + delta;
  }

  /** The generator's local variables between two deltas, with what it has yielded so far. */
  datatype Scan<+A> = Scan(events: seq<Event<A>>, buf: string, actionRaw: string, inActions: bool)

  /** What one more delta does to them. */
  function Feed<A>(s: Scan<A>, delta: string): Scan<A> {
    if s.inActions then s.(actionRaw := s.actionRaw + delta)
    else
      var buf := s.buf + delta;
      var idx := Find(buf, MARKER);
      if idx != -1 then Scan(Emitted(s.events, buf[..idx]), "", buf[idx + |MARKER|..], true)
      else if |buf| > KEEP then s.(events := Emitted(s.events, buf[..|buf| - KEEP]), buf := buf[|buf| - KEEP..])
      else s.(buf := buf)
  }

  function FeedAll<A>(deltas: seq<string>): Scan<A> {
    if deltas == [] then Scan([], "", "", false)
    else Feed(FeedAll(deltas[..|deltas| - 1]), deltas[|deltas| - 1])
  }

  /** What has been shown once `received` has come in, and how far it may lag behind. */
  predicate Caught<A>(received: string, s: Scan<A>) {
    && AllTokens(s.events)
    && (if s.inActions then
          Prose(received) == Shown(s.events) && ActionText(received) == Some(s.actionRaw)
        else
          Holding(received, Shown(s.events), s.buf))
  }

  lemma FeedKeepsUp<A>(received: string, s: Scan<A>, delta: string)
    requires Caught(received, s)
    ensures Caught(received + delta, Feed(s, delta))
  {
    if s.inActions {
      MarkerStays(received, delta);
    } else {
      var grown := s.buf + delta;
      var idx := Find(grown, MARKER);
      if idx >= 0 {
        ScanFound(received, Shown(s.events), s.buf, delta);
        EmittedShows(s.events, grown[..idx]);
      } else {
        ScanHeld(received, Shown(s.events), s.buf, delta);
        if |grown| > KEEP { EmittedShows(s.events, grown[..|grown| - KEEP]); }
      }
    }
  }

  /** However the text is cut, the scanner is caught up with the text and nothing else. */
  lemma {:induction false} FeedAllKeepsUp<A>(deltas: seq<string>)
    ensures Caught(Concat(deltas), FeedAll<A>(deltas))
  {
    if deltas != [] {
      var n := |deltas| - 1;
      FeedAllKeepsUp<A>(deltas[..n]);
      FeedKeepsUp(Concat(deltas[..n]), FeedAll<A>(deltas[..n]), deltas[n]);
      ConcatTake(deltas, n);
      assert deltas[..n + 1] == deltas;
    }
  }

  lemma HoldingLag(received: string, flushed: string, buf: string)
    requires Holding(received, flushed, buf)
    ensures ActionText(received) == None && Prose(received) == flushed + buf
    ensures flushed <= Prose(received) && |Prose(received)| <= |flushed| + KEEP
  {
  }

  /** `if piece: yield ("token", piece)`. */
  function Emitted<A>(events: seq<Event<A>>, piece: string): seq<Event<A>> {
    if piece == "" then events else events + [Token(piece)]
  }

  lemma EmittedShows<A>(events: seq<Event<A>>, piece: string)
    ensures Shown(Emitted(events, piece)) == Shown(events) + piece
    ensures AllTokens(events) ==> AllTokens(Emitted(events, piece))
  {
    ShownSnoc(events, Token(piece));
  }

  /** A turn whose stream ended normally: the tokens spell exactly the prose, and one actions
      event, made from exactly the text after the marker, comes last. */
  ghost predicate CompletedTurn<A>(text: string, events: seq<Event<A>>, parse: string -> seq<A>) {
    && |events| > 0
    && var shown, last := events[..|events| - 1], events[|events| - 1];
    && AllTokens(shown)
    && Shown(shown) == Prose(text)
    && last.Actions?
    && last.list == match ActionText(text) { case Some(raw) => parse(raw) case None => [] }
  }

  /** A turn whose stream raised: the tokens before the error note are a prefix of the prose
      received so far, short by at most KEEP characters, and whole if the marker had arrived. */
  ghost predicate BrokenTurn<A>(received: string, events: seq<Event<A>>, message: string) {
    && |events| >= 2
    && var shown := events[..|events| - 2];
    && AllTokens(shown)
    && Shown(shown) <= Prose(received)
    && |Prose(received)| <= |Shown(shown)| + KEEP
    && (ActionText(received).Some? ==> Shown(shown) == Prose(received))
    && events[|events| - 2..] == [Token(ErrorNote(message)), Actions([])]
  }

  /** What a turn yields: after a normal end, and after an exception. */
  function Turn<A>(s: Scan<A>, failure: Option<string>, parse: string -> seq<A>): seq<Event<A>> {
    match failure
    case Some(message) => s.events + [Token(ErrorNote(message)), Actions([])]
    case None =>
      (if s.inActions then s.events else Emitted(s.events, s.buf))
      + [Actions(if s.inActions then parse(s.actionRaw) else [])]
  }

  lemma TurnCompletes<A>(deltas: seq<string>, parse: string -> seq<A>)
    ensures CompletedTurn(Concat(deltas), Turn(FeedAll<A>(deltas), None, parse), parse)
  {
    FeedAllKeepsUp<A>(deltas);
    var s, all := FeedAll<A>(deltas), Turn(FeedAll<A>(deltas), None, parse);
    assert all[..|all| - 1] == if s.inActions then s.events else Emitted(s.events, s.buf);
    if !s.inActions {
      EmittedShows(s.events, s.buf);
      HoldingLag(Concat(deltas), Shown(s.events), s.buf);
    }
  }

  lemma TurnBreaks<A>(deltas: seq<string>, message: string, parse: string -> seq<A>)
    ensures BrokenTurn(Concat(deltas), Turn(FeedAll<A>(deltas), Some(message), parse), message)
  {
    FeedAllKeepsUp<A>(deltas);
    var s, all := FeedAll<A>(deltas), Turn(FeedAll<A>(deltas), Some(message), parse);
    assert all[..|all| - 2] == s.events;
    assert all[|all| - 2..] == [Token(ErrorNote(message)), Actions([])];
    if !s.inActions { HoldingLag(Concat(deltas), Shown(s.events), s.buf); }
  }

  /** One streaming turn over any cutting `deltas` of the model's text. `failure` is the
      exception the stream raises after those deltas, if it does; `parse` is the action parser. */
  method ChatStream<A>(deltas: seq<string>, failure: Option<string>, parse: string -> seq<A>)
    returns (events: seq<Event<A>>)
    ensures failure.None? ==> CompletedTurn(Concat(deltas), events, parse)
    ensures failure.Some? ==> BrokenTurn(Concat(deltas), events, failure.value)
  {
    events := RunTurn(deltas, failure, parse);
    match failure {
      case None => TurnCompletes(deltas, parse);
      case Some(message) => TurnBreaks(deltas, message, parse);
    }
  }

  method RunTurn<A>(deltas: seq<string>, failure: Option<string>, parse: string -> seq<A>)
    returns (events: seq<Event<A>>)
    ensures events == Turn(FeedAll(deltas), failure, parse)
  {
    events := [];
    var buf := "";
    var actionRaw := "";
    var inActions := false;
    for i := 0 to |deltas|
      invariant Scan(events, buf, actionRaw, inActions) == FeedAll(deltas[..i])
    {
      var delta := deltas[i];
      assert deltas[..i + 1][..i] == deltas[..i];
      if inActions {
        actionRaw := actionRaw + delta;
        continue;
      }
      buf := buf + delta;
      var idx := Find(buf, MARKER);
      if idx != -1 {
        events := Emitted(events, buf[..idx]);
        actionRaw := buf[idx + |MARKER|..];
        inActions := true;
        buf := "";
        continue;
      }
      if |buf| > KEEP {
        events := Emitted(events, buf[..|buf| - KEEP]);
        buf := buf[|buf| - KEEP..];
      }
    }
    assert deltas[..|deltas|] == deltas;
    if failure.Some? {
      events := events + [Token(ErrorNote(failure.value)), Actions([])];
      return;
    }
    if !inActions {
      events := Emitted(events, buf);
    }
    events := events + [Actions(if inActions then parse(actionRaw) else [])];
  }

  /** What the user may see never contains the marker, and a turn loses nothing of the text. */
  lemma ProseAndActionsPartitionTheText(text: string)
    ensures Find(Prose(text), MARKER) == -1
    ensures match ActionText(text)
            case None => text == Prose(text)
            case Some(raw) => text == Prose(text) + MARKER + raw
  {
    var at := Find(text, MARKER);
    if at >= 0 {
      assert text == text[..at] + text[at..at + |MARKER|] + text[at + |MARKER|..];
      forall i: nat
        ensures !OccursAt(text[..at], MARKER, i)
      {
        if i + |MARKER| <= at {
          OccursInFirst(text[..at], text[at..], MARKER, i);
          assert text == text[..at] + text[at..];
        }
      }
    }
  }
}
