/** The assistant's reply on its way from the model to the browser: the engine prints events as
    frames, the backend relays them while staging the proposed actions, the browser shows them. */
module StreamPipeline {
  import opened Text
  import opened MarkerStream
  import opened ServerSentEvents

  // ---- the engine ---------------------------------------------------------------------------

  function TokenFrame(delta: string): Frame { Frame("token", JObj(map["delta" := JStr(delta)])) }

  function ActionsFrame(items: seq<Json>): Frame { Frame("actions", JObj(map["actions" := JArr(items)])) }

  const DoneFrame := Frame("done", JObj(map[]))

  function EventFrame(e: Event<Json>): Frame {
    match e case Token(text) => TokenFrame(text) case Actions(list) => ActionsFrame(list)
  }

  function EventFrames(events: seq<Event<Json>>): (fs: seq<Frame>) {
    seq(|events|, i requires 0 <= i < |events| => EventFrame(events[i]))
  }

  /** The engine's route: every event of the turn as a frame, then `done`. */
  method EngineStream(deltas: seq<string>, failure: Option<string>, parseActions: string -> seq<Json>,
                      dumps: Json -> string)
    returns (written: string, events: seq<Event<Json>>)
    ensures failure.None? ==> CompletedTurn(Concat(deltas), events, parseActions)
    ensures failure.Some? ==> BrokenTurn(Concat(deltas), events, failure.value)
    ensures written == PrintAll(EventFrames(events) + [DoneFrame], dumps)
  {
    events := ChatStream(deltas, failure, parseActions);
    written := "";
    for i := 0 to |events|
      invariant written == PrintAll(EventFrames(events[..i]), dumps)
    {
      assert EventFrames(events[..i + 1]) == EventFrames(events[..i]) + [EventFrame(events[i])];
      PrintSnoc(EventFrames(events[..i]), EventFrame(events[i]), dumps);
      written := written + Print(EventFrame(events[i]), dumps);
    }
    assert events[..|events|] == events;
    PrintSnoc(EventFrames(events), DoneFrame, dumps);
    written := written + Print(DoneFrame, dumps);
  }

  lemma {:induction false} PrintSnoc(fs: seq<Frame>, f: Frame, write: Json -> string)
    ensures PrintAll(fs + [f], write) == PrintAll(fs, write) + Print(f, write)
  {
    if fs == [] {
      assert fs + [f] == [f] && [f][1..] == [];
    } else {
      assert (fs + [f])[1..] == fs[1..] + [f];
      PrintSnoc(fs[1..], f, write);
      Regroup(Print(fs[0], write), PrintAll(fs[1..], write), Print(f, write));
    }
  }

  // ---- the backend --------------------------------------------------------------------------

  /** Staging the proposed actions: the confirm cards, or an exception. */
  datatype Staging = Staged(cards: seq<Json>) | StagingThrew

  /** `Array.isArray(data[name]) ? data[name] : []`, for data that is not null. */
  function ArrayField(data: Json, name: string): seq<Json> {
    if data.JObj? && name in data.fields && data.fields[name].JArr? then data.fields[name].items else []
  }

  function RelayFrame(stage: seq<Json> -> Staging, f: Frame): Reaction<Frame> {
    if f.event == "token" then Emit([f])
    else if f.event == "actions" then
      if f.data.JNull? then Throw
      else match stage(ArrayField(f.data, "actions"))
           case StagingThrew => Throw
           case Staged(cards) => Emit(if cards == [] then [] else [ActionsFrame(cards)])
    else Emit([])
  }

  /** A reaction to a parsed frame, as a reaction to the frame's text; unreadable frames are skipped. */
  function OnText<O>(react: Frame -> Reaction<O>, parse: string -> Option<Json>): string -> Reaction<O> {
    text => match Decode(text, parse) case None => Emit([]) case Some(f) => react(f)
  }

  function RelayReact(stage: seq<Json> -> Staging): Frame -> Reaction<Frame> { f => RelayFrame(stage, f) }

  const INTERRUPTED := "\n\n_(The assistant stream was interrupted.)_"

  function RelayedFrames(handled: Outcome<Frame>, upstreamFails: bool): seq<Frame> {
    handled.out + (if handled.threw || upstreamFails then [TokenFrame(INTERRUPTED)] else []) + [DoneFrame]
  }

  /** The backend's relay loop. `upstreamFails` says that reading fails after these chunks. */
  method Relay(chunks: seq<string>, upstreamFails: bool, stage: seq<Json> -> Staging,
               parse: string -> Option<Json>, stringify: Json -> string)
    returns (written: string)
    ensures var handled := Handle(OnText(RelayReact(stage), parse), SplitFrames(Concat(chunks)).frames);
            written == PrintAll(RelayedFrames(handled, upstreamFails), stringify)
  {
    var out, threw := ReadLoop(chunks, OnText(RelayReact(stage), parse));
    out := out + (if threw || upstreamFails then [TokenFrame(INTERRUPTED)] else []);
    out := out + [DoneFrame];
    written := WriteFrames(out, stringify);
  }

  method WriteFrames(out: seq<Frame>, stringify: Json -> string) returns (written: string)
    ensures written == PrintAll(out, stringify)
  {
    written := "";
    for i := 0 to |out|
      invariant written == PrintAll(out[..i], stringify)
    {
      assert out[..i + 1] == out[..i] + [out[i]];
      PrintSnoc(out[..i], out[i], stringify);
      written := written + Print(out[i], stringify);
    }
    assert out[..|out|] == out;
  }

  // ---- the browser --------------------------------------------------------------------------

  datatype Seen = OnToken(delta: string) | OnActions(actions: seq<Json>) | SawError

  function DeltaOf(f: Frame): string {
    if f.event == "token" && f.data.JObj? && "delta" in f.data.fields && f.data.fields["delta"].JStr?
    then f.data.fields["delta"].s else ""
  }

  function BrowserFrame(f: Frame): Reaction<Seen> {
    if f.event == "token" then
      if f.data.JNull? then Throw else Emit(if DeltaOf(f) != "" then [OnToken(DeltaOf(f))] else [])
    else if f.event == "actions" then
      if f.data.JNull? then Throw else Emit([OnActions(ArrayField(f.data, "actions"))])
    else if f.event == "error" then Emit([SawError])
    else Emit([])
  }

  function BrowserReact(): Frame -> Reaction<Seen> { f => BrowserFrame(f) }

  method Browse(chunks: seq<string>, parse: string -> Option<Json>) returns (seen: seq<Seen>, rejected: bool)
    ensures Outcome(seen, rejected) ==
            Handle(OnText(BrowserReact(), parse), SplitFrames(Concat(chunks)).frames)
  {
    seen, rejected := ReadLoop(chunks, OnText(BrowserReact(), parse));
  }

  // ---- what gets through --------------------------------------------------------------------

  function DeltaList(f: Frame): seq<string> { if DeltaOf(f) != "" then [DeltaOf(f)] else [] }

  /** The non-empty token texts carried by a list of frames, in order. */
  function Deltas(fs: seq<Frame>): seq<string> { FlatMap(DeltaList, fs) }

  function TokenList(s: Seen): seq<string> { if s.OnToken? then [s.delta] else [] }

  /** The token texts the browser was handed, in order. */
  function Tokens(seen: seq<Seen>): seq<string> { FlatMap(TokenList, seen) }

  /** Frames as the printers make them: plain event names, and an object as data. */
  predicate WellFormed(fs: seq<Frame>) {
    CleanNames(fs) && forall i :: 0 <= i < |fs| ==> fs[i].data.JObj?
  }

  lemma WellFormedAppend(a: seq<Frame>, b: seq<Frame>)
    requires WellFormed(a) && WellFormed(b)
    ensures WellFormed(a + b)
  {
  }

  /** Handling printed frames is handling the frames. */
  lemma {:induction false} HandlePrinted<O>(react: Frame -> Reaction<O>, fs: seq<Frame>,
                                            write: Json -> string, parse: string -> Option<Json>)
    requires Writes(write, parse) && CleanNames(fs)
    ensures Handle(OnText(react, parse), Bodies(fs, write)) == Handle(react, fs)
  {
    if fs != [] {
      var n := |fs| - 1;
      HandlePrinted(react, fs[..n], write, parse);
      assert Bodies(fs, write)[..n] == Bodies(fs[..n], write);
      DecodePrinted(fs[n], write, parse);
    }
  }

  lemma RelayFrameKeepsDelta(stage: seq<Json> -> Staging, f: Frame)
    requires WellFormed([f])
    ensures match RelayFrame(stage, f)
            case Emit(more) => WellFormed(more) && |more| <= 1 && Deltas(more) == DeltaList(f)
            case Throw => DeltaList(f) == []
  {
    assert [f][0] == f;
    match RelayFrame(stage, f)
    case Throw =>
    case Emit(more) =>
      if more != [] {
        FlatMapSnoc(DeltaList, [], more[0]);
        assert more == [] + [more[0]];
      }
  }

  /** Every token reached was passed on, and all of them unless something threw. */
  ghost predicate KeepsTokens(fs: seq<Frame>, handled: Outcome<Frame>) {
    && WellFormed(handled.out)
    && Deltas(handled.out) <= Deltas(fs)
    && (!handled.threw ==> Deltas(handled.out) == Deltas(fs))
  }

  lemma NothingIsKept(stage: seq<Json> -> Staging)
    ensures KeepsTokens([], Handle(RelayReact(stage), []))
  {
  }

  lemma {:induction false} RelayKeepsTokens(stage: seq<Json> -> Staging, fs: seq<Frame>)
    requires WellFormed(fs)
    ensures KeepsTokens(fs, Handle(RelayReact(stage), fs))
  {
    if fs == [] {
      NothingIsKept(stage);
    } else {
      var n := |fs| - 1;
      WellFormedParts(fs);
      RelayKeepsTokens(stage, fs[..n]);
      RelayOneMore(stage, fs[..n], fs[n]);
      assert fs == fs[..n] + [fs[n]];
    }
  }

  lemma WellFormedParts(fs: seq<Frame>)
    requires fs != [] && WellFormed(fs)
    ensures WellFormed(fs[..|fs| - 1]) && WellFormed([fs[|fs| - 1]])
  {
  }

  lemma RelayOneMore(stage: seq<Json> -> Staging, fs: seq<Frame>, f: Frame)
    requires WellFormed([f]) && KeepsTokens(fs, Handle(RelayReact(stage), fs))
    ensures KeepsTokens(fs + [f], Handle(RelayReact(stage), fs + [f]))
  {
    RelayFrameKeepsDelta(stage, f);
    HandleSnoc(RelayReact(stage), fs, f);
    FlatMapSnoc(DeltaList, fs, f);
    var before := Handle(RelayReact(stage), fs);
    if !before.threw && RelayFrame(stage, f).Emit? {
      FlatMapAppend(DeltaList, before.out, RelayFrame(stage, f).out);
      WellFormedAppend(before.out, RelayFrame(stage, f).out);
    }
  }

  lemma TokensAppend(seen: seq<Seen>, f: Frame)
    requires f.data.JObj?
    ensures BrowserFrame(f).Emit?
    ensures Tokens(seen + BrowserFrame(f).out) == Tokens(seen) + DeltaList(f)
  {
    var more := BrowserFrame(f).out;
    if more == [] {
      AppendNothing(seen);
      AppendNothing(Tokens(seen));
    } else {
      assert more == [more[0]];
      FlatMapSnoc(TokenList, seen, more[0]);
    }
  }

  /** The browser shows exactly the non-empty deltas, whatever else the frames carry. */
  lemma {:induction false} BrowserShowsDeltas(fs: seq<Frame>)
    requires WellFormed(fs)
    ensures var handled := Handle(BrowserReact(), fs);
            !handled.threw && Tokens(handled.out) == Deltas(fs)
  {
    if fs != [] {
      var n := |fs| - 1;
      BrowserShowsDeltas(fs[..n]);
      TokensAppend(Handle(BrowserReact(), fs[..n]).out, fs[n]);
    }
  }

  // ---- from frame to screen ---------------------------------------------------------------------

  /** What the user gets to see of a frame of the engine: the text of a token, and for proposed actions
      the cards they were staged as, if any. */
  function ShownBy(stage: seq<Json> -> Staging): Frame -> seq<Seen> {
    (f: Frame) =>
      if f.event == "token" then if DeltaOf(f) != "" then [OnToken(DeltaOf(f))] else []
      else if f.event == "actions" then
        match stage(ArrayField(f.data, "actions"))
        case StagingThrew => []
        case Staged(cards) => if cards == [] then [] else [OnActions(cards)]
      else []
  }

  function BrowserShows(): Frame -> seq<Seen> {
    (f: Frame) => match BrowserFrame(f) case Emit(out) => out case Throw => []
  }

  /** The browser takes all frames and shows each. */
  ghost predicate BrowserTakes(fs: seq<Frame>) {
    Handle(BrowserReact(), fs) == Outcome(FlatMap(BrowserShows(), fs), false)
  }

  lemma BrowserTakesOneMore(fs: seq<Frame>, f: Frame)
    requires WellFormed([f]) && BrowserTakes(fs)
    ensures BrowserTakes(fs + [f])
  {
    assert [f][0] == f;
    HandleSnoc(BrowserReact(), fs, f);
    FlatMapSnoc(BrowserShows(), fs, f);
  }

  lemma BrowserTakesNothing()
    ensures BrowserTakes([])
  {
  }

  lemma {:induction false} BrowserShowsFrames(fs: seq<Frame>)
    requires WellFormed(fs)
    ensures BrowserTakes(fs)
  {
    if fs == [] {
      BrowserTakesNothing();
    } else {
      var n := |fs| - 1;
      WellFormedParts(fs);
      BrowserShowsFrames(fs[..n]);
      BrowserTakesOneMore(fs[..n], fs[n]);
      assert fs == fs[..n] + [fs[n]];
    }
  }

  lemma RelayedFrameShows(stage: seq<Json> -> Staging, f: Frame)
    requires f.data.JObj? && RelayFrame(stage, f).Emit?
    ensures FlatMap(BrowserShows(), RelayFrame(stage, f).out) == ShownBy(stage)(f)
  {
    var out := RelayFrame(stage, f).out;
    if out != [] {
      assert out == [] + [out[0]];
      FlatMapSnoc(BrowserShows(), [], out[0]);
      AppendNothing(BrowserShows()(out[0]));
    }
  }

  /** What the relay passes on shows exactly what the engine's frames are to show. */
  lemma {:induction false} RelayedShows(stage: seq<Json> -> Staging, fs: seq<Frame>)
    requires WellFormed(fs) && !Handle(RelayReact(stage), fs).threw
    ensures FlatMap(BrowserShows(), Handle(RelayReact(stage), fs).out) == FlatMap(ShownBy(stage), fs)
  {
    if fs != [] {
      var n := |fs| - 1;
      assert fs == fs[..n] + [fs[n]];
      HandleSnoc(RelayReact(stage), fs[..n], fs[n]);
      RelayedShows(stage, fs[..n]);
      RelayedFrameShows(stage, fs[n]);
      FlatMapAppend(BrowserShows(), Handle(RelayReact(stage), fs[..n]).out, RelayFrame(stage, fs[n]).out);
    }
  }

  function CardList(s: Seen): seq<seq<Json>> { if s.OnActions? then [s.actions] else [] }

  /** The card lists the browser was handed, in order. */
  function Cards(seen: seq<Seen>): seq<seq<Json>> { FlatMap(CardList, seen) }

  /** The cards a staging comes to, as a list of none or one. */
  function CardsOf(staged: Staging): seq<seq<Json>> {
    match staged case StagingThrew => [] case Staged(cards) => if cards == [] then [] else [cards]
  }

  function StagedBy(stage: seq<Json> -> Staging): Frame -> seq<seq<Json>> {
    (f: Frame) => if f.event == "actions" then CardsOf(stage(ArrayField(f.data, "actions"))) else []
  }

  lemma {:induction false} CardsShown(stage: seq<Json> -> Staging, fs: seq<Frame>)
    ensures Cards(FlatMap(ShownBy(stage), fs)) == FlatMap(StagedBy(stage), fs)
  {
    if fs != [] {
      var n := |fs| - 1;
      CardsShown(stage, fs[..n]);
      FlatMapAppend(CardList, FlatMap(ShownBy(stage), fs[..n]), ShownBy(stage)(fs[n]));
      CardsShownOfOne(stage, fs[n]);
    }
  }

  lemma CardsOfOne(s: Seen)
    ensures Cards([s]) == CardList(s)
  {
    assert [s] == [] + [s];
    FlatMapSnoc(CardList, [], s);
  }

  lemma CardsShownOfOne(stage: seq<Json> -> Staging, f: Frame)
    ensures Cards(ShownBy(stage)(f)) == StagedBy(stage)(f)
  {
    assert "token"[0] != "actions"[0];
    if f.event == "token" {
      CardsOfOne(OnToken(DeltaOf(f)));
    } else if f.event == "actions" {
      match stage(ArrayField(f.data, "actions"))
      case StagingThrew =>
      case Staged(cards) => CardsOfOne(OnActions(cards));
    }
  }

  /** A text cut short yields the leading frames of the whole text. */
  lemma TruncatedFrames(fs: seq<Frame>, write: Json -> string, parse: string -> Option<Json>, text: string)
    returns (k: nat)
    requires Writes(write, parse) && CleanNames(fs)
    requires text <= PrintAll(fs, write)
    ensures k <= |fs| && SplitFrames(text).frames == Bodies(fs[..k], write)
    ensures text == PrintAll(fs, write) ==> k == |fs|
  {
    var whole := PrintAll(fs, write);
    assert whole == text + whole[|text|..];
    SplitAppend(text, whole[|text|..]);
    SplitPrinted(fs, write, parse);
    k := |SplitFrames(text).frames|;
    LeadingBodies(fs, write, SplitFrames(text).frames);
  }

  lemma LeadingBodies(fs: seq<Frame>, write: Json -> string, first: seq<string>)
    requires first <= Bodies(fs, write)
    ensures first == Bodies(fs[..|first|], write)
  {
  }

  lemma RelayedWellFormed(handled: Outcome<Frame>, upstreamFails: bool)
    requires WellFormed(handled.out)
    ensures WellFormed(RelayedFrames(handled, upstreamFails))
  {
    WellFormedAppend(handled.out, if handled.threw || upstreamFails then [TokenFrame(INTERRUPTED)] else []);
  }

  lemma RelayedDeltas(handled: Outcome<Frame>, upstreamFails: bool)
    ensures Deltas(RelayedFrames(handled, upstreamFails))
            == Deltas(handled.out) + (if handled.threw || upstreamFails then [INTERRUPTED] else [])
  {
    var note := if handled.threw || upstreamFails then [TokenFrame(INTERRUPTED)] else [];
    FlatMapSnoc(DeltaList, handled.out + note, DoneFrame);
    AppendNothing(Deltas(handled.out + note));
    if note == [] {
      AppendNothing(handled.out);
      AppendNothing(Deltas(handled.out));
    } else {
      FlatMapSnoc(DeltaList, handled.out, TokenFrame(INTERRUPTED));
    }
  }

  /** What the backend writes for these pieces of the engine's output. */
  function Relayed(engineChunks: seq<string>, upstreamFails: bool, stage: seq<Json> -> Staging,
                   parse: string -> Option<Json>): seq<Frame>
  {
    RelayedFrames(Handle(OnText(RelayReact(stage), parse), SplitFrames(Concat(engineChunks)).frames), upstreamFails)
  }

  /** What the browser does for these pieces of the backend's output. */
  function Browsed(backendChunks: seq<string>, parse: string -> Option<Json>): Outcome<Seen> {
    Handle(OnText(BrowserReact(), parse), SplitFrames(Concat(backendChunks)).frames)
  }

  /** The relay's half: the first `k` frames arrive (all of them unless the text was cut short),
      and the tokens that get through are theirs, up to an exception in staging. */
  lemma RelayHalf(fs: seq<Frame>, dumps: Json -> string, parse: string -> Option<Json>,
                  stage: seq<Json> -> Staging, engineChunks: seq<string>)
    returns (k: nat)
    requires Writes(dumps, parse) && WellFormed(fs)
    requires Concat(engineChunks) <= PrintAll(fs, dumps)
    ensures k <= |fs| && (Concat(engineChunks) == PrintAll(fs, dumps) ==> k == |fs|)
    ensures SplitFrames(Concat(engineChunks)).frames == Bodies(fs[..k], dumps)
    ensures Handle(OnText(RelayReact(stage), parse), SplitFrames(Concat(engineChunks)).frames)
            == Handle(RelayReact(stage), fs[..k])
    ensures WellFormed(fs[..k])
  {
    k := TruncatedFrames(fs, dumps, parse, Concat(engineChunks));
    HandlePrinted(RelayReact(stage), fs[..k], dumps, parse);
  }

  /** The browser's half. */
  lemma {:induction false} BrowserHalf(relayed: seq<Frame>, stringify: Json -> string, parse: string -> Option<Json>,
                                       chunks: seq<string>)
    requires Writes(stringify, parse) && WellFormed(relayed)
    requires Concat(chunks) == PrintAll(relayed, stringify)
    ensures !Browsed(chunks, parse).threw
    ensures Tokens(Browsed(chunks, parse).out) == Deltas(relayed)
    ensures Browsed(chunks, parse).out == FlatMap(BrowserShows(), relayed)
  {
    SplitPrinted(relayed, stringify, parse);
    HandlePrinted(BrowserReact(), relayed, stringify, parse);
    BrowserShowsDeltas(relayed);
    BrowserShowsFrames(relayed);
  }

  /** Beside what was handled the relay shows at most the note. */
  lemma RelayedShown(handled: Outcome<Frame>, upstreamFails: bool)
    ensures FlatMap(BrowserShows(), RelayedFrames(handled, upstreamFails))
            == FlatMap(BrowserShows(), handled.out)
               + (if handled.threw || upstreamFails then [OnToken(INTERRUPTED)] else [])
  {
    var note := if handled.threw || upstreamFails then [TokenFrame(INTERRUPTED)] else [];
    FlatMapSnoc(BrowserShows(), handled.out + note, DoneFrame);
    AppendNothing(FlatMap(BrowserShows(), handled.out + note));
    if note == [] {
      AppendNothing(handled.out);
      AppendNothing(FlatMap(BrowserShows(), handled.out));
    } else {
      FlatMapSnoc(BrowserShows(), handled.out, TokenFrame(INTERRUPTED));
    }
  }

  /** What gets through is that of the frames before the first one that throws. */
  lemma RelayedUpToThrow(stage: seq<Json> -> Staging, fs: seq<Frame>) returns (j: nat)
    requires WellFormed(fs)
    ensures StopsAt(RelayReact(stage), fs, j)
    ensures var handled := Handle(RelayReact(stage), fs);
            && handled.threw == (j < |fs|) && Deltas(handled.out) == Deltas(fs[..j])
            && FlatMap(BrowserShows(), handled.out) == FlatMap(ShownBy(stage), fs[..j])
  {
    j := HandleStops(RelayReact(stage), fs);
    RelayKeepsTokens(stage, fs[..j]);
    RelayedShows(stage, fs[..j]);
  }

  /** The browser rejected nothing and was handed what these frames show, in order, and the note if there
      was an interruption; so it has exactly their texts and exactly the cards they were staged as. */
  ghost predicate Arrived(fs: seq<Frame>, stage: seq<Json> -> Staging, interrupted: bool, browsed: Outcome<Seen>) {
    && !browsed.threw
    && browsed.out == FlatMap(ShownBy(stage), fs) + (if interrupted then [OnToken(INTERRUPTED)] else [])
    && Tokens(browsed.out) == Deltas(fs) + (if interrupted then [INTERRUPTED] else [])
    && Cards(browsed.out) == FlatMap(StagedBy(stage), fs)
  }

  /** From engine to browser: the frames `fs`, printed, possibly lost from some point on, cut
      anywhere, relayed, printed again, cut anywhere and parsed, deliver non-empty token texts in
      order. `k` frames arrived complete, all of them when nothing was lost; `j` of these came before the
      first one that throws in staging, and exactly their texts and staged cards are delivered, in
      order. An interruption is announced by one more token. */
  lemma Delivery(fs: seq<Frame>, dumps: Json -> string, stringify: Json -> string, parse: string -> Option<Json>,
                 stage: seq<Json> -> Staging, engineChunks: seq<string>, upstreamFails: bool,
                 backendChunks: seq<string>)
    returns (k: nat, j: nat)
    requires Writes(dumps, parse) && Writes(stringify, parse) && WellFormed(fs)
    requires Concat(engineChunks) <= PrintAll(fs, dumps)
    requires Concat(backendChunks) == PrintAll(Relayed(engineChunks, upstreamFails, stage, parse), stringify)
    ensures k <= |fs| && (Concat(engineChunks) == PrintAll(fs, dumps) ==> k == |fs|)
    ensures SplitFrames(Concat(engineChunks)).frames == Bodies(fs[..k], dumps)
    ensures StopsAt(RelayReact(stage), fs[..k], j)
    ensures Arrived(fs[..j], stage, j < k || upstreamFails, Browsed(backendChunks, parse))
  {
    k := RelayHalf(fs, dumps, parse, stage, engineChunks);
    j := HandledArrives(fs[..k], stage, upstreamFails, stringify, parse, backendChunks);
    assert fs[..k][..j] == fs[..j];
  }

  /** What the backend made of these frames arrives. */
  lemma HandledArrives(fs: seq<Frame>, stage: seq<Json> -> Staging, upstreamFails: bool, stringify: Json -> string,
                       parse: string -> Option<Json>, backendChunks: seq<string>)
    returns (j: nat)
    requires Writes(stringify, parse) && WellFormed(fs)
    requires Concat(backendChunks)
             == PrintAll(RelayedFrames(Handle(RelayReact(stage), fs), upstreamFails), stringify)
    ensures StopsAt(RelayReact(stage), fs, j)
    ensures Arrived(fs[..j], stage, j < |fs| || upstreamFails, Browsed(backendChunks, parse))
  {
    RelayKeepsTokens(stage, fs);
    j := RelayedUpToThrow(stage, fs);
    var handled := Handle(RelayReact(stage), fs);
    RelayedWellFormed(handled, upstreamFails);
    RelayedDeltas(handled, upstreamFails);
    RelayedShown(handled, upstreamFails);
    BrowserHalf(RelayedFrames(handled, upstreamFails), stringify, parse, backendChunks);
    CardsWithNote(stage, fs[..j], j < |fs| || upstreamFails);
  }

  lemma CardsWithNote(stage: seq<Json> -> Staging, fs: seq<Frame>, noted: bool)
    ensures Cards(FlatMap(ShownBy(stage), fs) + (if noted then [OnToken(INTERRUPTED)] else []))
            == FlatMap(StagedBy(stage), fs)
  {
    var shown := FlatMap(ShownBy(stage), fs);
    CardsShown(stage, fs);
    AppendNothing(shown);
    AppendNothing(Cards(shown));
    FlatMapSnoc(CardList, shown, OnToken(INTERRUPTED));
  }

  // ---- the whole turn -----------------------------------------------------------------------

  lemma EventFrameWellFormed(e: Event<Json>)
    ensures var f := EventFrame(e); NoNewline(f.event) && Trimmed(f.event) && f.data.JObj?
  {
  }

  lemma EngineFramesWellFormed(events: seq<Event<Json>>)
    ensures WellFormed(EventFrames(events) + [DoneFrame])
  {
    var fs := EventFrames(events) + [DoneFrame];
    forall i | 0 <= i < |fs|
      ensures NoNewline(fs[i].event) && Trimmed(fs[i].event) && fs[i].data.JObj?
    {
      if i < |events| { EventFrameWellFormed(events[i]); }
    }
  }

  lemma EventFramesSnoc(events: seq<Event<Json>>, e: Event<Json>)
    ensures EventFrames(events + [e]) == EventFrames(events) + [EventFrame(e)]
  {
  }

  /** The frames of these events carry exactly the text their tokens show. */
  ghost predicate Spells(events: seq<Event<Json>>) { Concat(Deltas(EventFrames(events))) == Shown(events) }

  lemma NothingSpelt()
    ensures Spells([])
  {
  }

  lemma OneMoreSpelt(events: seq<Event<Json>>, e: Event<Json>)
    requires Spells(events)
    ensures Spells(events + [e])
  {
    EventFramesSnoc(events, e);
    ShownSnoc(events, e);
    AddDelta(EventFrames(events), e);
    AppendNothing(Shown(events));
  }

  lemma {:induction false} EngineDeltas(events: seq<Event<Json>>)
    ensures Spells(events)
  {
    if events == [] {
      NothingSpelt();
    } else {
      var n := |events| - 1;
      EngineDeltas(events[..n]);
      OneMoreSpelt(events[..n], events[n]);
      assert events == events[..n] + [events[n]];
    }
  }

  lemma AddDelta(fs: seq<Frame>, e: Event<Json>)
    ensures Concat(Deltas(fs + [EventFrame(e)])) == Concat(Deltas(fs)) + (if e.Token? then e.text else "")
  {
    FlatMapSnoc(DeltaList, fs, EventFrame(e));
    EventDelta(e);
    AddText(Deltas(fs), if e.Token? then e.text else "");
  }

  lemma EventDelta(e: Event<Json>)
    ensures DeltaList(EventFrame(e)) == (if e.Token? && e.text != "" then [e.text] else [])
  {
  }

  lemma AddText(pieces: seq<string>, text: string)
    ensures Concat(pieces + (if text != "" then [text] else [])) == Concat(pieces) + text
  {
    ConcatSnoc(pieces, text);
    AppendNothing(pieces);
    AppendNothing(Concat(pieces));
  }

  /** The events of a turn: tokens, then one list of actions. */
  ghost predicate TokensThenActions(events: seq<Event<Json>>) {
    |events| > 0 && AllTokens(events[..|events| - 1]) && events[|events| - 1].Actions?
  }

  lemma EventReacts(stage: seq<Json> -> Staging, e: Event<Json>)
    ensures RelayReact(stage)(EventFrame(e)).Throw? <==> e.Actions? && stage(e.list).StagingThrew?
  {
  }

  /** Of tokens, actions and the done frame only the actions can throw. */
  lemma StopsAtActions(stage: seq<Json> -> Staging, events: seq<Event<Json>>, j: nat)
    requires TokensThenActions(events) && StopsAt(RelayReact(stage), EventFrames(events) + [DoneFrame], j)
    ensures j == if stage(events[|events| - 1].list).StagingThrew? then |events| - 1 else |events| + 1
  {
    var fs, n := EventFrames(events) + [DoneFrame], |events| - 1;
    EventReacts(stage, events[n]);
    forall i | 0 <= i < n
      ensures RelayReact(stage)(fs[i]).Emit?
    {
      assert events[..n][i] == events[i];
      EventReacts(stage, events[i]);
    }
    assert fs[n] == EventFrame(events[n]) && fs[n + 1] == DoneFrame && RelayReact(stage)(DoneFrame).Emit?;
  }

  /** Neither actions nor the done frame have a text. */
  lemma DeltasOfTurn(tokens: seq<Event<Json>>, actions: seq<Json>)
    ensures Concat(Deltas(EventFrames(tokens + [Actions(actions)]) + [DoneFrame])) == Shown(tokens)
  {
    EventFramesSnoc(tokens, Actions(actions));
    FlatMapSnoc(DeltaList, EventFrames(tokens + [Actions(actions)]), DoneFrame);
    FlatMapSnoc(DeltaList, EventFrames(tokens), ActionsFrame(actions));
    AppendNothing(Deltas(EventFrames(tokens)));
    EngineDeltas(tokens);
  }

  lemma {:induction false} TokensHaveNoCards(stage: seq<Json> -> Staging, tokens: seq<Event<Json>>)
    requires AllTokens(tokens)
    ensures FlatMap(StagedBy(stage), EventFrames(tokens)) == []
  {
    if tokens != [] {
      var n := |tokens| - 1;
      assert tokens == tokens[..n] + [tokens[n]];
      EventFramesSnoc(tokens[..n], tokens[n]);
      FlatMapSnoc(StagedBy(stage), EventFrames(tokens[..n]), EventFrame(tokens[n]));
      TokensHaveNoCards(stage, tokens[..n]);
    }
  }

  /** Only the actions of a turn have cards, and those they were staged as. */
  lemma CardsOfTurn(stage: seq<Json> -> Staging, tokens: seq<Event<Json>>, actions: seq<Json>)
    requires AllTokens(tokens)
    ensures FlatMap(StagedBy(stage), EventFrames(tokens)) == []
    ensures FlatMap(StagedBy(stage), EventFrames(tokens + [Actions(actions)]) + [DoneFrame]) == CardsOf(stage(actions))
  {
    var frames, f := EventFrames(tokens), ActionsFrame(actions);
    TokensHaveNoCards(stage, tokens);
    EventFramesSnoc(tokens, Actions(actions));
    FlatMapSnoc(StagedBy(stage), frames + [f], DoneFrame);
    FlatMapSnoc(StagedBy(stage), frames, f);
    assert StagedBy(stage)(f) == CardsOf(stage(actions)) by { assert ArrayField(f.data, "actions") == actions; }
    assert StagedBy(stage)(DoneFrame) == [] by { assert "done"[0] != "actions"[0]; }
  }

  /** A completed turn's frames: tokens pass the relay, then staging decides. */
  lemma StagingDecides(stage: seq<Json> -> Staging, events: seq<Event<Json>>, j: nat)
    requires TokensThenActions(events) && StopsAt(RelayReact(stage), EventFrames(events) + [DoneFrame], j)
    ensures (j < |events| + 1) == stage(events[|events| - 1].list).StagingThrew?
    ensures Concat(Deltas((EventFrames(events) + [DoneFrame])[..j])) == Shown(events[..|events| - 1])
    ensures FlatMap(StagedBy(stage), (EventFrames(events) + [DoneFrame])[..j])
            == CardsOf(stage(events[|events| - 1].list))
  {
    var fs, n := EventFrames(events) + [DoneFrame], |events| - 1;
    StopsAtActions(stage, events, j);
    CardsOfTurn(stage, events[..n], events[n].list);
    DeltasOfTurn(events[..n], events[n].list);
    EngineDeltas(events[..n]);
    TurnFrames(events, j);
  }

  /** All frames of a turn, or those before its actions. */
  lemma TurnFrames(events: seq<Event<Json>>, j: nat)
    requires TokensThenActions(events) && (j == |events| - 1 || j == |events| + 1)
    ensures var fs, n := EventFrames(events) + [DoneFrame], |events| - 1;
            fs[..j] == if j == n then EventFrames(events[..n])
                       else EventFrames(events[..n] + [Actions(events[n].list)]) + [DoneFrame]
  {
    var n := |events| - 1;
    assert events == events[..n] + [Actions(events[n].list)];
  }

  /** The proposed actions of a completed reply. */
  function ProposedActions(text: string, parseActions: string -> seq<Json>): seq<Json> {
    match ActionText(text) case Some(raw) => parseActions(raw) case None => []
  }

  /** With nothing lost, the texts and cards of the frames before the first one that throws arrive. */
  lemma WholeDelivery(fs: seq<Frame>, dumps: Json -> string, stringify: Json -> string, parse: string -> Option<Json>,
                      stage: seq<Json> -> Staging, engineChunks: seq<string>, backendChunks: seq<string>)
    returns (j: nat)
    requires Writes(dumps, parse) && Writes(stringify, parse) && WellFormed(fs)
    requires Concat(engineChunks) == PrintAll(fs, dumps)
    requires Concat(backendChunks) == PrintAll(Relayed(engineChunks, false, stage, parse), stringify)
    ensures StopsAt(RelayReact(stage), fs, j)
    ensures Arrived(fs[..j], stage, j < |fs|, Browsed(backendChunks, parse))
  {
    var k;
    k, j := Delivery(fs, dumps, stringify, parse, stage, engineChunks, false, backendChunks);
    assert fs[..k] == fs;
  }

  lemma WithNote(shown: seq<string>, noted: bool)
    ensures Concat(shown + (if noted then [INTERRUPTED] else [])) == Concat(shown) + (if noted then INTERRUPTED else "")
  {
    ConcatSnoc(shown, INTERRUPTED);
    AppendNothing(shown);
    AppendNothing(Concat(shown));
  }

  /** Such a turn arrives: the browser shows what its tokens show. */
  lemma EventsArrive(events: seq<Event<Json>>, stage: seq<Json> -> Staging, dumps: Json -> string,
                     stringify: Json -> string, parse: string -> Option<Json>,
                     engineChunks: seq<string>, backendChunks: seq<string>)
    requires Writes(dumps, parse) && Writes(stringify, parse) && TokensThenActions(events)
    requires Concat(engineChunks) == PrintAll(EventFrames(events) + [DoneFrame], dumps)
    requires Concat(backendChunks) == PrintAll(Relayed(engineChunks, false, stage, parse), stringify)
    ensures !Browsed(backendChunks, parse).threw
    ensures ReadsAs(Concat(Tokens(Browsed(backendChunks, parse).out)), stage(events[|events| - 1].list).StagingThrew?,
                    Shown(events[..|events| - 1]))
    ensures Cards(Browsed(backendChunks, parse).out) == CardsOf(stage(events[|events| - 1].list))
  {
    var fs := EventFrames(events) + [DoneFrame];
    EngineFramesWellFormed(events);
    var j := WholeDelivery(fs, dumps, stringify, parse, stage, engineChunks, backendChunks);
    StagingDecides(stage, events, j);
    WithNote(Deltas(fs[..j]), j < |fs|);
  }

  lemma TurnArrives(deltas: seq<string>, events: seq<Event<Json>>, parseActions: string -> seq<Json>,
                    stage: seq<Json> -> Staging, dumps: Json -> string, stringify: Json -> string,
                    parse: string -> Option<Json>, engineChunks: seq<string>, backendChunks: seq<string>)
    requires Writes(dumps, parse) && Writes(stringify, parse)
    requires CompletedTurn(Concat(deltas), events, parseActions)
    requires Concat(engineChunks) == PrintAll(EventFrames(events) + [DoneFrame], dumps)
    requires Concat(backendChunks) == PrintAll(Relayed(engineChunks, false, stage, parse), stringify)
    ensures !Browsed(backendChunks, parse).threw
    ensures ReadsAs(Concat(Tokens(Browsed(backendChunks, parse).out)),
                    stage(ProposedActions(Concat(deltas), parseActions)).StagingThrew?, Prose(Concat(deltas)))
    ensures Cards(Browsed(backendChunks, parse).out) == CardsOf(stage(ProposedActions(Concat(deltas), parseActions)))
  {
    EventsArrive(events, stage, dumps, stringify, parse, engineChunks, backendChunks);
  }

  lemma BrokenEvents(received: string, message: string, events: seq<Event<Json>>)
    requires BrokenTurn(received, events, message)
    ensures TokensThenActions(events) && events[|events| - 1].list == []
    ensures EndsInNote(received, message, Shown(events[..|events| - 1]), Shown(events[..|events| - 2]))
  {
    var m := |events| - 2;
    assert events[m..][0] == Token(ErrorNote(message)) && events[m..][1] == Actions([]);
    assert events[..m + 1] == events[..m] + [Token(ErrorNote(message))];
    ShownSnoc(events[..m], Token(ErrorNote(message)));
  }

  /** After an exception a prefix of the prose arrives, short by at most the held-back tail, and then
      the error note. */
  lemma BrokenTurnArrives(received: string, message: string, events: seq<Event<Json>>, stage: seq<Json> -> Staging,
                          dumps: Json -> string, stringify: Json -> string, parse: string -> Option<Json>,
                          engineChunks: seq<string>, backendChunks: seq<string>)
    requires Writes(dumps, parse) && Writes(stringify, parse)
    requires BrokenTurn(received, events, message)
    requires Concat(engineChunks) == PrintAll(EventFrames(events) + [DoneFrame], dumps)
    requires Concat(backendChunks) == PrintAll(Relayed(engineChunks, false, stage, parse), stringify)
    ensures !Browsed(backendChunks, parse).threw
    ensures exists before ::
              ReadsAs(Concat(Tokens(Browsed(backendChunks, parse).out)), stage([]).StagingThrew?, before)
              && ShowsBroken(received, message, before)
    ensures Cards(Browsed(backendChunks, parse).out) == CardsOf(stage([]))
  {
    BrokenEvents(received, message, events);
    EventsArrive(events, stage, dumps, stringify, parse, engineChunks, backendChunks);
    assert ShowsBroken(received, message, Shown(events[..|events| - 1]));
  }

  /** What the user reads after an exception in the model's stream: a prefix of the prose received, short
      by at most the held-back tail, and whole if the marker had arrived; then the error note. */
  ghost predicate ShowsBroken(received: string, message: string, text: string) {
    exists shown :: EndsInNote(received, message, text, shown)
  }

  ghost predicate EndsInNote(received: string, message: string, text: string, shown: string) {
    && text == shown + ErrorNote(message)
    && shown <= Prose(received)
    && |Prose(received)| <= |shown| + KEEP
    && (ActionText(received).Some? ==> shown == Prose(received))
  }

  /** The text before a possible interruption note. */
  ghost predicate ReadsAs(text: string, throws: bool, before: string) {
    text == before + if throws then INTERRUPTED else ""
  }

  /** The whole way: however the model's text, the engine's output and the backend's output are
      cut into pieces, the browser shows exactly the text before the action marker, provided
      staging the actions does not throw; if it does, the same text and then the note. When the model's
      stream raises, it shows a prefix of that text and the error note. The user is handed exactly the
      cards that the proposed actions were staged as, once, and none if there are none. */
  method AssistantTurn(deltas: seq<string>, failure: Option<string>, parseActions: string -> seq<Json>,
                       stage: seq<Json> -> Staging, dumps: Json -> string, stringify: Json -> string,
                       parse: string -> Option<Json>,
                       cutEngine: string -> seq<string>, cutBackend: string -> seq<string>)
    returns (seen: seq<Seen>, rejected: bool)
    requires Writes(dumps, parse) && Writes(stringify, parse)
    requires forall s :: Concat(cutEngine(s)) == s
    requires forall s :: Concat(cutBackend(s)) == s
    ensures !rejected
    ensures failure.None? ==>
      ReadsAs(Concat(Tokens(seen)), stage(ProposedActions(Concat(deltas), parseActions)).StagingThrew?,
              Prose(Concat(deltas)))
    ensures failure.Some? ==>
      exists before :: ReadsAs(Concat(Tokens(seen)), stage([]).StagingThrew?, before)
                       && ShowsBroken(Concat(deltas), failure.value, before)
    ensures var staged := stage(if failure.None? then ProposedActions(Concat(deltas), parseActions) else []);
            Cards(seen) == if staged.Staged? && staged.cards != [] then [staged.cards] else []
  {
    var written, events := EngineStream(deltas, failure, parseActions, dumps);
    var relayed := Relay(cutEngine(written), false, stage, parse, stringify);
    seen, rejected := Browse(cutBackend(relayed), parse);
    if failure.None? {
      TurnArrives(deltas, events, parseActions, stage, dumps, stringify, parse,
                  cutEngine(written), cutBackend(relayed));
    } else {
      BrokenTurnArrives(Concat(deltas), failure.value, events, stage, dumps, stringify, parse,
                        cutEngine(written), cutBackend(relayed));
    }
  }
}
