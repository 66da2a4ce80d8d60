/** From the model's plain text to the HTML body of a reply: escaping and paragraphs. */
module ReplyHtml {
  import opened Text

  function Substitute(c: char, with: string): char -> string { (x: char) => if x == c then with else [x] }

  /** Replace every `c` in the string. */
  function Replace(s: string, c: char, with: string): string { FlatMap(Substitute(c, with), s) }

  /** Five passes over the whole string; the ampersands have to go first. */
  function EscapeHtml(s: string): string {
    Replace(Replace(Replace(Replace(Replace(s,
      '&', "&amp;"), '<', "&lt;"), '>', "&gt;"), '"', "&quot;"), '\'', "&#39;")
  }

  /** The text between runs of two or more newlines. */
  function SplitBlank(s: string): seq<string>
    decreases |s|
  {
    var at := Find(s, "\n\n");
    if at < 0 then [s] else [s[..at]] + SplitBlank(SkipNewlines(s[at + 2..]))
  }

  function SkipNewlines(s: string): (r: string)
    ensures |r| <= |s|
  {
    if s != "" && s[0] == '\n' then SkipNewlines(s[1..]) else s
  }

  function TrimmedUnlessBlank(): string -> seq<string> { (p: string) => if Trim(p) == "" then [] else [Trim(p)] }

  function Paragraphs(text: string): seq<string> { FlatMap(TrimmedUnlessBlank(), SplitBlank(text)) }

  function ParagraphHtml(): string -> string {
    (p: string) => "<p>" + Replace(EscapeHtml(p), '\n', "<br>") + "</p>"
  }

  function ParagraphsToHtml(text: string): string { FlatMap(ParagraphHtml(), Paragraphs(text)) }

  // ---- what a reader of the HTML sees --------------------------------------------------------

  datatype Token = Open | Close | Break | Char(c: char)

  function EscapeChar(c: char): string {
    match c
    case '&' => "&amp;"
    case '<' => "&lt;"
    case '>' => "&gt;"
    case '"' => "&quot;"
    case '\'' => "&#39;"
    case _ => [c]
  }

  function Written(): Token -> string {
    (t: Token) => match t
      case Open => "<p>"
      case Close => "</p>"
      case Break => "<br>"
      case Char(c) => EscapeChar(c)
  }

  function Html(tokens: seq<Token>): string { FlatMap(Written(), tokens) }

  datatype Piece = Piece(token: Token, width: nat)

  /** The tag, the entity or else the single character that `h` begins with. */
  function FirstPiece(h: string): (piece: Piece)
    requires h != ""
    ensures 0 < piece.width <= |h|
  {
    if StartsWith(h, "<p>") then Piece(Open, 3)
    else if StartsWith(h, "</p>") then Piece(Close, 4)
    else if StartsWith(h, "<br>") then Piece(Break, 4)
    else if StartsWith(h, "&amp;") then Piece(Char('&'), 5)
    else if StartsWith(h, "&lt;") then Piece(Char('<'), 4)
    else if StartsWith(h, "&gt;") then Piece(Char('>'), 4)
    else if StartsWith(h, "&quot;") then Piece(Char('"'), 6)
    else if StartsWith(h, "&#39;") then Piece(Char('\''), 5)
    else Piece(Char(h[0]), 1)
  }

  function ReadHtml(h: string): seq<Token>
    decreases |h|
  {
    if h == "" then [] else [FirstPiece(h).token] + ReadHtml(h[FirstPiece(h).width..])
  }

  lemma WrittenIsFirst(t: Token, rest: string)
    ensures var w := Written()(t);
            w != "" && FirstPiece(w + rest) == Piece(t, |w|) && (w + rest)[|w|..] == rest
  {
    var w := Written()(t);
    var h := w + rest;
    assert h[..|w|] == w && h[|w|..] == rest;
    assert h[0] == w[0];
    if !t.Char? || t.c in {'&', '<', '>', '"', '\''} {
      assert h[1] == w[1] && h[2] == w[2];
    }
  }

  /** Any list of tokens is read back from its HTML. */
  lemma {:induction false} ReadBack(tokens: seq<Token>)
    ensures ReadHtml(Html(tokens)) == tokens
  {
    if tokens != [] {
      assert tokens == tokens[..1] + tokens[1..];
      FlatMapAppend(Written(), tokens[..1], tokens[1..]);
      FlatMapSnoc(Written(), [], tokens[0]);
      AppendNothing([tokens[0]]);
      AppendNothing(Written()(tokens[0]));
      ReadBack(tokens[1..]);
      WrittenIsFirst(tokens[0], Html(tokens[1..]));
    }
  }

  // ---- the five passes are one pass -----------------------------------------------------------

  function Chars(s: string): seq<Token> { seq(|s|, i requires 0 <= i < |s| => Char(s[i])) }

  lemma CharsSnoc(s: string, c: char)
    ensures Chars(s + [c]) == Chars(s) + [Char(c)]
  {
  }

  lemma {:induction false} ReplaceAbsent(s: string, c: char, with: string)
    requires c !in s
    ensures Replace(s, c, with) == s
  {
    if s != "" {
      var n := |s| - 1;
      ReplaceAbsent(s[..n], c, with);
      assert s == s[..n] + [s[n]];
    }
  }

  lemma ReplaceOne(x: char, c: char, with: string)
    ensures Replace([x], c, with) == if x == c then with else [x]
  {
    FlatMapSnoc(Substitute(c, with), [], x);
    AppendNothing([x]);
    AppendNothing(with);
  }

  lemma EscapeAppend(a: string, b: string)
    ensures EscapeHtml(a + b) == EscapeHtml(a) + EscapeHtml(b)
  {
    FlatMapAppend(Substitute('&', "&amp;"), a, b);
    var a1, b1 := Replace(a, '&', "&amp;"), Replace(b, '&', "&amp;");
    FlatMapAppend(Substitute('<', "&lt;"), a1, b1);
    var a2, b2 := Replace(a1, '<', "&lt;"), Replace(b1, '<', "&lt;");
    FlatMapAppend(Substitute('>', "&gt;"), a2, b2);
    var a3, b3 := Replace(a2, '>', "&gt;"), Replace(b2, '>', "&gt;");
    FlatMapAppend(Substitute('"', "&quot;"), a3, b3);
    var a4, b4 := Replace(a3, '"', "&quot;"), Replace(b3, '"', "&quot;");
    FlatMapAppend(Substitute('\'', "&#39;"), a4, b4);
  }

  predicate Plain(s: string) { '<' !in s && '>' !in s && '"' !in s && '\'' !in s }

  /** The passes after the one that handles a character leave its entity alone. */
  lemma LaterPassesKeep(t: string)
    requires '"' !in t && '\'' !in t
    ensures Replace(Replace(t, '"', "&quot;"), '\'', "&#39;") == t
  {
    ReplaceAbsent(t, '"', "&quot;");
    ReplaceAbsent(t, '\'', "&#39;");
  }

  lemma AllPassesKeep(t: string)
    requires Plain(t)
    ensures Replace(Replace(Replace(Replace(t, '<', "&lt;"), '>', "&gt;"), '"', "&quot;"), '\'', "&#39;") == t
  {
    ReplaceAbsent(t, '<', "&lt;");
    ReplaceAbsent(t, '>', "&gt;");
    LaterPassesKeep(t);
  }

  lemma EscapeOrdinary(c: char)
    requires Plain([c])
    ensures EscapeHtml([c]) == EscapeChar(c)
  {
    ReplaceOne(c, '&', "&amp;");
    AllPassesKeep(EscapeChar(c));
  }

  lemma EscapeBracket(c: char)
    requires c == '<' || c == '>'
    ensures EscapeHtml([c]) == EscapeChar(c)
  {
    ReplaceAbsent([c], '&', "&amp;");
    if c == '<' {
      ReplaceOne(c, '<', "&lt;");
      ReplaceAbsent("&lt;", '>', "&gt;");
    } else {
      ReplaceAbsent([c], '<', "&lt;");
      ReplaceOne(c, '>', "&gt;");
    }
    LaterPassesKeep(EscapeChar(c));
  }

  lemma EscapeQuote(c: char)
    requires c == '"' || c == '\''
    ensures EscapeHtml([c]) == EscapeChar(c)
  {
    ReplaceAbsent([c], '&', "&amp;");
    ReplaceAbsent([c], '<', "&lt;");
    ReplaceAbsent([c], '>', "&gt;");
    if c == '"' {
      ReplaceOne(c, '"', "&quot;");
      ReplaceAbsent("&quot;", '\'', "&#39;");
    } else {
      ReplaceAbsent([c], '"', "&quot;");
      ReplaceOne(c, '\'', "&#39;");
    }
  }

  lemma EscapeOne(c: char)
    ensures EscapeHtml([c]) == EscapeChar(c)
  {
    if c == '<' || c == '>' {
      EscapeBracket(c);
    } else if c == '"' || c == '\'' {
      EscapeQuote(c);
    } else {
      EscapeOrdinary(c);
    }
  }

  /** The five passes together write each character on its own. */
  lemma {:induction false} EscapeIsOnePass(s: string)
    ensures EscapeHtml(s) == Html(Chars(s))
  {
    if s != "" {
      var n := |s| - 1;
      EscapeIsOnePass(s[..n]);
      assert s == s[..n] + [s[n]];
      EscapeAppend(s[..n], [s[n]]);
      EscapeOne(s[n]);
      CharsSnoc(s[..n], s[n]);
      FlatMapSnoc(Written(), Chars(s[..n]), Char(s[n]));
    }
  }

  lemma CharsTellApart(a: string, b: string)
    requires Chars(a) == Chars(b)
    ensures a == b
  {
    assert |a| == |Chars(a)| && |b| == |Chars(b)|;
    assert forall i :: 0 <= i < |a| ==> Chars(a)[i] == Char(a[i]);
    assert forall i :: 0 <= i < |b| ==> Chars(b)[i] == Char(b[i]);
  }

  /** A reader recovers the text, so different texts never escape to the same HTML. */
  lemma EscapeIsInjective(a: string, b: string)
    ensures ReadHtml(EscapeHtml(a)) == Chars(a)
    ensures EscapeHtml(a) == EscapeHtml(b) ==> a == b
  {
    EscapeIsOnePass(a);
    EscapeIsOnePass(b);
    ReadBack(Chars(a));
    ReadBack(Chars(b));
    if EscapeHtml(a) == EscapeHtml(b) {
      CharsTellApart(a, b);
    }
  }

  // ---- no markup but its own -------------------------------------------------------------------

  predicate TagAt(h: string, i: nat) {
    OccursAt(h, "<p>", i) || OccursAt(h, "</p>", i) || OccursAt(h, "<br>", i)
  }

  ghost predicate OnlyOwnTags(h: string) { forall i: nat :: i < |h| && h[i] == '<' ==> TagAt(h, i) }

  lemma OwnTagsAppend(h: string, t: Token)
    requires OnlyOwnTags(h)
    ensures OnlyOwnTags(h + Written()(t))
  {
    var w := Written()(t);
    forall i: nat | i < |h + w| && (h + w)[i] == '<'
      ensures TagAt(h + w, i)
    {
      if i < |h| {
        assert TagAt(h, i);
        TagStays(h, w, i);
      } else {
        assert w[i - |h|] == '<';
        TagInWritten(t, i - |h|);
        OccursInSecond(h, w, w, 0);
      }
    }
  }

  lemma TagStays(h: string, w: string, i: nat)
    requires TagAt(h, i)
    ensures TagAt(h + w, i)
  {
    if OccursAt(h, "<p>", i) { OccursInFirst(h, w, "<p>", i); }
    if OccursAt(h, "</p>", i) { OccursInFirst(h, w, "</p>", i); }
    if OccursAt(h, "<br>", i) { OccursInFirst(h, w, "<br>", i); }
  }

  lemma TagInWritten(t: Token, k: nat)
    requires k < |Written()(t)| && Written()(t)[k] == '<'
    ensures k == 0 && !t.Char? && OccursAt(Written()(t), Written()(t), 0)
  {
    assert OccursAt(Written()(t), Written()(t), 0);
  }

  lemma {:induction false} HtmlHasOnlyOwnTags(tokens: seq<Token>)
    ensures OnlyOwnTags(Html(tokens))
  {
    if tokens != [] {
      var n := |tokens| - 1;
      HtmlHasOnlyOwnTags(tokens[..n]);
      OwnTagsAppend(Html(tokens[..n]), tokens[n]);
    }
  }

  lemma PlainAppend(h: string, c: char)
    requires Plain(h)
    ensures Plain(h + Written()(Char(c)))
  {
    assert Plain(EscapeChar(c));
  }

  lemma {:induction false} PlainChars(s: string)
    ensures Plain(Html(Chars(s)))
  {
    if s != "" {
      var n := |s| - 1;
      PlainChars(s[..n]);
      CharsSnoc(s[..n], s[n]);
      assert s == s[..n] + [s[n]];
      FlatMapSnoc(Written(), Chars(s[..n]), Char(s[n]));
      PlainAppend(Html(Chars(s[..n])), s[n]);
    }
  }

  /** Escaped text holds no markup character at all, so it is safe inside a quoted attribute too. */
  lemma EscapedHasNoMarkup(s: string)
    ensures Plain(EscapeHtml(s))
  {
    EscapeIsOnePass(s);
    PlainChars(s);
  }

  // ---- paragraphs ------------------------------------------------------------------------------

  function InlineChar(c: char): Token { if c == '\n' then Break else Char(c) }

  function Inline(p: string): seq<Token> { seq(|p|, i requires 0 <= i < |p| => InlineChar(p[i])) }

  function ParagraphTokens(): string -> seq<Token> { (p: string) => [Open] + Inline(p) + [Close] }

  function DocumentTokens(paragraphs: seq<string>): seq<Token> { FlatMap(ParagraphTokens(), paragraphs) }

  lemma InlineSnoc(p: string, c: char)
    ensures Inline(p + [c]) == Inline(p) + [InlineChar(c)]
  {
  }

  lemma EntitiesHaveNoNewline(c: char)
    requires c != '\n'
    ensures '\n' !in EscapeChar(c)
  {
  }

  lemma BreakChar(c: char)
    ensures Replace(EscapeChar(c), '\n', "<br>") == Written()(InlineChar(c))
  {
    if c == '\n' {
      ReplaceOne(c, '\n', "<br>");
    } else {
      EntitiesHaveNoNewline(c);
      ReplaceAbsent(EscapeChar(c), '\n', "<br>");
    }
  }

  lemma {:induction false} BreaksAreTokens(p: string)
    ensures Replace(EscapeHtml(p), '\n', "<br>") == Html(Inline(p))
  {
    if p != "" {
      var n := |p| - 1;
      assert p == p[..n] + [p[n]];
      BreaksAreTokens(p[..n]);
      EscapeAppend(p[..n], [p[n]]);
      FlatMapAppend(Substitute('\n', "<br>"), EscapeHtml(p[..n]), EscapeHtml([p[n]]));
      EscapeOne(p[n]);
      BreakChar(p[n]);
      InlineSnoc(p[..n], p[n]);
      FlatMapSnoc(Written(), Inline(p[..n]), InlineChar(p[n]));
    }
  }

  lemma ParagraphIsTokens(p: string)
    ensures ParagraphHtml()(p) == Html(ParagraphTokens()(p))
  {
    BreaksAreTokens(p);
    FlatMapAppend(Written(), [Open] + Inline(p), [Close]);
    FlatMapAppend(Written(), [Open], Inline(p));
    HtmlOne(Open);
    HtmlOne(Close);
  }

  lemma HtmlOne(t: Token)
    ensures Html([t]) == Written()(t)
  {
    FlatMapSnoc(Written(), [], t);
    AppendNothing([t]);
    AppendNothing(Written()(t));
  }

  lemma {:induction false} DocumentIsTokens(ps: seq<string>)
    ensures FlatMap(ParagraphHtml(), ps) == Html(DocumentTokens(ps))
  {
    if ps != [] {
      var n := |ps| - 1;
      DocumentIsTokens(ps[..n]);
      ParagraphIsTokens(ps[n]);
      FlatMapAppend(Written(), DocumentTokens(ps[..n]), ParagraphTokens()(ps[n]));
    }
  }

  /** Whatever the model wrote, the reply's only tags are its own, and a reader sees exactly
      its paragraphs, character by character. */
  lemma ReplyShowsTheParagraphs(text: string)
    ensures OnlyOwnTags(ParagraphsToHtml(text))
    ensures ReadHtml(ParagraphsToHtml(text)) == DocumentTokens(Paragraphs(text))
  {
    DocumentIsTokens(Paragraphs(text));
    HtmlHasOnlyOwnTags(DocumentTokens(Paragraphs(text)));
    ReadBack(DocumentTokens(Paragraphs(text)));
  }

  // ---- which paragraphs ------------------------------------------------------------------------

  predicate ParagraphText(p: string) { p != "" && Trimmed(p) && Find(p, "\n\n") < 0 }

  function JoinBlank(ps: seq<string>): string {
    if ps == [] then "" else if |ps| == 1 then ps[0] else ps[0] + "\n\n" + JoinBlank(ps[1..])
  }

  lemma {:induction false} SplitFirst(p: string, rest: string)
    requires ParagraphText(p) && rest != "" && rest[0] != '\n'
    ensures SplitBlank(p + "\n\n" + rest) == [p] + SplitBlank(rest)
  {
    var t := p + "\n\n" + rest;
    assert t[|p|..|p| + 2] == "\n\n";
    assert IsSpace('\n');
    forall i: nat | i < |p|
      ensures !OccursAt(t, "\n\n", i)
    {
      NoEarlierBlank(p, rest, i);
    }
    FindIs(t, "\n\n", |p|);
    assert t[..|p|] == p && t[|p| + 2..] == rest;
  }

  lemma NoEarlierBlank(p: string, rest: string, i: nat)
    requires ParagraphText(p) && i < |p|
    ensures !OccursAt(p + "\n\n" + rest, "\n\n", i)
  {
    var t := p + "\n\n" + rest;
    assert IsSpace('\n');
    if i + 2 <= |p| {
      assert t[i..i + 2] == p[i..i + 2];
      assert !OccursAt(p, "\n\n", i);
    } else {
      assert t[i..i + 2][0] == p[|p| - 1];
    }
  }

  lemma JoinedStartsLikeFirst(ps: seq<string>)
    requires ps != [] && ParagraphText(ps[0])
    ensures JoinBlank(ps) != "" && JoinBlank(ps)[0] == ps[0][0] != '\n'
  {
    assert IsSpace('\n');
  }

  predicate AllParagraphs(ps: seq<string>) { forall i :: 0 <= i < |ps| ==> ParagraphText(ps[i]) }

  lemma SplitAlone(p: string)
    requires ParagraphText(p)
    ensures SplitBlank(p) == [p]
  {
  }

  lemma {:induction false} SplitNext(p: string, rest: seq<string>)
    requires ParagraphText(p) && rest != [] && ParagraphText(rest[0]) && SplitBlank(JoinBlank(rest)) == rest
    ensures SplitBlank(p + "\n\n" + JoinBlank(rest)) == [p] + rest
  {
    JoinedStartsLikeFirst(rest);
    SplitFirst(p, JoinBlank(rest));
  }

  lemma {:induction false} SplitJoined(ps: seq<string>)
    requires ps != [] && AllParagraphs(ps)
    ensures SplitBlank(JoinBlank(ps)) == ps
  {
    if |ps| == 1 {
      SplitAlone(ps[0]);
      assert ps == [ps[0]];
    } else {
      SplitJoined(ps[1..]);
      SplitNext(ps[0], ps[1..]);
      assert ps == [ps[0]] + ps[1..];
    }
  }

  lemma TrimmedAlone(p: string)
    requires ParagraphText(p)
    ensures TrimmedUnlessBlank()(p) == [p]
  {
    TrimIsTrimmed(p);
  }

  lemma {:induction false} TrimmingKeeps(ps: seq<string>)
    requires AllParagraphs(ps)
    ensures FlatMap(TrimmedUnlessBlank(), ps) == ps
  {
    if ps != [] {
      var n := |ps| - 1;
      TrimmingKeeps(ps[..n]);
      TrimmedAlone(ps[n]);
      FlatMapSnoc(TrimmedUnlessBlank(), ps[..n], ps[n]);
      assert ps == ps[..n] + [ps[n]];
    }
  }

  /** Paragraphs written one blank line apart come back as they were. */
  lemma ParagraphsOfJoined(ps: seq<string>)
    requires AllParagraphs(ps)
    ensures Paragraphs(JoinBlank(ps)) == ps
  {
    if ps == [] {
      assert SplitBlank("") == [""];
      assert Trim("") == "";
      FlatMapSnoc(TrimmedUnlessBlank(), [], "");
      AppendNothing([""]);
    } else {
      SplitJoined(ps);
      TrimmingKeeps(ps);
    }
  }
}
