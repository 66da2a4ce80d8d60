/** Strings as the engine, the backend and the browser see them: sequences of characters,
    with the few library operations (find, split, join, trim, prefix tests) their code relies on. */
module Text {

  datatype Option<+T> = None | Some(value: T)

  // ---- concatenation of pieces -------------------------------------------------------------

  /** The text a list of pieces makes up. */
  function Concat(pieces: seq<string>): string {
    if pieces == [] then "" else pieces[0] + Concat(pieces[1..])
  }

  lemma Regroup<T>(a: seq<T>, b: seq<T>, c: seq<T>)
    ensures a + (b + c) == (a + b) + c
  {
  }

  lemma AppendNothing<T>(s: seq<T>)
    ensures s + [] == s && [] + s == s
  {
  }

  lemma {:induction false} ConcatAppend(a: seq<string>, b: seq<string>)
    ensures Concat(a + b) == Concat(a) + Concat(b)
  {
    if a == [] {
      assert a + b == b;
    } else {
      assert (a + b)[1..] == a[1..] + b;
      ConcatAppend(a[1..], b);
      Regroup(a[0], Concat(a[1..]), Concat(b));
    }
  }

  lemma ConcatSnoc(a: seq<string>, piece: string)
    ensures Concat(a + [piece]) == Concat(a) + piece
  {
    ConcatAppend(a, [piece]);
    assert Concat([piece]) == piece;
  }

  lemma ConcatTake(pieces: seq<string>, n: nat)
    requires n < |pieces|
    ensures Concat(pieces[..n + 1]) == Concat(pieces[..n]) + pieces[n]
  {
    assert pieces[..n + 1] == pieces[..n] + [pieces[n]];
    ConcatSnoc(pieces[..n], pieces[n]);
  }

  /** The first `n` elements, or all of them. */
  function Take<T>(s: seq<T>, n: nat): seq<T> { if |s| <= n then s else s[..n] }

  /** The lists `f` makes of the items, one after the other. */
  function FlatMap<A, B>(f: A -> seq<B>, items: seq<A>): seq<B> {
    if items == [] then [] else FlatMap(f, items[..|items| - 1]) + f(items[|items| - 1])
  }

  lemma FlatMapSnoc<A, B>(f: A -> seq<B>, items: seq<A>, item: A)
    ensures FlatMap(f, items + [item]) == FlatMap(f, items) + f(item)
  {
    assert (items + [item])[..|items|] == items;
  }

  lemma {:induction false} FlatMapAppend<A, B>(f: A -> seq<B>, a: seq<A>, b: seq<A>)
    ensures FlatMap(f, a + b) == FlatMap(f, a) + FlatMap(f, b)
  {
    if b == [] {
      AppendNothing(a);
      AppendNothing(FlatMap(f, a));
    } else {
      var n := |b| - 1;
      FlatMapAppend(f, a, b[..n]);
      FlatMapSnocOfAppend(f, a, b[..n], b[n]);
      assert b == b[..n] + [b[n]];
    }
  }

  lemma FlatMapSnocOfAppend<A, B>(f: A -> seq<B>, a: seq<A>, b: seq<A>, item: A)
    requires FlatMap(f, a + b) == FlatMap(f, a) + FlatMap(f, b)
    ensures FlatMap(f, a + (b + [item])) == FlatMap(f, a) + FlatMap(f, b + [item])
  {
    Regroup(a, b, [item]);
    FlatMapSnoc(f, a + b, item);
    FlatMapSnoc(f, b, item);
    Regroup(FlatMap(f, a), FlatMap(f, b), f(item));
  }

  // ---- substring search (str.find / indexOf) ------------------------------------------------

  predicate OccursAt(s: string, p: string, i: nat) {
    i + |p| <= |s| && s[i..i + |p|] == p
  }

  /** The least position at or after `from` where `p` occurs in `s`, or -1. */
  function FindFrom(s: string, p: string, from: nat): (r: int)
    requires from <= |s| + 1
    ensures r == -1 || (from <= r && OccursAt(s, p, r))
    ensures forall i: nat :: from <= i && (r == -1 || i < r) ==> !OccursAt(s, p, i)
    decreases |s| + 1 - from
  {
    if from + |p| > |s| then -1
    else if OccursAt(s, p, from) then from
    else FindFrom(s, p, from + 1)
  }

  function Find(s: string, p: string): (r: int)
    ensures r == -1 || (0 <= r && OccursAt(s, p, r))
    ensures forall i: nat :: (r == -1 || i < r) ==> !OccursAt(s, p, i)
  {
    FindFrom(s, p, 0)
  }

  /** The first occurrence is the only position with none before it. */
  lemma FindIs(s: string, p: string, at: nat)
    requires OccursAt(s, p, at)
    requires forall i: nat :: i < at ==> !OccursAt(s, p, i)
    ensures Find(s, p) == at
  {
  }

  /** An occurrence that ends inside the first part does not depend on what follows it. */
  lemma OccursInFirst(s: string, t: string, p: string, i: nat)
    requires i + |p| <= |s|
    ensures OccursAt(s + t, p, i) == OccursAt(s, p, i)
  {
    assert (s + t)[i..i + |p|] == s[i..i + |p|];
  }

  /** An occurrence that starts inside the second part does not depend on what precedes it. */
  lemma OccursInSecond(s: string, t: string, p: string, i: nat)
    ensures OccursAt(s + t, p, |s| + i) == OccursAt(t, p, i)
  {
    if i + |p| <= |t| {
      assert (s + t)[|s| + i..|s| + i + |p|] == t[i..i + |p|];
    }
  }

  /** Text appended later cannot move a first occurrence that is already there. */
  lemma FindStable(s: string, t: string, p: string)
    requires Find(s, p) >= 0
    ensures Find(s + t, p) == Find(s, p)
  {
    var at := Find(s, p);
    OccursInFirst(s, t, p, at);
    forall i: nat | i < at
      ensures !OccursAt(s + t, p, i)
    {
      OccursInFirst(s, t, p, i);
    }
    FindIs(s + t, p, at);
  }

  /** `s.indexOf(c, from)`. */
  function IndexOf(s: string, c: char, from: nat): (r: int)
    requires from <= |s|
    ensures r == -1 || (from <= r < |s| && s[r] == c)
    ensures forall j :: from <= j < (if r == -1 then |s| else r) ==> s[j] != c
    decreases |s| - from
  {
    if from == |s| then -1 else if s[from] == c then from else IndexOf(s, c, from + 1)
  }

  /** The text of the leftmost non-empty `<…>`. */
  function Bracketed(s: string, from: nat): Option<string>
    requires from <= |s|
    decreases |s| - from
  {
    if from == |s| then None
    else
      var close := if s[from] == '<' then IndexOf(s, '>', from + 1) else -1;
      if close > from + 1 then Some(s[from + 1..close]) else Bracketed(s, from + 1)
  }

  lemma {:induction false} BracketedFinds(s: string, from: nat, open: nat, close: nat)
    requires from <= open && open + 1 < close < |s| && s[open] == '<' && s[close] == '>'
    requires forall i :: from <= i < open ==> s[i] != '<'
    requires forall i :: open < i < close ==> s[i] != '>'
    ensures Bracketed(s, from) == Some(s[open + 1..close])
    decreases open - from
  {
    if from < open { BracketedFinds(s, from + 1, open, close); }
  }

  /** `name <inner> rest`. */
  function InBrackets(name: string, inner: string, rest: string): string { name + ("<" + (inner + (">" + rest))) }

  lemma BracketedInside(name: string, inner: string, rest: string)
    requires '<' !in name && '>' !in inner && inner != ""
    ensures Bracketed(InBrackets(name, inner, rest), 0) == Some(inner)
  {
    var s, open := InBrackets(name, inner, rest), |name|;
    var close := open + 1 + |inner|;
    assert forall i :: 0 <= i < open ==> s[i] == name[i] && name[i] in name;
    assert forall i :: open < i < close ==> s[i] == inner[i - open - 1] && inner[i - open - 1] in inner;
    BracketedFinds(s, 0, open, close);
    assert s[open + 1..close] == inner;
  }

  lemma {:induction false} NoBracket(s: string, from: nat)
    requires from <= |s| && '<' !in s
    ensures Bracketed(s, from).None?
    decreases |s| - from
  {
    if from < |s| { NoBracket(s, from + 1); }
  }

  lemma {:induction false} BracketedIsPart(s: string, from: nat)
    requires from <= |s|
    ensures Bracketed(s, from).Some? ==> forall c :: c in Bracketed(s, from).value ==> c in s
    decreases |s| - from
  {
    if from < |s| { BracketedIsPart(s, from + 1); }
  }

  // ---- lines --------------------------------------------------------------------------------

  predicate NoNewline(s: string) { '\n' !in s }

  /** `s.split('\n')`. */
  function SplitLines(s: string): (lines: seq<string>)
    ensures |lines| > 0
  {
    var at := Find(s, "\n");
    if at < 0 then [s] else [s[..at]] + SplitLines(s[at + 1..])
  }

  /** `lines.join('\n')`. */
  function JoinLines(lines: seq<string>): string {
    if lines == [] then ""
    else if |lines| == 1 then lines[0]
    else lines[0] + "\n" + JoinLines(lines[1..])
  }

  lemma OneLine(s: string)
    requires NoNewline(s)
    ensures SplitLines(s) == [s]
  {
    forall i: nat
      ensures !OccursAt(s, "\n", i)
    {
      if i < |s| { assert s[i..i + 1] == [s[i]]; }
    }
  }

  lemma FirstLine(s: string, rest: string)
    requires NoNewline(s)
    ensures SplitLines(s + "\n" + rest) == [s] + SplitLines(rest)
  {
    var t := s + "\n" + rest;
    assert t[|s|..|s| + 1] == "\n";
    forall i: nat | i < |s|
      ensures !OccursAt(t, "\n", i)
    {
      assert t[i..i + 1] == [s[i]];
    }
    FindIs(t, "\n", |s|);
    assert t[..|s|] == s && t[|s| + 1..] == rest;
  }

  lemma FirstJoined(lines: seq<string>)
    requires |lines| > 1 && NoNewline(lines[0])
    ensures SplitLines(JoinLines(lines)) == [lines[0]] + SplitLines(JoinLines(lines[1..]))
  {
    FirstLine(lines[0], JoinLines(lines[1..]));
  }

  lemma OneJoined(lines: seq<string>)
    requires |lines| == 1 && NoNewline(lines[0])
    ensures SplitLines(JoinLines(lines)) == lines
  {
    OneLine(lines[0]);
  }

  predicate AllOneLine(lines: seq<string>) { forall i :: 0 <= i < |lines| ==> NoNewline(lines[i]) }

  lemma {:induction false} SplitJoined(lines: seq<string>)
    requires lines != [] && AllOneLine(lines)
    ensures SplitLines(JoinLines(lines)) == lines
  {
    if |lines| == 1 {
      OneJoined(lines);
    } else {
      SplitJoined(lines[1..]);
      FirstJoined(lines);
      assert lines == [lines[0]] + lines[1..];
    }
  }

  // ---- prefixes, trimming -------------------------------------------------------------------

  predicate StartsWith(s: string, p: string) { |p| <= |s| && s[..|p|] == p }

  predicate EndsWith(s: string, p: string) { |p| <= |s| && s[|s| - |p|..] == p }

  /** White space as `String.prototype.trim` sees it. */
  predicate IsSpace(c: char) {
    c in {' ', '\t', '\n', '\r', '\U{000B}', '\U{000C}', '\U{00A0}', '\U{1680}', '\U{2028}', '\U{2029}',
          '\U{202F}', '\U{205F}', '\U{3000}', '\U{FEFF}'}
    || '\U{2000}' <= c <= '\U{200A}'
  }

  function TrimLeft(s: string): string {
    if s != "" && IsSpace(s[0]) then TrimLeft(s[1..]) else s
  }

  function TrimRight(s: string): string {
    if s != "" && IsSpace(s[|s| - 1]) then TrimRight(s[..|s| - 1]) else s
  }

  function Trim(s: string): string { TrimRight(TrimLeft(s)) }

  predicate Trimmed(s: string) {
    s == "" || (!IsSpace(s[0]) && !IsSpace(s[|s| - 1]))
  }

  lemma {:induction false} TrimRightResult(s: string)
    ensures TrimRight(s) <= s
    ensures TrimRight(s) != "" ==> !IsSpace(TrimRight(s)[|TrimRight(s)| - 1])
  {
    if s != "" && IsSpace(s[|s| - 1]) { TrimRightResult(s[..|s| - 1]); }
  }

  lemma {:induction false} TrimLeftResult(s: string)
    ensures TrimLeft(s) != "" ==> !IsSpace(TrimLeft(s)[0])
  {
    if s != "" && IsSpace(s[0]) { TrimLeftResult(s[1..]); }
  }

  lemma TrimIsTrimmed(s: string)
    ensures Trimmed(Trim(s))
    ensures Trimmed(s) ==> Trim(s) == s
  {
    TrimLeftResult(s);
    TrimRightResult(TrimLeft(s));
  }

  ghost predicate AllSpace(s: string) { forall i :: 0 <= i < |s| ==> IsSpace(s[i]) }

  lemma {:induction false} TrimRightCuts(s: string)
    ensures TrimRight(s) <= s && AllSpace(s[|TrimRight(s)|..])
  {
    if s != "" && IsSpace(s[|s| - 1]) {
      var front := s[..|s| - 1];
      TrimRightCuts(front);
      assert forall i :: 0 <= i < |front| - |TrimRight(s)| ==> s[|TrimRight(s)|..][i] == front[|TrimRight(s)|..][i];
    }
  }

  lemma {:induction false} TrimLeftCuts(s: string)
    ensures |TrimLeft(s)| <= |s| && s[|s| - |TrimLeft(s)|..] == TrimLeft(s) && AllSpace(s[..|s| - |TrimLeft(s)|])
  {
    if s != "" && IsSpace(s[0]) {
      TrimLeftCuts(s[1..]);
      var n := |s| - |TrimLeft(s)|;
      assert s[1..][n - 1..] == s[n..];
      assert forall i :: 1 <= i < n ==> s[..n][i] == s[1..][..n - 1][i - 1];
    }
  }

  /** Trimming takes away white space at both ends and nothing else. */
  lemma TrimCutsSpace(s: string) returns (before: string, after: string)
    ensures s == before + Trim(s) + after && AllSpace(before) && AllSpace(after)
  {
    TrimLeftCuts(s);
    TrimRightCuts(TrimLeft(s));
    before := s[..|s| - |TrimLeft(s)|];
    after := TrimLeft(s)[|Trim(s)|..];
    assert TrimLeft(s) == Trim(s) + after;
    assert s == before + TrimLeft(s);
  }
}
