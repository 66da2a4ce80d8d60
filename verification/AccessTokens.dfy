/** Personal access tokens: which scopes they grant, and when they stop working. */
module AccessTokens {
  import opened Text
  import opened FirstSeen

  function ScopeName(segment: string, action: string): string { segment + ":" + action }

  const KNOWN_SCOPES: seq<string> := [
    ScopeName("mail", "read"), ScopeName("mail", "write"), ScopeName("agent-inbox", "read"),
    ScopeName("agent-inbox", "approve"), ScopeName("cleaner", "run"), ScopeName("admin", "provision"),
    ScopeName("ui", "control")
  ]

  // ---- scopes ------------------------------------------------------------------------------------

  /** One held entry grants a scope: the full wildcard, the scope itself, or its prefix wildcard. */
  predicate Grants(raw: string, required: string) {
    && raw != ""
    && (|| raw == "*"
        || raw == required
        || (EndsWith(raw, ":*") && StartsWith(required, raw[..|raw| - 1]) && |required| > |raw| - 1))
  }

  predicate Satisfies(held: seq<string>, required: string) {
    required != "" && exists i :: 0 <= i < |held| && Grants(held[i], required)
  }

  method ScopeSatisfies(held: seq<string>, required: string) returns (ok: bool)
    ensures ok == Satisfies(held, required)
  {
    if |required| == 0 { return false; }
    for i := 0 to |held|
      invariant forall j :: 0 <= j < i ==> !Grants(held[j], required)
    {
      var raw := held[i];
      if |raw| == 0 { continue; }
      if raw == "*" { return true; }
      if raw == required { return true; }
      if EndsWith(raw, ":*") {
        var prefix := raw[..|raw| - 1];
        if StartsWith(required, prefix) && |required| > |prefix| { return true; }
      }
    }
    return false;
  }

  /** The part of a scope before its first colon. */
  function Segment(scope: string): string {
    var at := Find(scope, ":");
    if at < 0 then scope else scope[..at]
  }

  predicate KnownSegment(prefix: string) { exists i :: 0 <= i < |KNOWN_SCOPES| && Segment(KNOWN_SCOPES[i]) == prefix }

  predicate Acceptable(scope: string) {
    || scope == "*"
    || scope in KNOWN_SCOPES
    || (EndsWith(scope, ":*") && scope[..|scope| - 2] != "" && KnownSegment(scope[..|scope| - 2]))
  }

  function TrimAll(scopes: seq<string>): seq<string> {
    seq(|scopes|, i requires 0 <= i < |scopes| => Trim(scopes[i]))
  }

  function Distinct(scopes: seq<string>): seq<string> { DistinctBy(Itself(), scopes) }

  /** Trim, refuse unknown scopes, drop repetitions. */
  method NormalizeScopes(scopes: seq<string>) returns (normalized: Option<seq<string>>)
    ensures normalized.Some? <==> forall s :: s in TrimAll(scopes) ==> Acceptable(s)
    ensures normalized.Some? ==> normalized.value == Distinct(TrimAll(scopes))
  {
    var result: seq<string> := [];
    ghost var trimmed := TrimAll(scopes);
    for i := 0 to |scopes|
      invariant result == Distinct(trimmed[..i])
      invariant forall s :: s in trimmed[..i] ==> Acceptable(s)
    {
      var scope := Trim(scopes[i]);
      assert trimmed[..i + 1] == trimmed[..i] + [scope];
      var prefix := if EndsWith(scope, ":*") then scope[..|scope| - 2] else "";
      if scope != "*" && scope !in KNOWN_SCOPES && (prefix == "" || !KnownSegment(prefix)) {
        assert trimmed[i] == scope && trimmed[i] in trimmed;
        return None;
      }
      DistinctBySnoc(Itself(), trimmed[..i], scope);
      OwnKeys(result, scope);
      AppendNothing(result);
      if scope !in result { result := result + [scope]; }
    }
    assert trimmed[..|scopes|] == trimmed;
    return Some(result);
  }

  lemma SameMembersGrantSame(a: seq<string>, b: seq<string>, required: string)
    requires forall s :: s in a ==> s in b
    ensures Satisfies(a, required) ==> Satisfies(b, required)
  {
    if Satisfies(a, required) {
      var i :| 0 <= i < |a| && Grants(a[i], required);
      assert a[i] in a;
      var j :| 0 <= j < |b| && b[j] == a[i];
      assert Grants(b[j], required);
    }
  }

  /** Dropping repetitions changes no decision. */
  lemma NormalizingPreservesGrants(scopes: seq<string>, required: string)
    ensures Satisfies(Distinct(TrimAll(scopes)), required) <==> Satisfies(TrimAll(scopes), required)
  {
    forall x
      ensures x in Distinct(TrimAll(scopes)) <==> x in TrimAll(scopes)
    {
      DistinctMembers(TrimAll(scopes), x);
    }
    SameMembersGrantSame(Distinct(TrimAll(scopes)), TrimAll(scopes), required);
    SameMembersGrantSame(TrimAll(scopes), Distinct(TrimAll(scopes)), required);
  }

  /** Trimming takes nothing away: an entry that grants a scope without outer blanks is its own trim. */
  lemma TrimmingKeepsGrants(raw: string, required: string)
    requires required != "" && Trimmed(required) && Grants(raw, required)
    ensures Grants(Trim(raw), required)
  {
    if raw == "*" {
      TrimIsTrimmed(raw);
    } else if raw == required {
      TrimIsTrimmed(raw);
    } else {
      assert raw[0] == raw[..|raw| - 1][0] == required[0];
      assert raw[|raw| - 1] == raw[|raw| - 2..][1] == '*';
      TrimIsTrimmed(raw);
    }
  }

  lemma NormalizingTakesNothingAway(scopes: seq<string>, required: string)
    requires required != "" && Trimmed(required) && Satisfies(scopes, required)
    ensures Satisfies(Distinct(TrimAll(scopes)), required)
  {
    var i :| 0 <= i < |scopes| && Grants(scopes[i], required);
    TrimmingKeepsGrants(scopes[i], required);
    assert Grants(TrimAll(scopes)[i], required);
    NormalizingPreservesGrants(scopes, required);
  }

  /** A held entry that grants the scope only once it is trimmed. */
  predicate GrantsWhenTrimmed(raw: string, required: string) {
    Trim(raw) != raw && Grants(Trim(raw), required)
  }

  /** What normalizing adds: a scope is granted afterwards exactly when it was before, or when an entry
      with outer blanks would grant it without them. */
  lemma NormalizingGrantsIff(scopes: seq<string>, required: string)
    requires required != "" && Trimmed(required)
    ensures Satisfies(Distinct(TrimAll(scopes)), required) <==>
            Satisfies(scopes, required) || exists i :: 0 <= i < |scopes| && GrantsWhenTrimmed(scopes[i], required)
  {
    NormalizingPreservesGrants(scopes, required);
    if Satisfies(scopes, required) { NormalizingTakesNothingAway(scopes, required); }
    if Satisfies(TrimAll(scopes), required) {
      var i :| 0 <= i < |TrimAll(scopes)| && Grants(TrimAll(scopes)[i], required);
      assert GrantsWhenTrimmed(scopes[i], required) || Grants(scopes[i], required);
    }
    if exists i :: 0 <= i < |scopes| && GrantsWhenTrimmed(scopes[i], required) {
      var i :| 0 <= i < |scopes| && GrantsWhenTrimmed(scopes[i], required);
      assert Grants(TrimAll(scopes)[i], required);
    }
  }

  /** For a scope, a blank in front and behind: refused as it is held, granted once normalized. */
  lemma BlanksHideAGrant(scope: string)
    requires scope != "" && Trimmed(scope)
    ensures !Satisfies([" " + scope + " "], scope)
    ensures Satisfies(Distinct(TrimAll([" " + scope + " "])), scope)
  {
    var raw := " " + scope + " ";
    assert |raw| == |scope| + 2 && raw[|raw| - 1] == ' ';
    assert raw[|raw| - 2..][1] == ' ';
    TrimOfPadded(scope);
    assert GrantsWhenTrimmed([raw][0], scope);
    NormalizingGrantsIff([raw], scope);
  }

  lemma TrimOfPadded(s: string)
    requires s != "" && Trimmed(s)
    ensures Trim(" " + s + " ") == s
  {
    var padded := " " + s + " ";
    assert padded[1..] == s + " ";
    assert TrimLeft(s + " ") == s + " ";
    assert (s + " ")[..|s|] == s;
    assert TrimRight(s) == s;
  }

  /** `segment:*` grants a scope `segment':rest` exactly when the segments are the same. */
  lemma WildcardGrantsItsSegment(prefix: string, segment: string, rest: string)
    requires ':' !in prefix && ':' !in segment && rest != ""
    ensures Grants(prefix + ":*", segment + ":" + rest) <==> prefix == segment
  {
    var raw, scope := prefix + ":*", segment + ":" + rest;
    assert EndsWith(raw, ":*");
    assert raw[..|raw| - 1] == prefix + ":";
    assert scope[|segment|] == ':' && raw[|prefix|] == ':';
    if prefix == segment {
      assert scope[..|prefix| + 1] == prefix + ":";
    } else {
      SegmentsDiffer(prefix, segment, rest);
      assert StartsWith(raw, prefix + ":");
    }
  }

  lemma SegmentsDiffer(prefix: string, segment: string, rest: string)
    requires ':' !in prefix && ':' !in segment && prefix != segment
    ensures !StartsWith(segment + ":" + rest, prefix + ":")
  {
    var scope := segment + ":" + rest;
    if |prefix| < |segment| {
      assert scope[|prefix|] == segment[|prefix|] != ':';
      assert (prefix + ":")[|prefix|] == ':';
    } else if |prefix| > |segment| {
      assert scope[|segment|] == ':' && (prefix + ":")[|segment|] == prefix[|segment|] != ':';
    } else {
      assert scope[..|prefix|] == segment && (prefix + ":")[..|prefix|] == prefix;
      assert |prefix| + 1 <= |scope| ==> scope[..|prefix| + 1][..|prefix|] == segment;
    }
  }

  lemma ScopeParts(segment: string, rest: string)
    requires ':' !in segment
    ensures Segment(segment + ":" + rest) == segment
  {
    var scope := segment + ":" + rest;
    assert scope[|segment|..|segment| + 1] == ":";
    forall i: nat | i < |segment|
      ensures !OccursAt(scope, ":", i)
    {
      assert scope[i..i + 1] == [segment[i]];
    }
    FindIs(scope, ":", |segment|);
  }

  lemma KnownScopeParts(scope: string) returns (segment: string, rest: string)
    requires scope in KNOWN_SCOPES
    ensures scope == segment + ":" + rest && ':' !in segment && ':' !in rest && |rest| >= 2
    ensures Segment(scope) == segment
  {
    if scope == ScopeName("mail", "read") {
      segment, rest := "mail", "read";
    } else if scope == ScopeName("mail", "write") {
      segment, rest := "mail", "write";
    } else if scope == ScopeName("agent-inbox", "read") {
      segment, rest := "agent-inbox", "read";
    } else if scope == ScopeName("agent-inbox", "approve") {
      segment, rest := "agent-inbox", "approve";
    } else if scope == ScopeName("cleaner", "run") {
      segment, rest := "cleaner", "run";
    } else if scope == ScopeName("admin", "provision") {
      segment, rest := "admin", "provision";
    } else {
      segment, rest := "ui", "control";
    }
    ScopeParts(segment, rest);
  }

  lemma NoWildcardEnding(segment: string, rest: string)
    requires ':' !in rest && |rest| >= 2
    ensures !EndsWith(segment + ":" + rest, ":*") && segment + ":" + rest != "*"
  {
    var scope := segment + ":" + rest;
    assert scope[|scope| - 2..][0] == rest[|rest| - 2];
  }

  /** What a normalized token grants of the known scopes: everything with `*`, otherwise what it lists,
      by name or by the wildcard of the scope's segment. */
  lemma GrantedExactly(held: seq<string>, scope: string)
    requires scope in KNOWN_SCOPES && forall s :: s in held ==> Acceptable(s)
    ensures Satisfies(held, scope) <==> "*" in held || scope in held || Segment(scope) + ":*" in held
  {
    var segment, rest := KnownScopeParts(scope);
    forall s | s in held
      ensures Grants(s, scope) <==> s == "*" || s == scope || s == Segment(scope) + ":*"
    {
      GrantedByEntry(s, scope);
    }
    if Satisfies(held, scope) {
      var i :| 0 <= i < |held| && Grants(held[i], scope);
      assert held[i] in held;
    } else {
      assert forall s :: s in held ==> !Grants(s, scope);
    }
  }

  lemma GrantedByEntry(s: string, scope: string)
    requires scope in KNOWN_SCOPES && Acceptable(s)
    ensures Grants(s, scope) <==> s == "*" || s == scope || s == Segment(scope) + ":*"
  {
    if s in KNOWN_SCOPES {
      GrantedByName(s, scope);
    } else if s != "*" {
      GrantedByWildcard(s[..|s| - 2], scope);
      assert s == s[..|s| - 2] + ":*";
    }
  }

  lemma GrantedByName(s: string, scope: string)
    requires scope in KNOWN_SCOPES && s in KNOWN_SCOPES
    ensures s != "*" && s != Segment(scope) + ":*"
    ensures Grants(s, scope) <==> s == scope
  {
    var segment, rest := KnownScopeParts(s);
    NoWildcardEnding(segment, rest);
    EndsWithWildcard(Segment(scope));
  }

  lemma EndsWithWildcard(prefix: string)
    ensures EndsWith(prefix + ":*", ":*")
  {
  }

  lemma GrantedByWildcard(prefix: string, scope: string)
    requires scope in KNOWN_SCOPES && KnownSegment(prefix)
    ensures Grants(prefix + ":*", scope) <==> prefix == Segment(scope)
    ensures prefix + ":*" == Segment(scope) + ":*" <==> prefix == Segment(scope)
    ensures prefix + ":*" != scope
  {
    var segment, rest := KnownScopeParts(scope);
    var j :| 0 <= j < |KNOWN_SCOPES| && Segment(KNOWN_SCOPES[j]) == prefix;
    var segment', rest' := KnownScopeParts(KNOWN_SCOPES[j]);
    WildcardGrantsItsSegment(prefix, segment, rest);
    WildcardTellsSegment(prefix, segment);
    NoWildcardEnding(segment, rest);
    EndsWithWildcard(prefix);
  }

  lemma WildcardTellsSegment(a: string, b: string)
    ensures a + ":*" == b + ":*" <==> a == b
  {
    if a + ":*" == b + ":*" {
      assert |a| == |a + ":*"| - 2 == |b|;
      assert a == (a + ":*")[..|a|] && b == (b + ":*")[..|b|];
    }
  }

  // ---- time stamps as strings --------------------------------------------------------------------

  /** A moment in UTC calendar fields. */
  datatype Moment = Moment(year: int, month: nat, day: nat, hour: nat, minute: nat, second: nat, ms: nat)

  /** The years the platform's dates reach, and fields that print in their widths. */
  predicate ValidMoment(t: Moment) {
    && -271821 <= t.year <= 275760
    && t.month <= 12 && t.day <= 31 && t.hour <= 23 && t.minute <= 59 && t.second <= 59 && t.ms <= 999
  }

  function Power10(w: nat): nat { if w == 0 then 1 else 10 * Power10(w - 1) }

  function Digit(d: nat): char
    requires d < 10
  {
    ('0' as int + d) as char
  }

  /** The last `w` decimal digits of `n`, with leading zeros. */
  function Digits(n: nat, w: nat): (s: string)
    ensures |s| == w
  {
    if w == 0 then "" else Digits(n / 10, w - 1) + [Digit(n % 10)]
  }

  function YearText(year: int): string {
    if 0 <= year <= 9999 then Digits(year, 4)
    else if year < 0 then "-" + Digits(-year, 6)
    else "+" + Digits(year, 6)
  }

  function RestText(t: Moment): string {
    "-" + (Digits(t.month, 2) + ("-" + (Digits(t.day, 2) + ("T" + (Digits(t.hour, 2) + (":" + (Digits(t.minute, 2) +
    (":" + (Digits(t.second, 2) + ("." + (Digits(t.ms, 3) + "Z")))))))))))
  }

  /** `date.toISOString()`. */
  function Iso(t: Moment): string { YearText(t.year) + RestText(t) }

  /** The language's `<` on strings. */
  predicate Less(a: string, b: string) {
    b != "" && (a == "" || a[0] < b[0] || (a[0] == b[0] && Less(a[1..], b[1..])))
  }

  predicate RestBefore(a: Moment, b: Moment) {
    || a.month < b.month
    || (a.month == b.month &&
        (|| a.day < b.day
         || (a.day == b.day &&
             (|| a.hour < b.hour
              || (a.hour == b.hour &&
                  (|| a.minute < b.minute
                   || (a.minute == b.minute &&
                       (a.second < b.second || (a.second == b.second && a.ms < b.ms)))))))))
  }

  predicate Before(a: Moment, b: Moment) { a.year < b.year || (a.year == b.year && RestBefore(a, b)) }

  lemma {:induction false} LessIrreflexive(a: string)
    ensures !Less(a, a)
  {
    if a != "" { LessIrreflexive(a[1..]); }
  }

  /** Strings that start with parts of one length compare by those parts first. */
  lemma {:induction false} LessByParts(a: string, b: string, x: string, y: string)
    requires |a| == |b|
    ensures Less(a + x, b + y) <==> Less(a, b) || (a == b && Less(x, y))
  {
    if a == "" {
      AppendNothing(x);
      AppendNothing(y);
    } else {
      assert (a + x)[1..] == a[1..] + x && (b + y)[1..] == b[1..] + y;
      LessByParts(a[1..], b[1..], x, y);
      assert a == [a[0]] + a[1..] && b == [b[0]] + b[1..];
    }
  }

  /** Fixed-width numbers compare as strings as they do as numbers. */
  lemma {:induction false} DigitsOrder(m: nat, n: nat, w: nat)
    requires m < Power10(w) && n < Power10(w)
    ensures Less(Digits(m, w), Digits(n, w)) <==> m < n
    ensures Digits(m, w) == Digits(n, w) <==> m == n
  {
    if w > 0 {
      DigitsOrder(m / 10, n / 10, w - 1);
      LessByParts(Digits(m / 10, w - 1), Digits(n / 10, w - 1), [Digit(m % 10)], [Digit(n % 10)]);
      SameLastDigit(Digits(m / 10, w - 1), Digits(n / 10, w - 1), Digit(m % 10), Digit(n % 10));
      assert m == 10 * (m / 10) + m % 10 && n == 10 * (n / 10) + n % 10;
    }
  }

  lemma SameLastDigit(a: string, b: string, c: char, d: char)
    ensures a + [c] == b + [d] <==> a == b && c == d
  {
    if a + [c] == b + [d] {
      assert |a| == |a + [c]| - 1 == |b|;
      assert a == (a + [c])[..|a|] && b == (b + [d])[..|b|];
      assert c == (a + [c])[|a|] && d == (b + [d])[|b|];
    }
  }

  lemma Powers()
    ensures Power10(2) == 100 && Power10(3) == 1000 && Power10(4) == 10000 && Power10(6) == 1000000
  {
  }

  /** One more field in front: separator, number, rest. */
  lemma FieldOrder(sep: string, m: nat, n: nat, w: nat, x: string, y: string)
    requires m < Power10(w) && n < Power10(w)
    ensures Less(sep + (Digits(m, w) + x), sep + (Digits(n, w) + y)) <==> m < n || (m == n && Less(x, y))
  {
    LessByParts(sep, sep, Digits(m, w) + x, Digits(n, w) + y);
    LessIrreflexive(sep);
    LessByParts(Digits(m, w), Digits(n, w), x, y);
    DigitsOrder(m, n, w);
  }

  lemma TimeOrder(a: Moment, b: Moment, x: string, y: string)
    requires ValidMoment(a) && ValidMoment(b)
    ensures Less(":" + (Digits(a.second, 2) + ("." + (Digits(a.ms, 3) + "Z"))),
                 ":" + (Digits(b.second, 2) + ("." + (Digits(b.ms, 3) + "Z")))) <==>
            a.second < b.second || (a.second == b.second && a.ms < b.ms)
  {
    Powers();
    FieldOrder(".", a.ms, b.ms, 3, "Z", "Z");
    LessIrreflexive("Z");
    FieldOrder(":", a.second, b.second, 2, "." + (Digits(a.ms, 3) + "Z"), "." + (Digits(b.ms, 3) + "Z"));
  }

  lemma RestOrder(a: Moment, b: Moment)
    requires ValidMoment(a) && ValidMoment(b)
    ensures Less(RestText(a), RestText(b)) <==> RestBefore(a, b)
  {
    Powers();
    TimeOrder(a, b, "", "");
    var s, t := ":" + (Digits(a.second, 2) + ("." + (Digits(a.ms, 3) + "Z"))),
                ":" + (Digits(b.second, 2) + ("." + (Digits(b.ms, 3) + "Z")));
    FieldOrder(":", a.minute, b.minute, 2, s, t);
    s, t := ":" + (Digits(a.minute, 2) + s), ":" + (Digits(b.minute, 2) + t);
    FieldOrder("T", a.hour, b.hour, 2, s, t);
    s, t := "T" + (Digits(a.hour, 2) + s), "T" + (Digits(b.hour, 2) + t);
    FieldOrder("-", a.day, b.day, 2, s, t);
    s, t := "-" + (Digits(a.day, 2) + s), "-" + (Digits(b.day, 2) + t);
    FieldOrder("-", a.month, b.month, 2, s, t);
  }

  lemma {:induction false} DigitsAreDigits(n: nat, w: nat)
    ensures forall i :: 0 <= i < w ==> '0' <= Digits(n, w)[i] <= '9'
  {
    if w > 0 { DigitsAreDigits(n / 10, w - 1); }
  }

  /** How years compare as text, sign first. */
  lemma YearOrder(a: int, b: int, x: string, y: string)
    requires -271821 <= a <= 275760 && -271821 <= b <= 275760
    ensures (a < 0) == (b < 0) && (a > 9999) == (b > 9999) ==>
              (Less(YearText(a) + x, YearText(b) + y) <==> (if a < 0 then b < a else a < b) || (a == b && Less(x, y)))
    ensures (a < 0) != (b < 0) || (a > 9999) != (b > 9999) ==>
              (Less(YearText(a) + x, YearText(b) + y) <==> a > 9999 || (a < 0 && b <= 9999))
  {
    Powers();
    if (a < 0) == (b < 0) && (a > 9999) == (b > 9999) {
      SameSignYears(a, b, x, y);
    } else {
      var s, t := YearText(a), YearText(b);
      DigitsAreDigits(if a < 0 then -a else a, if 0 <= a <= 9999 then 4 else 6);
      DigitsAreDigits(if b < 0 then -b else b, if 0 <= b <= 9999 then 4 else 6);
      assert (s + x)[0] == s[0] && (t + y)[0] == t[0];
    }
  }

  lemma SameSignYears(a: int, b: int, x: string, y: string)
    requires -271821 <= a <= 275760 && -271821 <= b <= 275760
    requires (a < 0) == (b < 0) && (a > 9999) == (b > 9999)
    ensures Less(YearText(a) + x, YearText(b) + y) <==> (if a < 0 then b < a else a < b) || (a == b && Less(x, y))
  {
    Powers();
    var sign, w := if a < 0 then "-" else if a > 9999 then "+" else "", if 0 <= a <= 9999 then 4 else 6;
    var m: nat, n: nat := if a < 0 then -a else a, if b < 0 then -b else b;
    FieldOrder(sign, m, n, w, x, y);
    Regroup(sign, Digits(m, w), x);
    Regroup(sign, Digits(n, w), y);
    AppendNothing(Digits(m, w));
    AppendNothing(Digits(n, w));
  }

  /** Comparing time stamps as strings is comparing times exactly when both years or neither are beyond
      9999, and two negative years are one year. */
  lemma StringOrderIsTimeOrderIff(a: Moment, b: Moment)
    requires ValidMoment(a) && ValidMoment(b)
    ensures (Less(Iso(a), Iso(b)) <==> Before(a, b)) <==>
            (a.year > 9999 <==> b.year > 9999) && (a.year < 0 && b.year < 0 ==> a.year == b.year)
  {
    YearOrder(a.year, b.year, RestText(a), RestText(b));
    RestOrder(a, b);
  }

  // ---- the gate ----------------------------------------------------------------------------------

  datatype Pat = Pat(scopes: seq<string>, expiresAt: Option<Moment>, revokedAt: Option<Moment>)

  datatype Decision = Granted | Revoked | Expired | MissingScope

  function CheckPat(pat: Pat, required: string, now: Moment): Decision {
    if pat.revokedAt.Some? then Revoked
    else if pat.expiresAt.Some? && Less(Iso(pat.expiresAt.value), Iso(now)) then Expired
    else if !Satisfies(pat.scopes, required) then MissingScope
    else Granted
  }

  /** A present moment: the clock shows a four-digit year. */
  predicate Present(now: Moment) { ValidMoment(now) && 0 <= now.year <= 9999 }

  ghost predicate ValidPat(pat: Pat) { pat.expiresAt.Some? ==> ValidMoment(pat.expiresAt.value) }

  /** The gate judges expiry by time, for every clock reading, exactly for tokens that expire by year 9999. */
  lemma ExpiryIsJudgedByTimeIff(pat: Pat, required: string, now: Moment)
    requires ValidPat(pat) && Present(now) && pat.revokedAt.None? && pat.expiresAt.Some?
    ensures (CheckPat(pat, required, now) == Expired <==> Before(pat.expiresAt.value, now)) <==>
            pat.expiresAt.value.year <= 9999
  {
    StringOrderIsTimeOrderIff(pat.expiresAt.value, now);
  }

  /** A token that expires after year 9999 is refused as expired from the start. */
  lemma FarExpiryIsRefusedAtOnce(pat: Pat, required: string, now: Moment)
    requires ValidPat(pat) && Present(now) && pat.revokedAt.None? && pat.expiresAt.Some?
    requires pat.expiresAt.value.year > 9999
    ensures CheckPat(pat, required, now) == Expired && Before(now, pat.expiresAt.value)
  {
    YearOrder(pat.expiresAt.value.year, now.year, RestText(pat.expiresAt.value), RestText(now));
  }

  /** When the gate takes a token for expired: at any time after its expiry, and always if that is beyond
      the year 9999. */
  ghost predicate Lapsed(pat: Pat, now: Moment) {
    pat.expiresAt.Some? && (pat.expiresAt.value.year > 9999 || Before(pat.expiresAt.value, now))
  }

  /** The list holds everything, the scope, or all scopes of its segment. */
  predicate Lists(scopes: seq<string>, scope: string) {
    "*" in scopes || scope in scopes || Segment(scope) + ":*" in scopes
  }

  lemma LapsedIff(pat: Pat, now: Moment)
    requires ValidPat(pat) && Present(now) && pat.expiresAt.Some?
    ensures Less(Iso(pat.expiresAt.value), Iso(now)) <==> Lapsed(pat, now)
  {
    var e := pat.expiresAt.value;
    StringOrderIsTimeOrderIff(e, now);
    if e.year > 9999 { YearOrder(e.year, now.year, RestText(e), RestText(now)); }
    if e.year < 0 { YearOrder(e.year, now.year, RestText(e), RestText(now)); }
  }

  /** What the gate answers for a known scope, at every moment: granted if and only if the token is not
      revoked, has not expired, and lists the scope; otherwise the first of these that fails. */
  lemma GateDecides(pat: Pat, scope: string, now: Moment)
    requires ValidPat(pat) && Present(now) && scope in KNOWN_SCOPES && forall s :: s in pat.scopes ==> Acceptable(s)
    ensures CheckPat(pat, scope, now) == Granted <==>
            pat.revokedAt.None? && !Lapsed(pat, now) && Lists(pat.scopes, scope)
    ensures CheckPat(pat, scope, now) == Revoked <==> pat.revokedAt.Some?
    ensures CheckPat(pat, scope, now) == Expired <==> pat.revokedAt.None? && Lapsed(pat, now)
    ensures CheckPat(pat, scope, now) == MissingScope <==>
            pat.revokedAt.None? && !Lapsed(pat, now) && !Lists(pat.scopes, scope)
  {
    GrantedExactly(pat.scopes, scope);
    if pat.expiresAt.Some? { LapsedIff(pat, now); }
  }

  lemma WildcardOfKnown(s: string)
    requires s in KNOWN_SCOPES
    ensures Acceptable(Segment(s) + ":*")
  {
    var scope := Segment(s) + ":*";
    SegmentIsNamed(s);
    EndsWithWildcard(Segment(s));
    assert scope[..|scope| - 2] == Segment(s);
    var i :| 0 <= i < |KNOWN_SCOPES| && KNOWN_SCOPES[i] == s;
    assert KnownSegment(Segment(s)) by { assert Segment(KNOWN_SCOPES[i]) == Segment(s); }
  }

  /** The entries a new token may carry: everything, a known scope, or all scopes of a known segment. */
  lemma AcceptableIff(scope: string)
    ensures Acceptable(scope) <==>
            scope == "*" || scope in KNOWN_SCOPES || exists s :: s in KNOWN_SCOPES && scope == Segment(s) + ":*"
  {
    if EndsWith(scope, ":*") && KnownSegment(scope[..|scope| - 2]) {
      var i :| 0 <= i < |KNOWN_SCOPES| && Segment(KNOWN_SCOPES[i]) == scope[..|scope| - 2];
      assert KNOWN_SCOPES[i] in KNOWN_SCOPES && scope == scope[..|scope| - 2] + ":*";
    }
    if exists s :: s in KNOWN_SCOPES && scope == Segment(s) + ":*" {
      var s :| s in KNOWN_SCOPES && scope == Segment(s) + ":*";
      WildcardOfKnown(s);
    }
  }

  lemma SegmentIsNamed(scope: string)
    requires scope in KNOWN_SCOPES
    ensures Segment(scope) != ""
  {
    var segment, rest := KnownScopeParts(scope);
    assert scope[0] != ':' && (segment + ":" + rest)[|segment|] == ':';
  }

  /** What can happen to a stored token: it is revoked, perhaps again. */
  function AfterRevocations(pat: Pat, stamps: seq<Moment>): Pat {
    if stamps == [] then pat else pat.(revokedAt := Some(stamps[|stamps| - 1]))
  }

  /** Once refused as revoked or expired, a token is refused so at every later moment, for every scope,
      and whatever revocations follow. */
  lemma DenialIsPermanent(pat: Pat, required: string, now: Moment, required': string, later: Moment,
                          stamps: seq<Moment>)
    requires ValidPat(pat) && Present(now) && Present(later) && !Before(later, now)
    requires CheckPat(pat, required, now) in {Revoked, Expired}
    ensures CheckPat(AfterRevocations(pat, stamps), required', later) in {Revoked, Expired}
  {
    if pat.revokedAt.None? {
      var e := pat.expiresAt.value;
      YearOrder(e.year, now.year, RestText(e), RestText(now));
      YearOrder(e.year, later.year, RestText(e), RestText(later));
      RestOrder(e, now);
      RestOrder(e, later);
    }
  }
}
