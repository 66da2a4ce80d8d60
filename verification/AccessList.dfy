/** Who may sign in at all: the configured list of `pattern:role` pairs. */
module AccessList {
  import opened Text

  const VALID_ROLES: set<string> := {"VIEWER", "MEMBER", "MANAGER", "ADMIN", "OWNER"}

  datatype Rule = Rule(pattern: string, role: string)

  /** The platform's case mappings. */
  datatype Case = Case(lower: string -> string, upper: string -> string)

  predicate IsDomain(r: Rule) { StartsWith(r.pattern, "*@") }

  function DomainOf(r: Rule): string
    requires IsDomain(r)
  {
    r.pattern[2..]
  }

  /** `s.split(c)`. */
  function SplitOn(s: string, c: char): (parts: seq<string>)
    ensures |parts| > 0
  {
    var at := Find(s, [c]);
    if at < 0 then [s] else [s[..at]] + SplitOn(s[at + 1..], c)
  }

  /** The rule one comma-separated token stands for, if it is well formed. */
  function TokenRule(k: Case): string -> seq<Rule> {
    (token: string) =>
      var parts := SplitOn(Trim(token), ':');
      if Trim(token) == "" || |parts| < 2 || Trim(parts[0]) == "" || Trim(parts[1]) == "" then []
      else if k.upper(Trim(parts[1])) !in VALID_ROLES then []
      else [Rule(k.lower(Trim(parts[0])), k.upper(Trim(parts[1])))]
  }

  function Rules(k: Case, raw: string): seq<Rule> { FlatMap(TokenRule(k), SplitOn(raw, ',')) }

  method ParseAccessList(k: Case, raw: string) returns (rules: seq<Rule>)
    ensures rules == Rules(k, raw)
  {
    rules := [];
    var tokens := SplitOn(raw, ',');
    for i := 0 to |tokens|
      invariant rules == FlatMap(TokenRule(k), tokens[..i])
    {
      assert tokens[..i + 1] == tokens[..i] + [tokens[i]];
      FlatMapSnoc(TokenRule(k), tokens[..i], tokens[i]);
      AppendNothing(rules);
      var token := Trim(tokens[i]);
      if token == "" { continue; }
      var parts := SplitOn(token, ':');
      if |parts| < 2 || Trim(parts[0]) == "" || Trim(parts[1]) == "" { continue; }
      var role := k.upper(Trim(parts[1]));
      if role !in VALID_ROLES { continue; }
      rules := rules + [Rule(k.lower(Trim(parts[0])), role)];
    }
    assert tokens[..|tokens|] == tokens;
  }

  const FALLBACK: seq<Rule> := [Rule("owner@example.com", "OWNER"), Rule("team@example.com", "OWNER")]

  /** Unset falls back to the built-in owners; set but blank lets nobody in. */
  function ConfiguredRules(k: Case, env: Option<string>): seq<Rule> {
    if env.None? then FALLBACK
    else if Trim(env.value) == "" then []
    else Rules(k, Trim(env.value))
  }

  /** The first rule that satisfies `p`. */
  function First(p: Rule -> bool, rules: seq<Rule>): (r: Option<Rule>)
    ensures r.Some? ==> exists i :: 0 <= i < |rules| && rules[i] == r.value && p(rules[i])
                                    && forall j :: 0 <= j < i ==> !p(rules[j])
    ensures r.None? ==> forall i :: 0 <= i < |rules| ==> !p(rules[i])
  {
    if rules == [] then None
    else if p(rules[0]) then (assert rules[0] == rules[0]; Some(rules[0]))
    else
      var rest := First(p, rules[1..]);
      assert rest.Some? ==> exists i :: 1 <= i < |rules| && rules[i] == rest.value && p(rules[i])
                                        && forall j :: 0 <= j < i ==> !p(rules[j]) by {
        if rest.Some? {
          var i :| 0 <= i < |rules[1..]| && rules[1..][i] == rest.value && p(rules[1..][i])
                   && forall j :: 0 <= j < i ==> !p(rules[1..][j]);
          assert rules[i + 1] == rest.value;
          assert forall j :: 1 <= j < i + 1 ==> rules[j] == rules[1..][j - 1];
        }
      }
      assert rest.None? ==> forall i :: 1 <= i < |rules| ==> rules[i] == rules[1..][i - 1];
      rest
  }

  predicate Exact(r: Rule, email: string) { !IsDomain(r) && r.pattern == email }

  /** The text after the first `@`, or nothing. */
  function MailDomain(email: string): string {
    var at := Find(email, "@");
    if at < 0 then "" else email[at + 1..]
  }

  predicate Wildcard(r: Rule, email: string) {
    IsDomain(r) && MailDomain(email) != "" && DomainOf(r) == MailDomain(email)
  }

  function ExactFor(email: string): Rule -> bool { (r: Rule) => Exact(r, email) }

  function WildcardFor(email: string): Rule -> bool { (r: Rule) => Wildcard(r, email) }

  /** The rule that admits `email`: an exact entry first, its domain's wildcard otherwise. */
  function Admitting(k: Case, rules: seq<Rule>, email: string): Option<Rule> {
    if email == "" then None
    else
      var lower := k.lower(email);
      var exact := First(ExactFor(lower), rules);
      if exact.Some? then exact else First(WildcardFor(lower), rules)
  }

  predicate Allowed(k: Case, rules: seq<Rule>, email: string) { Admitting(k, rules, email).Some? }

  /** An address is let in exactly when it is listed or its domain is. */
  lemma AllowedIffListed(k: Case, rules: seq<Rule>, email: string)
    ensures Allowed(k, rules, email) <==>
            email != "" && exists r :: r in rules && (Exact(r, k.lower(email)) || Wildcard(r, k.lower(email)))
  {
    var lower := k.lower(email);
    var exact, wild := First(ExactFor(lower), rules), First(WildcardFor(lower), rules);
    if exact.None? && wild.None? {
      forall r | r in rules
        ensures !Exact(r, lower) && !Wildcard(r, lower)
      {
        var i :| 0 <= i < |rules| && rules[i] == r;
        assert !ExactFor(lower)(rules[i]) && !WildcardFor(lower)(rules[i]);
      }
    }
  }

  /** An exact entry decides the role, wherever the wildcards stand in the list. */
  lemma ExactWins(k: Case, rules: seq<Rule>, email: string, r: Rule)
    requires email != "" && r in rules && Exact(r, k.lower(email))
    ensures Allowed(k, rules, email) && Exact(Admitting(k, rules, email).value, k.lower(email))
  {
    var i :| 0 <= i < |rules| && rules[i] == r;
    assert ExactFor(k.lower(email))(rules[i]);
  }

  /** A list that is set but blank lets nobody in; only an unset one falls back to the built-in owners. */
  lemma BlankListLetsNobodyIn(k: Case, env: Option<string>, email: string)
    requires env.Some? && Trim(env.value) == ""
    ensures !Allowed(k, ConfiguredRules(k, env), email)
  {
    AllowedIffListed(k, ConfiguredRules(k, env), email);
  }

  lemma NamesOne(r: Rule, email: string)
    requires !IsDomain(r)
    ensures Exact(r, email) || Wildcard(r, email) <==> email == r.pattern
  {
  }

  lemma OwnersAreNamed()
    ensures !IsDomain(FALLBACK[0]) && !IsDomain(FALLBACK[1])
  {
    assert FALLBACK[0].pattern[0] == 'o' && FALLBACK[1].pattern[0] == 't' && "*@"[0] == '*';
  }

  /** Without a setting the two built-in owners are let in and nobody else. */
  lemma UnsetListLetsOwnersIn(k: Case, email: string)
    ensures Allowed(k, ConfiguredRules(k, None), email) <==>
            email != "" && (k.lower(email) == "owner@example.com" || k.lower(email) == "team@example.com")
  {
    AllowedIffListed(k, FALLBACK, email);
    OwnersAreNamed();
    NamesOne(FALLBACK[0], k.lower(email));
    NamesOne(FALLBACK[1], k.lower(email));
    TwoOwners(k.lower(email));
  }

  lemma TwoOwners(email: string)
    ensures (exists r :: r in FALLBACK && (Exact(r, email) || Wildcard(r, email))) <==>
            Exact(FALLBACK[0], email) || Wildcard(FALLBACK[0], email)
            || Exact(FALLBACK[1], email) || Wildcard(FALLBACK[1], email)
  {
    assert FALLBACK[0] in FALLBACK && FALLBACK[1] in FALLBACK;
  }

  /** A wildcard lets in exactly the addresses of its domain. */
  lemma WildcardIff(domain: string, role: string, local: string, host: string)
    requires '@' !in local && host != ""
    ensures Wildcard(Rule("*@" + domain, role), local + "@" + host) <==> domain == host
  {
    var email, r := local + "@" + host, Rule("*@" + domain, role);
    assert email[|local|..|local| + 1] == "@" && email[|local| + 1..] == host;
    forall i: nat | i < |local|
      ensures !OccursAt(email, "@", i)
    {
      assert email[i..i + 1] == [local[i]];
    }
    FindIs(email, "@", |local|);
    assert r.pattern[..2] == "*@" && r.pattern[2..] == domain;
  }

  /** Every rule read has one of the five roles, and a pattern that was written with text in it. */
  lemma {:induction false} EveryRuleIsValid(k: Case, tokens: seq<string>, r: Rule)
    requires r in FlatMap(TokenRule(k), tokens)
    ensures r.role in {"VIEWER", "MEMBER", "MANAGER", "ADMIN", "OWNER"}
    ensures exists pattern :: pattern != "" && r.pattern == k.lower(pattern)
  {
    var n := |tokens| - 1;
    if r in FlatMap(TokenRule(k), tokens[..n]) {
      EveryRuleIsValid(k, tokens[..n], r);
    } else {
      assert r in TokenRule(k)(tokens[n]);
      assert Trim(SplitOn(Trim(tokens[n]), ':')[0]) != "";
    }
  }

  // ---- writing a list down and reading it back ---------------------------------------------------

  predicate Plain(s: string) { s != "" && Trimmed(s) && ',' !in s && ':' !in s }

  predicate Writable(k: Case, r: Rule) {
    Plain(r.pattern) && Plain(r.role) && k.lower(r.pattern) == r.pattern
    && k.upper(r.role) == r.role && r.role in VALID_ROLES
  }

  function TokenText(r: Rule): string { r.pattern + ":" + r.role }

  function Written(rules: seq<Rule>): string {
    if rules == [] then ""
    else if |rules| == 1 then TokenText(rules[0])
    else TokenText(rules[0]) + "," + Written(rules[1..])
  }

  lemma SplitWhole(s: string, c: char)
    requires c !in s
    ensures SplitOn(s, c) == [s]
  {
    forall i: nat
      ensures !OccursAt(s, [c], i)
    {
      if i < |s| { assert s[i..i + 1] == [s[i]]; }
    }
  }

  lemma SplitFirst(s: string, c: char, rest: string)
    requires c !in s
    ensures SplitOn(s + [c] + rest, c) == [s] + SplitOn(rest, c)
  {
    var t := s + [c] + rest;
    assert t[|s|..|s| + 1] == [c];
    forall i: nat | i < |s|
      ensures !OccursAt(t, [c], i)
    {
      assert t[i..i + 1] == [s[i]];
    }
    FindIs(t, [c], |s|);
    assert t[..|s|] == s && t[|s| + 1..] == rest;
  }

  lemma TokenTextIsTrimmed(r: Rule)
    requires Plain(r.pattern) && Plain(r.role)
    ensures Trim(TokenText(r)) == TokenText(r) != "" && ',' !in TokenText(r)
  {
    var token := TokenText(r);
    assert token[0] == r.pattern[0] && token[|token| - 1] == r.role[|r.role| - 1];
    TrimIsTrimmed(token);
  }

  lemma TokenOf(k: Case, r: Rule)
    requires Writable(k, r)
    ensures TokenRule(k)(TokenText(r)) == [r]
  {
    TokenTextIsTrimmed(r);
    SplitFirst(r.pattern, ':', r.role);
    SplitWhole(r.role, ':');
    assert SplitOn(TokenText(r), ':') == [r.pattern, r.role];
    TrimIsTrimmed(r.pattern);
    TrimIsTrimmed(r.role);
  }

  function Tokens(rules: seq<Rule>): seq<string> {
    seq(|rules|, i requires 0 <= i < |rules| => TokenText(rules[i]))
  }

  lemma {:induction false} SplitWritten(rules: seq<Rule>)
    requires rules != [] && forall r :: r in rules ==> Plain(r.pattern) && Plain(r.role)
    ensures SplitOn(Written(rules), ',') == Tokens(rules)
  {
    TokenTextIsTrimmed(rules[0]);
    if |rules| == 1 {
      SplitWhole(TokenText(rules[0]), ',');
    } else {
      SplitWritten(rules[1..]);
      SplitFirst(TokenText(rules[0]), ',', Written(rules[1..]));
      TokensCons(rules);
    }
  }

  lemma TokensCons(rules: seq<Rule>)
    requires rules != []
    ensures Tokens(rules) == [TokenText(rules[0])] + Tokens(rules[1..])
  {
  }

  lemma {:induction false} TokensParse(k: Case, rules: seq<Rule>)
    requires forall r :: r in rules ==> Writable(k, r)
    ensures FlatMap(TokenRule(k), Tokens(rules)) == rules
  {
    if rules != [] {
      var n := |rules| - 1;
      TokensParse(k, rules[..n]);
      TokenOf(k, rules[n]);
      assert Tokens(rules)[..n] == Tokens(rules[..n]);
      assert rules == rules[..n] + [rules[n]];
    }
  }

  /** A list written with one clean token per rule is read back rule by rule. */
  lemma RulesRoundTrip(k: Case, rules: seq<Rule>)
    requires rules != [] && forall r :: r in rules ==> Writable(k, r)
    ensures Rules(k, Written(rules)) == rules
  {
    SplitWritten(rules);
    TokensParse(k, rules);
  }
}
