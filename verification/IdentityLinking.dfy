/** Resolving a single sign-on identity to a local user row, over any sequence of logins. */
module IdentityLinking {
  import opened Text
  import opened AccessList

  /** A row of the user table; its id is its position, rows are never removed. */
  datatype User = User(email: string, username: string, keycloakId: Option<string>, active: bool,
                       picture: Option<string>, lastLogin: Option<int>)

  /** A verified token: its subject and the profile claims; an empty string is a missing claim. */
  datatype Token = Token(sub: string, email: string, preferredUsername: string, picture: Option<string>, time: int)

  datatype Policy = Policy(letters: Case, rules: seq<Rule>, rebind: bool)

  datatype Refusal = OtherIdentity | NotAuthorized | UsernameTaken | Inactive

  datatype Outcome = SignedIn(row: nat) | Refused(why: Refusal)

  function BySub(rows: seq<User>, sub: string): (row: Option<nat>)
    ensures row.Some? ==> row.value < |rows| && rows[row.value].keycloakId == Some(sub)
    ensures row.None? ==> forall i :: 0 <= i < |rows| ==> rows[i].keycloakId != Some(sub)
  {
    if rows == [] then None
    else if rows[|rows| - 1].keycloakId == Some(sub) then Some(|rows| - 1)
    else BySub(rows[..|rows| - 1], sub)
  }

  function ByEmail(rows: seq<User>, email: string): (row: Option<nat>)
    ensures row.Some? ==> row.value < |rows| && rows[row.value].email == email
    ensures row.None? ==> forall i :: 0 <= i < |rows| ==> rows[i].email != email
  {
    if rows == [] then None
    else if rows[|rows| - 1].email == email then Some(|rows| - 1)
    else ByEmail(rows[..|rows| - 1], email)
  }

  /** The test the code makes: null and the empty string both read as "not linked". */
  predicate Linked(u: User) { u.keycloakId.Some? && u.keycloakId.value != "" }

  function Username(t: Token): string { if t.preferredUsername != "" then t.preferredUsername else t.email }

  predicate Taken(rows: seq<User>, username: string) {
    exists i :: 0 <= i < |rows| && rows[i].username == username
  }

  function NewUser(t: Token): User { User(t.email, Username(t), Some(t.sub), true, t.picture, None) }

  // ---- one login as a function of the table ------------------------------------------------------

  datatype Login = Login(rows: seq<User>, outcome: Outcome)

  function Touch(rows: seq<User>, row: nat, t: Token): Login
    requires row < |rows|
  {
    if !rows[row].active then Login(rows, Refused(Inactive))
    else
      var u := rows[row];
      Login(rows[row := u.(lastLogin := Some(t.time), picture := if t.picture.Some? then t.picture else u.picture)],
            SignedIn(row))
  }

  function Link(rows: seq<User>, row: nat, sub: string): seq<User>
    requires row < |rows|
  {
    rows[row := rows[row].(keycloakId := Some(sub))]
  }

  /** The row whose email the token carries, if the token carries one. */
  function Fallback(rows: seq<User>, t: Token): Option<nat> { if t.email == "" then None else ByEmail(rows, t.email) }

  function AfterLogin(policy: Policy, rows: seq<User>, t: Token): Login {
    var bySub := BySub(rows, t.sub);
    var byEmail := Fallback(rows, t);
    if bySub.Some? then Touch(rows, bySub.value, t)
    else if byEmail.Some? then
      if !Linked(rows[byEmail.value]) || policy.rebind
      then Touch(Link(rows, byEmail.value, t.sub), byEmail.value, t)
      else Login(rows, Refused(OtherIdentity))
    else if !Allowed(policy.letters, policy.rules, t.email) then Login(rows, Refused(NotAuthorized))
    else if Taken(rows, Username(t)) then Login(rows, Refused(UsernameTaken))
    else Touch(rows + [NewUser(t)], |rows|, t)
  }

  class UserTable {
    var rows: seq<User>

    constructor ()
      ensures rows == []
    {
      rows := [];
    }

    method ValidateKeycloakUser(policy: Policy, t: Token) returns (outcome: Outcome)
      modifies this
      ensures rows == AfterLogin(policy, old(rows), t).rows && outcome == AfterLogin(policy, old(rows), t).outcome
    {
      var user := BySub(rows, t.sub);
      if user.None? && t.email != "" {
        var byEmail := ByEmail(rows, t.email);
        if byEmail.Some? {
          var found := byEmail.value;
          if !Linked(rows[found]) {
            rows := rows[found := rows[found].(keycloakId := Some(t.sub))];
          } else if policy.rebind {
            rows := rows[found := rows[found].(keycloakId := Some(t.sub))];
          } else {
            return Refused(OtherIdentity);
          }
          user := Some(found);
        }
      }
      if user.None? {
        if !Allowed(policy.letters, policy.rules, t.email) { return Refused(NotAuthorized); }
        var username := if t.preferredUsername != "" then t.preferredUsername else t.email;
        if Taken(rows, username) { return Refused(UsernameTaken); }
        rows := rows + [User(t.email, username, Some(t.sub), true, t.picture, None)];
        user := Some(|rows| - 1);
      }
      var row := user.value;
      if !rows[row].active { return Refused(Inactive); }
      var u := rows[row].(lastLogin := Some(t.time));
      rows := rows[row := if t.picture.Some? then u.(picture := t.picture) else u];
      return SignedIn(row);
    }
  }

  // ---- what every login keeps --------------------------------------------------------------------

  /** No two rows share an email, a username or a Keycloak id. */
  ghost predicate Unique(rows: seq<User>) {
    forall i, j :: 0 <= i < |rows| && 0 <= j < |rows| && i != j ==> Apart(rows[i], rows[j])
  }

  predicate Apart(u: User, v: User) {
    u.email != v.email && u.username != v.username && (u.keycloakId == None || u.keycloakId != v.keycloakId)
  }

  lemma BySubIs(rows: seq<User>, sub: string, row: nat)
    requires Unique(rows) && row < |rows| && rows[row].keycloakId == Some(sub)
    ensures BySub(rows, sub) == Some(row)
  {
    var found := BySub(rows, sub).value;
    assert Apart(rows[found], rows[row]) || found == row;
  }

  /** The profile fields that `Touch` writes keep rows apart. */
  lemma TouchKeepsUnique(rows: seq<User>, row: nat, t: Token)
    requires Unique(rows) && row < |rows|
    ensures Unique(Touch(rows, row, t).rows)
  {
    var rows' := Touch(rows, row, t).rows;
    forall i, j | 0 <= i < |rows'| && 0 <= j < |rows'| && i != j
      ensures Apart(rows'[i], rows'[j])
    {
      assert Apart(rows[i], rows[j]);
    }
  }

  lemma LinkKeepsUnique(rows: seq<User>, row: nat, sub: string)
    requires Unique(rows) && row < |rows| && BySub(rows, sub).None?
    ensures Unique(Link(rows, row, sub))
  {
    var rows' := Link(rows, row, sub);
    forall i, j | 0 <= i < |rows'| && 0 <= j < |rows'| && i != j
      ensures Apart(rows'[i], rows'[j])
    {
      assert Apart(rows[i], rows[j]);
    }
  }

  lemma CreateKeepsUnique(rows: seq<User>, t: Token)
    requires Unique(rows) && BySub(rows, t.sub).None? && ByEmail(rows, t.email).None? && !Taken(rows, Username(t))
    ensures Unique(rows + [NewUser(t)])
  {
    var rows' := rows + [NewUser(t)];
    forall i, j | 0 <= i < |rows'| && 0 <= j < |rows'| && i != j
      ensures Apart(rows'[i], rows'[j])
    {
      if i < |rows| && j < |rows| { assert Apart(rows[i], rows[j]); }
    }
  }

  lemma LoginKeepsUnique(policy: Policy, rows: seq<User>, t: Token)
    requires Unique(rows)
    ensures Unique(AfterLogin(policy, rows, t).rows)
  {
    var bySub, byEmail := BySub(rows, t.sub), Fallback(rows, t);
    if bySub.Some? {
      TouchKeepsUnique(rows, bySub.value, t);
    } else if byEmail.Some? {
      if !Linked(rows[byEmail.value]) || policy.rebind {
        LinkKeepsUnique(rows, byEmail.value, t.sub);
        TouchKeepsUnique(Link(rows, byEmail.value, t.sub), byEmail.value, t);
      }
    } else if Allowed(policy.letters, policy.rules, t.email) && !Taken(rows, Username(t)) {
      CreateKeepsUnique(rows, t);
      TouchKeepsUnique(rows + [NewUser(t)], |rows|, t);
    }
  }

  /** Which login changes a Keycloak id that is already set: with rebinding off, only one that reaches,
      by email, a row whose id is the empty string. */
  lemma LoginChangesSetIdIff(policy: Policy, rows: seq<User>, t: Token, row: nat)
    requires Unique(rows) && !policy.rebind && row < |rows| && rows[row].keycloakId.Some?
    ensures |AfterLogin(policy, rows, t).rows| >= |rows|
    ensures AfterLogin(policy, rows, t).rows[row].keycloakId != rows[row].keycloakId <==>
            rows[row].keycloakId == Some("") && t.email != "" && t.email == rows[row].email && BySub(rows, t.sub).None?
  {
    if t.email == rows[row].email { EmailIs(rows, row); }
  }

  lemma EmailIs(rows: seq<User>, row: nat)
    requires Unique(rows) && row < |rows|
    ensures ByEmail(rows, rows[row].email) == Some(row)
  {
    var found := ByEmail(rows, rows[row].email).value;
    assert Apart(rows[found], rows[row]) || found == row;
  }

  /** So the claim fails for an empty subject: a later token takes the row over. */
  lemma EmptySubjectIsReplaced(policy: Policy, email: string, sub: string)
    requires email != "" && sub != "" && Allowed(policy.letters, policy.rules, email)
    ensures var row := User(email, email, Some(""), true, None, Some(1));
            && AfterLogin(policy, [], Token("", email, "", None, 1)) == Login([row], SignedIn(0))
            && AfterLogin(policy, [row], Token(sub, email, "", None, 2))
               == Login([row.(keycloakId := Some(sub), lastLogin := Some(2))], SignedIn(0))
  {
    var row := User(email, email, Some(""), true, None, Some(1));
    assert [row][..0] == [] && ByEmail([row], email) == Some(0);
    assert BySub([row], sub) == None;
  }

  /** Only an active row is signed in to, its own login is noted on it, and every other row stays. */
  lemma SignedInMeans(policy: Policy, rows: seq<User>, t: Token)
    requires AfterLogin(policy, rows, t).outcome.SignedIn?
    ensures var a := AfterLogin(policy, rows, t);
            var row := a.outcome.row;
            && row < |a.rows| && a.rows[row].active && a.rows[row].lastLogin == Some(t.time)
            && (t.picture.Some? ==> a.rows[row].picture == t.picture)
            && (row < |rows| ==> rows[row].active && (t.picture.None? ==> a.rows[row].picture == rows[row].picture))
            && (row < |rows| ==> |a.rows| == |rows|)
            && (row >= |rows| ==> |a.rows| == |rows| + 1
                                  && a.rows[row] == User(t.email, if t.preferredUsername != "" then t.preferredUsername
                                                                  else t.email,
                                                         Some(t.sub), true, t.picture, Some(t.time)))
            && forall i :: 0 <= i < |rows| && i != row ==> a.rows[i] == rows[i]
  {
  }

  /** An inactive row that holds the subject refuses it and nothing changes. Reached by email, it is linked
      to the subject all the same before it refuses. */
  lemma InactiveIsRefused(policy: Policy, rows: seq<User>, t: Token, row: nat)
    requires Unique(rows) && row < |rows| && !rows[row].active
    ensures rows[row].keycloakId == Some(t.sub) ==> AfterLogin(policy, rows, t) == Login(rows, Refused(Inactive))
    ensures BySub(rows, t.sub).None? && t.email != "" && t.email == rows[row].email && !Linked(rows[row]) ==>
              AfterLogin(policy, rows, t)
              == Login(rows[row := rows[row].(keycloakId := Some(t.sub))], Refused(Inactive))
  {
    if rows[row].keycloakId == Some(t.sub) { BySubIs(rows, t.sub, row); }
    if t.email == rows[row].email { EmailIs(rows, row); }
  }

  predicate Holds(rows: seq<User>, sub: string) { exists i :: 0 <= i < |rows| && rows[i].keycloakId == Some(sub) }

  predicate HasEmail(rows: seq<User>, email: string) { exists i :: 0 <= i < |rows| && rows[i].email == email }

  /** A token is a new user's exactly when no row holds its subject and none has its email, if it carries
      one; then the access list decides, and after it whether the user name is free. */
  lemma NewUserIff(policy: Policy, rows: seq<User>, t: Token)
    ensures var a, unknown := AfterLogin(policy, rows, t),
                              !Holds(rows, t.sub) && (t.email == "" || !HasEmail(rows, t.email));
            && (a.outcome == Refused(NotAuthorized) <==> unknown && !Allowed(policy.letters, policy.rules, t.email))
            && (a.outcome == Refused(UsernameTaken) <==>
                  unknown && Allowed(policy.letters, policy.rules, t.email) && Taken(rows, Username(t)))
            && (|a.rows| > |rows| <==>
                  unknown && Allowed(policy.letters, policy.rules, t.email) && !Taken(rows, Username(t)))
            && (a.outcome.Refused? && a.outcome.why != Inactive ==> a.rows == rows)
  {
    if BySub(rows, t.sub).Some? { assert rows[BySub(rows, t.sub).value].keycloakId == Some(t.sub); }
    if Fallback(rows, t).Some? { assert rows[Fallback(rows, t).value].email == t.email; }
  }

  // ---- over any sequence of logins ---------------------------------------------------------------

  /** Administrators may switch a row on or off between logins. */
  datatype Event = SignIn(token: Token) | SetActive(row: nat, active: bool)

  function Next(policy: Policy, rows: seq<User>, e: Event): seq<User> {
    match e
    case SignIn(t) => AfterLogin(policy, rows, t).rows
    case SetActive(row, active) => if row < |rows| then rows[row := rows[row].(active := active)] else rows
  }

  function Run(policy: Policy, rows: seq<User>, events: seq<Event>): seq<User>
    decreases |events|
  {
    if events == [] then rows else Next(policy, Run(policy, rows, events[..|events| - 1]), events[|events| - 1])
  }

  /** Rows stay where they are, with their email, and a non-empty Keycloak id stays too;
      rows that appear were let in by the access list. */
  ghost predicate Follows(policy: Policy, before: seq<User>, after: seq<User>) {
    && |before| <= |after|
    && (forall i :: 0 <= i < |before| ==> Continues(before[i], after[i]))
    && (forall i :: |before| <= i < |after| ==>
          Allowed(policy.letters, policy.rules, after[i].email) && after[i].keycloakId.Some?)
  }

  predicate Continues(u: User, v: User) {
    && u.email == v.email && u.username == v.username
    && (Linked(u) ==> v.keycloakId == u.keycloakId)
    && (u.keycloakId.Some? ==> v.keycloakId.Some?)
  }

  lemma LoginFollows(policy: Policy, rows: seq<User>, t: Token)
    requires !policy.rebind
    ensures Follows(policy, rows, AfterLogin(policy, rows, t).rows)
  {
  }

  lemma NextFollows(policy: Policy, rows: seq<User>, e: Event)
    requires !policy.rebind
    ensures Follows(policy, rows, Next(policy, rows, e))
  {
    if e.SignIn? { LoginFollows(policy, rows, e.token); }
  }

  lemma NextKeepsUnique(policy: Policy, rows: seq<User>, e: Event)
    requires Unique(rows)
    ensures Unique(Next(policy, rows, e))
  {
    match e
    case SignIn(t) => LoginKeepsUnique(policy, rows, t);
    case SetActive(row, active) =>
      var rows' := Next(policy, rows, e);
      forall i, j | 0 <= i < |rows'| && 0 <= j < |rows'| && i != j
        ensures Apart(rows'[i], rows'[j])
      {
        assert Apart(rows[i], rows[j]);
      }
  }

  lemma FollowsTrans(policy: Policy, a: seq<User>, b: seq<User>, c: seq<User>)
    requires Follows(policy, a, b) && Follows(policy, b, c)
    ensures Follows(policy, a, c)
  {
    forall i | 0 <= i < |a|
      ensures Continues(a[i], c[i])
    {
      assert Continues(a[i], b[i]) && Continues(b[i], c[i]);
    }
    forall i | |a| <= i < |b|
      ensures Allowed(policy.letters, policy.rules, c[i].email) && c[i].keycloakId.Some?
    {
      assert Continues(b[i], c[i]);
    }
  }

  /** Every run keeps the table unique, and keeps every non-empty Keycloak id where it is. */
  lemma {:induction false} RunIsStable(policy: Policy, rows: seq<User>, events: seq<Event>)
    requires Unique(rows) && !policy.rebind
    ensures Unique(Run(policy, rows, events)) && Follows(policy, rows, Run(policy, rows, events))
  {
    if events != [] {
      var n := |events| - 1;
      RunIsStable(policy, rows, events[..n]);
      var mid := Run(policy, rows, events[..n]);
      NextKeepsUnique(policy, mid, events[n]);
      NextFollows(policy, mid, events[n]);
      FollowsTrans(policy, rows, mid, Run(policy, rows, events));
    }
  }

  /** A login that succeeds leaves its row holding its subject. */
  lemma SignedInHoldsSubject(policy: Policy, rows: seq<User>, t: Token)
    requires AfterLogin(policy, rows, t).outcome.SignedIn?
    ensures var a := AfterLogin(policy, rows, t);
            a.outcome.row < |a.rows| && a.rows[a.outcome.row].keycloakId == Some(t.sub)
  {
  }

  /** A subject that once signed in to a row signs in to no other row, whatever email its later tokens
      carry and whatever happens in between. */
  lemma SameSubjectSameRow(policy: Policy, rows: seq<User>, t: Token, events: seq<Event>, t': Token)
    requires Unique(rows) && !policy.rebind && t.sub != "" && t'.sub == t.sub
    requires AfterLogin(policy, rows, t).outcome.SignedIn?
    ensures var first := AfterLogin(policy, rows, t);
            var later := AfterLogin(policy, Run(policy, first.rows, events), t').outcome;
            later == first.outcome || later == Refused(Inactive)
  {
    var first := AfterLogin(policy, rows, t);
    SignedInHoldsSubject(policy, rows, t);
    LoginKeepsUnique(policy, rows, t);
    RunIsStable(policy, first.rows, events);
    var later := Run(policy, first.rows, events);
    assert Continues(first.rows[first.outcome.row], later[first.outcome.row]);
    BySubIs(later, t.sub, first.outcome.row);
  }

  /** A token for a linked row's email but with another subject is refused and changes nothing. */
  lemma OtherSubjectIsRefused(policy: Policy, rows: seq<User>, t: Token, row: nat)
    requires Unique(rows) && !policy.rebind && row < |rows| && Linked(rows[row])
    requires t.email != "" && t.email == rows[row].email && BySub(rows, t.sub).None?
    ensures AfterLogin(policy, rows, t) == Login(rows, Refused(OtherIdentity))
  {
    EmailIs(rows, row);
  }
}
