/** Agents and the mailboxes they may act through: bindings with a primary flag, and on the agent a
    cached copy of the primary mailbox from which the send identity is read. */
module AgentBindings {
  import opened Text

  datatype Access = SEND | READ | BOTH

  predicate Sendable(a: Access) { a != READ }

  datatype Binding = Binding(mailbox: string, access: Access, isPrimary: bool)

  /** An agent's bindings in the order they were created, and its cached mailbox. */
  datatype Agent = Agent(bindings: seq<Binding>, cache: Option<string>)

  // ---- the invariant ------------------------------------------------------------------------

  predicate IsPrimaryAt(bs: seq<Binding>, i: int) { 0 <= i < |bs| && bs[i].isPrimary }

  /** At most one primary binding, that one sendable, and the cache equal to its mailbox — or no
      primary and no cached mailbox. One binding per mailbox. */
  ghost predicate Consistent(a: Agent) {
    && OneBindingPerMailbox(a.bindings)
    && (forall i, j :: IsPrimaryAt(a.bindings, i) && IsPrimaryAt(a.bindings, j) ==> i == j)
    && (forall i :: IsPrimaryAt(a.bindings, i) ==>
          Sendable(a.bindings[i].access) && a.cache == Some(a.bindings[i].mailbox))
    && ((forall i :: !IsPrimaryAt(a.bindings, i)) ==> a.cache == None)
  }

  ghost predicate OneBindingPerMailbox(bs: seq<Binding>) {
    forall i, j :: 0 <= i < j < |bs| ==> bs[i].mailbox != bs[j].mailbox
  }

  // ---- the pieces ---------------------------------------------------------------------------

  /** The first binding from `from` on that satisfies the test. */
  function First(bs: seq<Binding>, test: Binding -> bool, from: nat): (r: Option<nat>)
    requires from <= |bs|
    ensures r.Some? ==> from <= r.value < |bs| && test(bs[r.value]) && forall i :: from <= i < r.value ==> !test(bs[i])
    ensures r.None? ==> forall i :: from <= i < |bs| ==> !test(bs[i])
    decreases |bs| - from
  {
    if from == |bs| then None else if test(bs[from]) then Some(from) else First(bs, test, from + 1)
  }

  function Locate(bs: seq<Binding>, mailbox: string): Option<nat> {
    First(bs, (b: Binding) => b.mailbox == mailbox, 0)
  }

  function Upsert(bs: seq<Binding>, mailbox: string, access: Access, isPrimary: bool): seq<Binding> {
    match Locate(bs, mailbox)
    case Some(i) => bs[i := bs[i].(access := access, isPrimary := isPrimary)]
    case None => bs + [Binding(mailbox, access, isPrimary)]
  }

  /** Exactly this binding (or none) flagged primary, all else as it was. */
  function Flagged(bs: seq<Binding>, only: Option<nat>): seq<Binding> {
    seq(|bs|, i requires 0 <= i < |bs| => bs[i].(isPrimary := only == Some(i)))
  }

  /** What setting the primary mailbox does; a mailbox given as "" counts as given but is not bound. */
  function SetPrimary(a: Agent, mailbox: Option<string>): Agent {
    var cleared := Flagged(a.bindings, None);
    if mailbox.None? || mailbox.value == "" then Agent(cleared, mailbox)
    else
      var access := match Locate(cleared, mailbox.value)
                    case None => BOTH
                    case Some(i) => if cleared[i].access == READ then BOTH else cleared[i].access;
      Agent(Upsert(cleared, mailbox.value, access, true), mailbox)
  }

  /** The binding reconciling keeps or promotes: the oldest sendable one among the primaries, else
      the oldest sendable one. */
  function Chosen(bs: seq<Binding>): Option<nat> {
    match First(bs, (b: Binding) => b.isPrimary && Sendable(b.access), 0)
    case Some(i) => Some(i)
    case None => First(bs, (b: Binding) => Sendable(b.access), 0)
  }

  function Reconcile(a: Agent): Agent {
    var chosen := Chosen(a.bindings);
    Agent(Flagged(a.bindings, chosen), match chosen case Some(i) => Some(a.bindings[i].mailbox) case None => None)
  }

  function Bind(a: Agent, mailbox: string, access: Access, primary: bool): Agent {
    if primary then
      var wanted := if access == READ then BOTH else access;
      Reconcile(SetPrimary(a.(bindings := Upsert(a.bindings, mailbox, wanted, false)), Some(mailbox)))
    else Reconcile(a.(bindings := Upsert(a.bindings, mailbox, access, false)))
  }

  function Without(bs: seq<Binding>, i: nat): seq<Binding>
    requires i < |bs|
  {
    bs[..i] + bs[i + 1..]
  }

  function Unbind(a: Agent, mailbox: string): Agent {
    match Locate(a.bindings, mailbox)
    case None => a
    case Some(i) => Reconcile(a.(bindings := Without(a.bindings, i)))
  }

  // ---- reconciling --------------------------------------------------------------------------

  /** From any state whatever, reconciling leaves at most one primary, sendable, with the cache
      equal to it; no cached mailbox only when nothing is sendable; and it changes no membership
      and no access level, only flags. A second time it changes nothing. */
  lemma ReconcileEstablishes(a: Agent)
    ensures var r := Reconcile(a);
            && (forall i, j :: IsPrimaryAt(r.bindings, i) && IsPrimaryAt(r.bindings, j) ==> i == j)
            && (forall i :: IsPrimaryAt(r.bindings, i) ==>
                  Sendable(r.bindings[i].access) && r.cache == Some(r.bindings[i].mailbox))
            && (r.cache.Some? <==> exists i :: IsPrimaryAt(r.bindings, i))
            && (r.cache.None? <==> forall b :: b in a.bindings ==> !Sendable(b.access))
            && |r.bindings| == |a.bindings|
            && (forall i :: 0 <= i < |a.bindings| ==>
                  r.bindings[i].mailbox == a.bindings[i].mailbox && r.bindings[i].access == a.bindings[i].access)
  {
    var r, chosen := Reconcile(a), Chosen(a.bindings);
    match chosen
    case Some(i) =>
      assert IsPrimaryAt(r.bindings, i);
      assert a.bindings[i] in a.bindings;
    case None =>
      assert forall i :: 0 <= i < |r.bindings| ==> !r.bindings[i].isPrimary;
  }

  lemma ReconcileConsistent(a: Agent)
    requires OneBindingPerMailbox(a.bindings)
    ensures Consistent(Reconcile(a))
  {
    ReconcileEstablishes(a);
  }

  lemma FlaggedChosen(bs: seq<Binding>, chosen: nat)
    requires chosen < |bs| && Sendable(bs[chosen].access)
    ensures Chosen(Flagged(bs, Some(chosen))) == Some(chosen)
  {
    var fs := Flagged(bs, Some(chosen));
    var test := (b: Binding) => b.isPrimary && Sendable(b.access);
    assert test(fs[chosen]);
    assert forall i :: 0 <= i < |fs| && i != chosen ==> !test(fs[i]);
  }

  /** A consistent agent with a primary is left exactly as it is. */
  lemma ReconcileKeepsPrimary(a: Agent, i: nat)
    requires Consistent(a) && IsPrimaryAt(a.bindings, i)
    ensures Reconcile(a) == a
  {
    var chosen := Chosen(a.bindings);
    assert a.bindings[i].isPrimary && Sendable(a.bindings[i].access);
    assert chosen == Some(i) by {
      var first := First(a.bindings, (b: Binding) => b.isPrimary && Sendable(b.access), 0);
      assert first.Some? && IsPrimaryAt(a.bindings, first.value);
    }
    assert Flagged(a.bindings, chosen) == a.bindings by {
      forall k | 0 <= k < |a.bindings|
        ensures Flagged(a.bindings, chosen)[k] == a.bindings[k]
      {
        assert IsPrimaryAt(a.bindings, k) ==> k == i;
      }
    }
  }

  lemma ReconcileIdempotent(a: Agent)
    ensures Reconcile(Reconcile(a)) == Reconcile(a)
  {
    match Chosen(a.bindings) {
      case Some(i) =>
        assert Sendable(a.bindings[i].access);
        FlaggedChosen(a.bindings, i);
        assert Flagged(Flagged(a.bindings, Some(i)), Some(i)) == Flagged(a.bindings, Some(i));
      case None =>
        NothingSendable(a.bindings);
        assert Flagged(Flagged(a.bindings, None), None) == Flagged(a.bindings, None);
    }
  }

  lemma NothingSendable(bs: seq<Binding>)
    requires Chosen(bs).None?
    ensures Chosen(Flagged(bs, None)).None?
  {
  }

  function FirstSendable(bs: seq<Binding>): Option<nat> { First(bs, (b: Binding) => Sendable(b.access), 0) }

  /** Reconciling promotes: no binding is primary, or the first primary cannot send. */
  predicate Promotes(bs: seq<Binding>) {
    var p := First(bs, (b: Binding) => b.isPrimary, 0);
    p.None? || !Sendable(bs[p.value].access)
  }

  /** Promotion takes the oldest sendable binding exactly when that one is primary or no sendable
      binding is. */
  lemma PromotesOldestIff(bs: seq<Binding>)
    requires Promotes(bs)
    ensures Chosen(bs) == FirstSendable(bs) <==>
            || (FirstSendable(bs).Some? && bs[FirstSendable(bs).value].isPrimary)
            || forall b :: b in bs ==> !(b.isPrimary && Sendable(b.access))
  {
    var test := (b: Binding) => b.isPrimary && Sendable(b.access);
    var first := First(bs, test, 0);
    if first.Some? {
      assert test(bs[first.value]) && bs[first.value] in bs;
    } else {
      assert forall i :: 0 <= i < |bs| ==> !test(bs[i]);
    }
    if FirstSendable(bs).Some? && bs[FirstSendable(bs).value].isPrimary {
      assert test(bs[FirstSendable(bs).value]);
      assert forall i :: 0 <= i < FirstSendable(bs).value ==> !Sendable(bs[i].access);
    }
  }

  /** So it does whenever at most one binding is primary, as the operations always leave it … */
  lemma OnePrimaryPromotesOldest(bs: seq<Binding>)
    requires Promotes(bs) && forall i, j :: IsPrimaryAt(bs, i) && IsPrimaryAt(bs, j) ==> i == j
    ensures Chosen(bs) == FirstSendable(bs)
  {
    var p := First(bs, (b: Binding) => b.isPrimary, 0);
    forall i | 0 <= i < |bs|
      ensures !(bs[i].isPrimary && Sendable(bs[i].access))
    {
      assert bs[i].isPrimary ==> p.Some? && IsPrimaryAt(bs, i) && IsPrimaryAt(bs, p.value);
    }
    PromotesOldestIff(bs);
  }

  /** … but not from every state: of three bindings, the younger two primary and only the second of
      them sendable, that one is promoted over the older sendable one. */
  lemma TwoPrimariesPromoteTheYounger(a: string, b: string, c: string)
    ensures var bs := [Binding(a, SEND, false), Binding(b, READ, true), Binding(c, SEND, true)];
            Promotes(bs) && FirstSendable(bs) == Some(0) && Chosen(bs) == Some(2)
  {
    var bs := [Binding(a, SEND, false), Binding(b, READ, true), Binding(c, SEND, true)];
    assert !bs[0].isPrimary && bs[1].isPrimary && bs[2].isPrimary;
  }

  // ---- every operation ----------------------------------------------------------------------

  lemma UpsertKeepsUnique(bs: seq<Binding>, mailbox: string, access: Access, isPrimary: bool)
    requires OneBindingPerMailbox(bs)
    ensures OneBindingPerMailbox(Upsert(bs, mailbox, access, isPrimary))
  {
  }

  lemma SetPrimaryConsistent(a: Agent, mailbox: Option<string>)
    requires OneBindingPerMailbox(a.bindings)
    ensures OneBindingPerMailbox(SetPrimary(a, mailbox).bindings)
    ensures Consistent(SetPrimary(a, mailbox)) <==> mailbox != Some("")
  {
    var cleared := Flagged(a.bindings, None);
    assert OneBindingPerMailbox(cleared);
    if mailbox.Some? && mailbox.value != "" {
      var r := SetPrimary(a, mailbox);
      UpsertKeepsUnique(cleared, mailbox.value, BOTH, true);
      match Locate(cleared, mailbox.value) {
        case Some(i) =>
          assert IsPrimaryAt(r.bindings, i);
          assert forall k :: IsPrimaryAt(r.bindings, k) ==> k == i;
        case None =>
          assert IsPrimaryAt(r.bindings, |cleared|);
          assert forall k :: IsPrimaryAt(r.bindings, k) ==> k == |cleared|;
      }
    }
  }

  lemma BindConsistent(a: Agent, mailbox: string, access: Access, primary: bool)
    requires OneBindingPerMailbox(a.bindings)
    ensures Consistent(Bind(a, mailbox, access, primary))
  {
    var wanted := if primary && access == READ then BOTH else access;
    UpsertKeepsUnique(a.bindings, mailbox, wanted, false);
    var bound := a.(bindings := Upsert(a.bindings, mailbox, wanted, false));
    SetPrimaryConsistent(bound, Some(mailbox));
    ReconcileConsistent(bound);
    ReconcileConsistent(SetPrimary(bound, Some(mailbox)));
  }

  /** Binding a real mailbox as primary makes it the send identity. */
  lemma BindPrimaryTakesEffect(a: Agent, mailbox: string, access: Access)
    requires OneBindingPerMailbox(a.bindings) && mailbox != ""
    ensures Bind(a, mailbox, access, true).cache == Some(mailbox)
  {
    var wanted := if access == READ then BOTH else access;
    UpsertKeepsUnique(a.bindings, mailbox, wanted, false);
    var bound := a.(bindings := Upsert(a.bindings, mailbox, wanted, false));
    var pointed := SetPrimary(bound, Some(mailbox));
    SetPrimaryConsistent(bound, Some(mailbox));
    var i :| IsPrimaryAt(pointed.bindings, i);
    ReconcileKeepsPrimary(pointed, i);
  }

  lemma UnbindConsistent(a: Agent, mailbox: string)
    requires Consistent(a)
    ensures Consistent(Unbind(a, mailbox))
  {
    match Locate(a.bindings, mailbox)
    case None =>
    case Some(i) =>
      ReconcileConsistent(a.(bindings := Without(a.bindings, i)));
  }

  /** Granting some other mailbox, not as primary, never moves the send identity … */
  lemma BindingOthersKeepsIdentity(a: Agent, mailbox: string, access: Access)
    requires Consistent(a) && a.cache.Some? && a.cache.value != mailbox
    ensures Bind(a, mailbox, access, false).cache == a.cache
  {
    var i :| IsPrimaryAt(a.bindings, i);
    UpsertKeepsUnique(a.bindings, mailbox, access, false);
    var bound := a.(bindings := Upsert(a.bindings, mailbox, access, false));
    assert bound.bindings[i] == a.bindings[i];
    SubsetConsistent(a, bound, i, i);
    ReconcileKeepsPrimary(bound, i);
  }

  /** … nor does revoking some other mailbox. */
  lemma UnbindingOthersKeepsIdentity(a: Agent, mailbox: string)
    requires Consistent(a) && a.cache.Some? && a.cache.value != mailbox
    ensures Unbind(a, mailbox).cache == a.cache
  {
    match Locate(a.bindings, mailbox)
    case None =>
    case Some(j) =>
      var i :| IsPrimaryAt(a.bindings, i);
      var left := a.(bindings := Without(a.bindings, j));
      var k := if i < j then i else i - 1;
      forall n | IsPrimaryAt(left.bindings, n)
        ensures n == k
      {
        assert IsPrimaryAt(a.bindings, if n < j then n else n + 1);
      }
      SubsetConsistent(a, left, i, k);
      ReconcileKeepsPrimary(left, k);
  }

  lemma SubsetConsistent(a: Agent, b: Agent, i: int, k: int)
    requires Consistent(a) && IsPrimaryAt(a.bindings, i) && b.cache == a.cache
    requires IsPrimaryAt(b.bindings, k) && b.bindings[k] == a.bindings[i]
    requires OneBindingPerMailbox(b.bindings)
    requires forall n :: IsPrimaryAt(b.bindings, n) ==> n == k
    ensures Consistent(b)
  {
  }

  // ---- who may do what through which mailbox ---------------------------------------------------

  /** A mailbox and the access an agent has to it. */
  datatype Right = Right(mailbox: string, access: Access)

  /** The rights of an agent, oldest first. */
  function Rights(bs: seq<Binding>): seq<Right> {
    seq(|bs|, i requires 0 <= i < |bs| => Right(bs[i].mailbox, bs[i].access))
  }

  predicate Bound(rs: seq<Right>, mailbox: string) { exists i :: 0 <= i < |rs| && rs[i].mailbox == mailbox }

  /** All rights but those to one mailbox, in order. */
  function RightsWithout(rs: seq<Right>, mailbox: string): seq<Right> {
    if rs == [] then []
    else
      var last := rs[|rs| - 1];
      RightsWithout(rs[..|rs| - 1], mailbox) + if last.mailbox == mailbox then [] else [last]
  }

  /** The right to one mailbox replaced where it stands, or added at the end. */
  function RightsWith(rs: seq<Right>, mailbox: string, access: Access): seq<Right> {
    seq(|rs|, i requires 0 <= i < |rs| => if rs[i].mailbox == mailbox then Right(mailbox, access) else rs[i])
    + if Bound(rs, mailbox) then [] else [Right(mailbox, access)]
  }

  lemma {:induction false} RightsWithoutIs(rs: seq<Right>, mailbox: string)
    ensures forall r :: r in RightsWithout(rs, mailbox) <==> r in rs && r.mailbox != mailbox
    ensures !Bound(rs, mailbox) ==> RightsWithout(rs, mailbox) == rs
  {
    if rs != [] {
      var n := |rs| - 1;
      RightsWithoutIs(rs[..n], mailbox);
      assert rs == rs[..n] + [rs[n]];
      if !Bound(rs, mailbox) {
        assert rs[n].mailbox != mailbox;
        assert forall i :: 0 <= i < n ==> rs[..n][i].mailbox != mailbox;
      }
    }
  }

  lemma FlagsAreNoRights(bs: seq<Binding>, only: Option<nat>)
    ensures Rights(Flagged(bs, only)) == Rights(bs)
  {
  }

  lemma LocateIs(bs: seq<Binding>, mailbox: string)
    ensures Locate(bs, mailbox).Some? <==> Bound(Rights(bs), mailbox)
  {
    match Locate(bs, mailbox)
    case Some(i) => assert Rights(bs)[i].mailbox == mailbox;
    case None => assert forall i :: 0 <= i < |bs| ==> Rights(bs)[i].mailbox == bs[i].mailbox;
  }

  lemma UpsertGrants(bs: seq<Binding>, mailbox: string, access: Access, isPrimary: bool)
    requires OneBindingPerMailbox(bs)
    ensures Rights(Upsert(bs, mailbox, access, isPrimary)) == RightsWith(Rights(bs), mailbox, access)
  {
    LocateIs(bs, mailbox);
    match Locate(bs, mailbox)
    case Some(i) =>
      assert forall k :: 0 <= k < |bs| && k != i ==> bs[k].mailbox != mailbox;
      AppendNothing(RightsWith(Rights(bs), mailbox, access));
    case None =>
      assert forall k :: 0 <= k < |bs| ==> Rights(bs)[k].mailbox != mailbox;
  }

  lemma GrantTwice(rs: seq<Right>, mailbox: string, access: Access, again: Access)
    ensures RightsWith(RightsWith(rs, mailbox, access), mailbox, again) == RightsWith(rs, mailbox, again)
    ensures Bound(RightsWith(rs, mailbox, access), mailbox)
  {
    var once := RightsWith(rs, mailbox, access);
    if Bound(rs, mailbox) {
      var i :| 0 <= i < |rs| && rs[i].mailbox == mailbox;
      assert once[i].mailbox == mailbox;
    } else {
      assert once[|rs|].mailbox == mailbox;
    }
  }

  /** Setting the primary mailbox binds it, raising a read-only binding to both and leaving any other
      access; clearing it changes no right. */
  lemma SetPrimaryGrants(a: Agent, mailbox: Option<string>)
    requires OneBindingPerMailbox(a.bindings)
    ensures SetPrimary(a, mailbox).cache == mailbox
    ensures mailbox.None? || mailbox.value == "" ==> Rights(SetPrimary(a, mailbox).bindings) == Rights(a.bindings)
    ensures mailbox.Some? && mailbox.value != "" ==>
              exists access :: && Rights(SetPrimary(a, mailbox).bindings)
                                  == RightsWith(Rights(a.bindings), mailbox.value, access)
                               && access != READ
                               && forall r :: r in Rights(a.bindings) && r.mailbox == mailbox.value && r.access != READ
                                              ==> access == r.access
  {
    var cleared := Flagged(a.bindings, None);
    FlagsAreNoRights(a.bindings, None);
    if mailbox.Some? && mailbox.value != "" {
      var access := match Locate(cleared, mailbox.value)
                    case None => BOTH
                    case Some(i) => if cleared[i].access == READ then BOTH else cleared[i].access;
      UpsertGrants(cleared, mailbox.value, access, true);
      LocateIs(cleared, mailbox.value);
      forall r | r in Rights(a.bindings) && r.mailbox == mailbox.value && r.access != READ
        ensures access == r.access
      {
        var i :| 0 <= i < |a.bindings| && Rights(a.bindings)[i] == r;
        assert cleared[i].mailbox == mailbox.value;
      }
    }
  }

  lemma ReconcileKeepsRights(a: Agent)
    ensures Rights(Reconcile(a).bindings) == Rights(a.bindings)
  {
    FlagsAreNoRights(a.bindings, Chosen(a.bindings));
  }

  /** Binding grants exactly the access asked for, to exactly this mailbox; as the primary one, reading
      alone becomes both. Nothing else changes. */
  lemma BindGrants(a: Agent, mailbox: string, access: Access, primary: bool)
    requires OneBindingPerMailbox(a.bindings)
    ensures Rights(Bind(a, mailbox, access, primary).bindings)
            == RightsWith(Rights(a.bindings), mailbox, if primary && access == READ then BOTH else access)
  {
    var wanted := if primary && access == READ then BOTH else access;
    var bound := a.(bindings := Upsert(a.bindings, mailbox, wanted, false));
    UpsertGrants(a.bindings, mailbox, wanted, false);
    UpsertKeepsUnique(a.bindings, mailbox, wanted, false);
    ReconcileKeepsRights(bound);
    ReconcileKeepsRights(SetPrimary(bound, Some(mailbox)));
    if primary {
      GrantHas(Rights(a.bindings), mailbox, wanted);
      SetPrimaryGrants(bound, Some(mailbox));
      GrantTwice(Rights(a.bindings), mailbox, wanted, wanted);
    }
  }

  lemma GrantHas(rs: seq<Right>, mailbox: string, access: Access)
    ensures Right(mailbox, access) in RightsWith(rs, mailbox, access)
  {
    var more := RightsWith(rs, mailbox, access);
    if Bound(rs, mailbox) {
      var i :| 0 <= i < |rs| && rs[i].mailbox == mailbox;
      assert more[i] == Right(mailbox, access);
    } else {
      assert more[|rs|] == Right(mailbox, access);
    }
  }

  lemma {:induction false} DropRevokes(rs: seq<Right>, i: nat)
    requires i < |rs| && forall j :: 0 <= j < |rs| && j != i ==> rs[j].mailbox != rs[i].mailbox
    ensures RightsWithout(rs, rs[i].mailbox) == rs[..i] + rs[i + 1..]
  {
    var n := |rs| - 1;
    if i == n {
      NotBound(rs[..n], rs[n].mailbox);
      RightsWithoutIs(rs[..n], rs[n].mailbox);
      assert rs[..i] + rs[i + 1..] == rs[..n];
    } else {
      DropRevokes(rs[..n], i);
      assert rs[..i] + rs[i + 1..] == (rs[..n][..i] + rs[..n][i + 1..]) + [rs[n]];
    }
  }

  lemma NotBound(rs: seq<Right>, mailbox: string)
    requires forall j :: 0 <= j < |rs| ==> rs[j].mailbox != mailbox
    ensures !Bound(rs, mailbox)
  {
  }

  lemma WithoutRevokes(bs: seq<Binding>, i: nat)
    requires i < |bs| && OneBindingPerMailbox(bs)
    ensures Rights(Without(bs, i)) == RightsWithout(Rights(bs), bs[i].mailbox)
  {
    DropRevokes(Rights(bs), i);
    assert Rights(Without(bs, i)) == Rights(bs)[..i] + Rights(bs)[i + 1..];
  }

  /** Unbinding takes away the right to the mailbox, and with it the send identity if that was it, and
      leaves all other rights in their order. */
  lemma UnbindRevokes(a: Agent, mailbox: string)
    requires OneBindingPerMailbox(a.bindings)
    ensures Rights(Unbind(a, mailbox).bindings) == RightsWithout(Rights(a.bindings), mailbox)
    ensures !Bound(Rights(Unbind(a, mailbox).bindings), mailbox)
    ensures Bound(Rights(a.bindings), mailbox) || a.cache != Some(mailbox) ==> Unbind(a, mailbox).cache != Some(mailbox)
  {
    LocateIs(a.bindings, mailbox);
    RightsWithoutIs(Rights(a.bindings), mailbox);
    match Locate(a.bindings, mailbox) {
      case None =>
      case Some(i) =>
        var left := a.(bindings := Without(a.bindings, i));
        WithoutRevokes(a.bindings, i);
        ReconcileKeepsRights(left);
        assert forall k :: 0 <= k < |left.bindings| ==> left.bindings[k].mailbox != mailbox;
    }
    var left := RightsWithout(Rights(a.bindings), mailbox);
    assert forall k :: 0 <= k < |left| ==> left[k] in left;
    NotBound(left, mailbox);
  }

  // ---- the service --------------------------------------------------------------------------

  datatype Op =
    | Create(first: Option<string>)
    | Update(id: nat, patch: Option<Option<string>>)
    | BindOp(id: nat, mailbox: string, access: Access, primary: bool)
    | UnbindOp(id: nat, mailbox: string)

  datatype Registry = Registry(agents: map<nat, Agent>, nextId: nat, mailboxes: set<string>)

  /** A given mailbox must belong to the workspace; "" and null are not looked up. */
  predicate Known(r: Registry, mailbox: Option<string>) {
    mailbox.None? || mailbox.value == "" || mailbox.value in r.mailboxes
  }

  function Perform(r: Registry, op: Op): Registry {
    match op
    case Create(mailbox) =>
      if !Known(r, mailbox) then r
      else
        var blank := Agent([], None);
        var agent := if mailbox.Some? && mailbox.value != "" then SetPrimary(blank, mailbox) else blank;
        r.(agents := r.agents[r.nextId := agent], nextId := r.nextId + 1)
    case Update(id, mailbox) =>
      if id !in r.agents || mailbox.None? || !Known(r, mailbox.value) then r
      else r.(agents := r.agents[id := SetPrimary(r.agents[id], mailbox.value)])
    case BindOp(id, mailbox, access, primary) =>
      if id !in r.agents || mailbox !in r.mailboxes then r
      else r.(agents := r.agents[id := Bind(r.agents[id], mailbox, access, primary)])
    case UnbindOp(id, mailbox) =>
      if id !in r.agents then r
      else r.(agents := r.agents[id := Unbind(r.agents[id], mailbox)])
  }

  ghost predicate AllConsistent(r: Registry) {
    forall id :: id in r.agents ==> Consistent(r.agents[id])
  }

  /** An operation keeps every agent consistent exactly unless it patches the mailbox of an existing
      agent to the empty string: that clears the primary but caches "". */
  lemma PerformKeepsConsistency(r: Registry, op: Op)
    requires AllConsistent(r)
    ensures AllConsistent(Perform(r, op)) <==> !(op.Update? && op.id in r.agents && op.patch == Some(Some("")))
  {
    match op {
      case Create(mailbox) => SetPrimaryConsistent(Agent([], None), mailbox);
      case Update(id, mailbox) =>
        if id in r.agents && mailbox.Some? {
          SetPrimaryConsistent(r.agents[id], mailbox.value);
          if Known(r, mailbox.value) {
            assert Perform(r, op).agents[id] == SetPrimary(r.agents[id], mailbox.value);
          }
        }
      case BindOp(id, mailbox, access, primary) =>
        if id in r.agents { BindConsistent(r.agents[id], mailbox, access, primary); }
      case UnbindOp(id, mailbox) =>
        if id in r.agents { UnbindConsistent(r.agents[id], mailbox); }
    }
  }

  /** A concrete run that breaks the invariant: create with a mailbox, then patch it to "". */
  lemma EmptyPatchBreaksTheCache(r: Registry)
    requires "m1" in r.mailboxes
    ensures var after := Perform(Perform(r, Create(Some("m1"))), Update(r.nextId, Some(Some(""))));
            && r.nextId in after.agents
            && after.agents[r.nextId].cache == Some("")
            && forall b :: b in after.agents[r.nextId].bindings ==> !b.isPrimary
  {
  }

  /** Any later bind repairs it: binding establishes consistency from any state. */
  lemma BindRepairs(r: Registry, id: nat, mailbox: string, access: Access, primary: bool)
    requires id in r.agents && mailbox in r.mailboxes && OneBindingPerMailbox(r.agents[id].bindings)
    ensures Consistent(Perform(r, BindOp(id, mailbox, access, primary)).agents[id])
  {
    BindConsistent(r.agents[id], mailbox, access, primary);
  }

  function PerformAll(r: Registry, ops: seq<Op>): Registry {
    if ops == [] then r else Perform(PerformAll(r, ops[..|ops| - 1]), ops[|ops| - 1])
  }

  /** Every sequence of operations without such a patch keeps every agent consistent. */
  lemma {:induction false} EverySequenceKeepsConsistency(r: Registry, ops: seq<Op>)
    requires AllConsistent(r)
    requires forall op :: op in ops ==> !(op.Update? && op.patch == Some(Some("")))
    ensures AllConsistent(PerformAll(r, ops))
  {
    if ops != [] {
      var n := |ops| - 1;
      assert forall op :: op in ops[..n] ==> op in ops;
      EverySequenceKeepsConsistency(r, ops[..n]);
      PerformKeepsConsistency(PerformAll(r, ops[..n]), ops[n]);
    }
  }

  /** An operation that may bind this mailbox to this agent. */
  predicate Binds(op: Op, id: nat, mailbox: string) {
    match op
    case Create(_) => false
    case Update(i, patch) => i == id && patch == Some(Some(mailbox))
    case BindOp(i, box, _, _) => i == id && box == mailbox
    case UnbindOp(_, _) => false
  }

  ghost predicate OneEach(r: Registry) {
    forall id :: id in r.agents ==> id < r.nextId && OneBindingPerMailbox(r.agents[id].bindings)
  }

  lemma PerformKeepsOneEach(r: Registry, op: Op)
    requires OneEach(r)
    ensures OneEach(Perform(r, op))
  {
    match op
    case Create(mailbox) => SetPrimaryConsistent(Agent([], None), mailbox);
    case Update(id, mailbox) =>
      if id in r.agents && mailbox.Some? { SetPrimaryConsistent(r.agents[id], mailbox.value); }
    case BindOp(id, mailbox, access, primary) =>
      if id in r.agents { BindConsistent(r.agents[id], mailbox, access, primary); }
    case UnbindOp(id, mailbox) =>
      if id in r.agents { UnbindKeepsUnique(r.agents[id], mailbox); }
  }

  lemma UnbindKeepsUnique(a: Agent, mailbox: string)
    requires OneBindingPerMailbox(a.bindings)
    ensures OneBindingPerMailbox(Unbind(a, mailbox).bindings)
  {
    match Locate(a.bindings, mailbox)
    case None =>
    case Some(i) => ReconcileConsistent(a.(bindings := Without(a.bindings, i)));
  }

  ghost predicate Has(r: Registry, id: nat, mailbox: string) {
    id in r.agents && Bound(Rights(r.agents[id].bindings), mailbox)
  }

  lemma StaysUnbound(r: Registry, op: Op, id: nat, mailbox: string)
    requires OneEach(r) && id in r.agents && !Has(r, id, mailbox) && !Binds(op, id, mailbox)
    ensures id in Perform(r, op).agents && !Has(Perform(r, op), id, mailbox)
  {
    if op.Create? || op.id != id || op.id !in r.agents {
      OthersUntouched(r, op, id);
    } else {
      var a := r.agents[id];
      match op {
        case Update(_, patch) =>
          if patch.Some? {
            SetPrimaryGrants(a, patch.value);
            if patch.value.Some? { GrantLeavesUnbound(Rights(a.bindings), patch.value.value, mailbox); }
          }
        case BindOp(_, box, access, primary) =>
          BindGrants(a, box, access, primary);
          GrantLeavesUnbound(Rights(a.bindings), box, mailbox);
        case UnbindOp(_, box) =>
          UnbindRevokes(a, box);
          RightsWithoutIs(Rights(a.bindings), box);
          var left := RightsWithout(Rights(a.bindings), box);
          assert forall k :: 0 <= k < |left| ==> left[k] in left;
      }
    }
  }

  lemma GrantLeavesUnbound(rs: seq<Right>, box: string, mailbox: string)
    requires box != mailbox && !Bound(rs, mailbox)
    ensures forall access :: !Bound(RightsWith(rs, box, access), mailbox)
  {
  }

  /** In every run a mailbox taken from an agent stays away from it, until an operation binds it again. */
  lemma {:induction false} RevokedStaysRevoked(r: Registry, id: nat, mailbox: string, ops: seq<Op>)
    requires OneEach(r) && id in r.agents
    requires forall op :: op in ops ==> !Binds(op, id, mailbox)
    ensures var after := PerformAll(Perform(r, UnbindOp(id, mailbox)), ops);
            OneEach(after) && id in after.agents && !Has(after, id, mailbox)
  {
    var revoked := Perform(r, UnbindOp(id, mailbox));
    if ops == [] {
      UnbindRevokes(r.agents[id], mailbox);
      PerformKeepsOneEach(r, UnbindOp(id, mailbox));
    } else {
      var n := |ops| - 1;
      assert forall op :: op in ops[..n] ==> op in ops;
      RevokedStaysRevoked(r, id, mailbox, ops[..n]);
      assert ops[n] in ops;
      StaysUnbound(PerformAll(revoked, ops[..n]), ops[n], id, mailbox);
      PerformKeepsOneEach(PerformAll(revoked, ops[..n]), ops[n]);
    }
  }

  /** A new agent can use exactly the mailbox it was created with. */
  lemma CreateGives(r: Registry, mailbox: Option<string>)
    requires Known(r, mailbox)
    ensures var a := Perform(r, Create(mailbox)).agents[r.nextId];
            if mailbox.None? || mailbox.value == "" then a == Agent([], None)
            else Rights(a.bindings) == [Right(mailbox.value, BOTH)] && a.cache == mailbox
  {
  }

  /** A mailbox of another workspace is given to no agent. */
  lemma UnknownMailboxIsRefused(r: Registry, op: Op, mailbox: string)
    requires mailbox != "" && mailbox !in r.mailboxes
    requires op == Create(Some(mailbox)) || (op.Update? && op.patch == Some(Some(mailbox)))
             || (op.BindOp? && op.mailbox == mailbox)
    ensures Perform(r, op) == r
  {
  }

  /** An operation on one agent leaves all others untouched. */
  lemma OthersUntouched(r: Registry, op: Op, id: nat)
    requires id in r.agents && id < r.nextId
    requires !op.Create? ==> op.id != id
    ensures id in Perform(r, op).agents && Perform(r, op).agents[id] == r.agents[id]
  {
  }

  // ---- the order in which reconciling reads the bindings --------------------------------------

  /** The places of the bindings with this flag, by age. */
  function Places(bs: seq<Binding>, flag: bool): seq<nat> {
    if bs == [] then []
    else Places(bs[..|bs| - 1], flag) + if bs[|bs| - 1].isPrimary == flag then [|bs| - 1] else []
  }

  /** Primaries first, then by age. */
  function ByFlagAndAge(bs: seq<Binding>): seq<nat> { Places(bs, true) + Places(bs, false) }

  ghost predicate Ascending(s: seq<nat>) { forall i, j :: 0 <= i < j < |s| ==> s[i] < s[j] }

  lemma {:induction false} PlacesMean(bs: seq<Binding>, flag: bool)
    ensures Ascending(Places(bs, flag))
    ensures forall i: nat :: i in Places(bs, flag) <==> i < |bs| && bs[i].isPrimary == flag
  {
    if bs != [] {
      var earlier := Places(bs[..|bs| - 1], flag);
      PlacesMean(bs[..|bs| - 1], flag);
      assert forall i :: 0 <= i < |earlier| ==> earlier[i] in earlier;
    }
  }

  predicate SendableAt(bs: seq<Binding>, i: nat) { i < |bs| && Sendable(bs[i].access) }

  /** Of the places with this flag, the first sendable one in the list is the oldest. */
  lemma FirstOfFlag(bs: seq<Binding>, flag: bool, k: nat)
    requires k <= |Places(bs, flag)| && forall j: nat :: j < k ==> !SendableAt(bs, Places(bs, flag)[j])
    ensures k == |Places(bs, flag)| ==> forall i: nat :: SendableAt(bs, i) ==> bs[i].isPrimary != flag
    ensures k < |Places(bs, flag)| ==>
              Places(bs, flag)[k] < |bs| && bs[Places(bs, flag)[k]].isPrimary == flag
              && forall i: nat :: i < Places(bs, flag)[k] && SendableAt(bs, i) ==> bs[i].isPrimary != flag
  {
    var places := Places(bs, flag);
    PlacesMean(bs, flag);
    if k < |places| { assert places[k] in places; }
    forall i: nat | SendableAt(bs, i) && bs[i].isPrimary == flag
      ensures k < |places| && places[k] <= i
    {
      var m: nat :| m < |places| && places[m] == i;
    }
  }

  /** The first sendable binding in that order is the chosen one. */
  lemma FoundInOrder(bs: seq<Binding>, k: nat)
    requires k <= |ByFlagAndAge(bs)| && forall j: nat :: j < k ==> !SendableAt(bs, ByFlagAndAge(bs)[j])
    requires k < |ByFlagAndAge(bs)| ==> SendableAt(bs, ByFlagAndAge(bs)[k])
    ensures Chosen(bs) == if k < |ByFlagAndAge(bs)| then Some(ByFlagAndAge(bs)[k]) else None
  {
    var order, flagged, others := ByFlagAndAge(bs), Places(bs, true), Places(bs, false);
    assert forall j: nat :: j < |flagged| ==> order[j] == flagged[j];
    assert forall j: nat :: j < |others| ==> order[|flagged| + j] == others[j];
    if k < |flagged| {
      FirstOfFlag(bs, true, k);
      FirstIs(bs, (b: Binding) => b.isPrimary && Sendable(b.access), order[k]);
    } else {
      FirstOfFlag(bs, true, |flagged|);
      FirstOfFlag(bs, false, k - |flagged|);
      assert forall i: nat :: i < |bs| ==> SendableAt(bs, i) == Sendable(bs[i].access);
      if k < |order| { FirstIs(bs, (b: Binding) => Sendable(b.access), order[k]); }
    }
  }

  lemma FirstIs(bs: seq<Binding>, test: Binding -> bool, at: nat)
    requires at < |bs| && test(bs[at]) && forall i :: 0 <= i < at ==> !test(bs[i])
    ensures First(bs, test, 0) == Some(at)
  {
  }

  // ---- the steps of reconciling -----------------------------------------------------------------

  /** One binding with its flag set or cleared. */
  function Reflag(bs: seq<Binding>, i: nat, isPrimary: bool): seq<Binding>
    requires i < |bs|
  {
    bs[i := bs[i].(isPrimary := isPrimary)]
  }

  /** Without the flag at these places. */
  function Cleared(bs: seq<Binding>, places: seq<nat>): seq<Binding> {
    seq(|bs|, i requires 0 <= i < |bs| => if i in places then bs[i].(isPrimary := false) else bs[i])
  }

  lemma ClearOne(bs: seq<Binding>, places: seq<nat>, i: nat)
    requires i < |bs|
    ensures Reflag(Cleared(bs, places), i, false) == Cleared(bs, places + [i])
  {
  }

  lemma FlagOff(bs: seq<Binding>, i: nat)
    requires i < |bs|
    ensures Reflag(Flagged(bs, Some(i)), i, false) == Flagged(bs, None)
    ensures Reflag(Flagged(bs, None), i, true) == Flagged(bs, Some(i))
  {
  }

  /** Collapsing leaves the first primary alone. */
  lemma CollapseKeepsFirst(bs: seq<Binding>)
    requires Places(bs, true) != []
    ensures Cleared(bs, Places(bs, true)[1..]) == Flagged(bs, Some(Places(bs, true)[0]))
  {
    var places := Places(bs, true);
    PlacesMean(bs, true);
    assert places[0] in places;
    forall i: nat | i < |bs|
      ensures i in places[1..] <==> bs[i].isPrimary && i != places[0]
    {
      if i in places[1..] {
        var j :| 0 <= j < |places[1..]| && places[1..][j] == i;
        assert places[j + 1] == i && i in places;
      }
      if bs[i].isPrimary && i != places[0] {
        var j :| 0 <= j < |places| && places[j] == i;
        assert places[1..][j - 1] == i;
      }
    }
  }

  lemma PlacesInRange(bs: seq<Binding>)
    ensures forall k :: 0 <= k < |Places(bs, true)| ==> Places(bs, true)[k] < |bs|
  {
    PlacesMean(bs, true);
    assert forall k :: 0 <= k < |Places(bs, true)| ==> Places(bs, true)[k] in Places(bs, true);
  }

  lemma FirstPlaceIfSendable(bs: seq<Binding>)
    requires Places(bs, true) != []
    ensures SendableAt(bs, Places(bs, true)[0]) ==> Chosen(bs) == Some(Places(bs, true)[0])
  {
    if SendableAt(bs, Places(bs, true)[0]) { FoundInOrder(bs, 0); }
  }

  lemma NothingToCollapse(bs: seq<Binding>)
    requires Places(bs, true) == []
    ensures Flagged(bs, None) == bs
  {
    PlacesMean(bs, true);
    forall i: nat | i < |bs|
      ensures !bs[i].isPrimary
    {
      assert i !in Places(bs, true);
    }
  }

  class AgentsService {
    var agents: map<nat, Agent>
    var nextId: nat
    const mailboxes: set<string>

    function State(): Registry
      reads this
    {
      Registry(agents, nextId, mailboxes)
    }

    constructor (mailboxes: set<string>)
      ensures State() == Registry(map[], 0, mailboxes) && AllConsistent(State())
    {
      agents, nextId, this.mailboxes := map[], 0, mailboxes;
    }

    /** Flag one binding row. */
    method SetFlag(id: nat, i: nat, isPrimary: bool)
      requires id in agents && i < |agents[id].bindings|
      modifies this`agents
      ensures var a := old(agents)[id];
              agents == old(agents)[id := a.(bindings := Reflag(a.bindings, i, isPrimary))]
    {
      var a := agents[id];
      agents := agents[id := a.(bindings := a.bindings[i := a.bindings[i].(isPrimary := isPrimary)])];
    }

    method UpsertBinding(id: nat, mailbox: string, access: Access, isPrimary: bool)
      requires id in agents
      modifies this`agents
      ensures var a := old(agents)[id];
              agents == old(agents)[id := a.(bindings := Upsert(a.bindings, mailbox, access, isPrimary))]
    {
      var a := agents[id];
      match Locate(a.bindings, mailbox) {
        case Some(i) =>
          var updated := a.bindings[i].(access := access, isPrimary := isPrimary);
          agents := agents[id := a.(bindings := a.bindings[i := updated])];
        case None =>
          agents := agents[id := a.(bindings := a.bindings + [Binding(mailbox, access, isPrimary)])];
      }
    }

    method SetPrimaryMailbox(id: nat, mailbox: Option<string>)
      requires id in agents
      modifies this`agents
      ensures agents == old(agents)[id := SetPrimary(old(agents)[id], mailbox)]
    {
      var a := agents[id];
      agents := agents[id := a.(bindings := Flagged(a.bindings, None))];
      if mailbox.Some? && mailbox.value != "" {
        var existing := Locate(agents[id].bindings, mailbox.value);
        var access := BOTH;
        if existing.Some? && agents[id].bindings[existing.value].access != READ {
          access := agents[id].bindings[existing.value].access;
        }
        UpsertBinding(id, mailbox.value, access, true);
      }
      agents := agents[id := agents[id].(cache := mailbox)];
    }

    /** Clear the flag of the extra primaries. */
    method CollapseExtras(id: nat, extras: seq<nat>)
      requires id in agents && forall k :: 0 <= k < |extras| ==> extras[k] < |agents[id].bindings|
      modifies this`agents
      ensures var a := old(agents)[id];
              agents == old(agents)[id := a.(bindings := Cleared(a.bindings, extras))]
    {
      ghost var before := agents[id];
      assert Cleared(before.bindings, []) == before.bindings;
      for k := 0 to |extras|
        invariant id in agents
        invariant agents == old(agents)[id := before.(bindings := Cleared(before.bindings, extras[..k]))]
      {
        ClearOne(before.bindings, extras[..k], extras[k]);
        assert extras[..k + 1] == extras[..k] + [extras[k]];
        SetFlag(id, extras[k], false);
      }
      assert extras[..|extras|] == extras;
    }

    /** Leave the first primary only, and return it. */
    method CollapseToFirst(id: nat) returns (primary: Option<nat>)
      requires id in agents
      modifies this`agents
      ensures var a := old(agents)[id];
              && agents == old(agents)[id := a.(bindings := Flagged(a.bindings, primary))]
              && (primary.Some? ==> primary.value < |a.bindings|)
              && (primary.Some? && SendableAt(a.bindings, primary.value) ==> Chosen(a.bindings) == primary)
    {
      var bs := agents[id].bindings;
      var primaries := Places(bs, true);
      if primaries == [] {
        NothingToCollapse(bs);
        return None;
      }
      PlacesInRange(bs);
      CollapseKeepsFirst(bs);
      FirstPlaceIfSendable(bs);
      CollapseExtras(id, primaries[1..]);
      return Some(primaries[0]);
    }

    /** The first sendable binding of the list as it was read. */
    method FindSendable(bs: seq<Binding>) returns (next: Option<nat>)
      ensures next == Chosen(bs)
    {
      var order := ByFlagAndAge(bs);
      for k := 0 to |order|
        invariant forall j: nat :: j < k ==> !SendableAt(bs, order[j])
      {
        if SendableAt(bs, order[k]) {
          FoundInOrder(bs, k);
          return Some(order[k]);
        }
      }
      FoundInOrder(bs, |order|);
      return None;
    }

    /** Collapse extra primaries, demote one that cannot send, promote the first sendable binding
        (former primaries first, then by age), and write the cache. */
    method ReconcilePrimary(id: nat)
      requires id in agents
      modifies this`agents
      ensures agents == old(agents)[id := Reconcile(old(agents)[id])]
    {
      var bs := agents[id].bindings;
      var primary := CollapseToFirst(id);
      if primary.None? || !Sendable(bs[primary.value].access) {
        if primary.Some? {
          FlagOff(bs, primary.value);
          SetFlag(id, primary.value, false);
        }
        primary := FindSendable(bs);
        if primary.Some? {
          FlagOff(bs, primary.value);
          SetFlag(id, primary.value, true);
        }
      }
      var cached := match primary case Some(i) => Some(bs[i].mailbox) case None => None;
      agents := agents[id := agents[id].(cache := cached)];
    }

    method CreateAgent(mailbox: Option<string>) returns (ok: bool)
      modifies this
      ensures State() == Perform(old(State()), Create(mailbox))
      ensures AllConsistent(old(State())) ==> AllConsistent(State())
    {
      if AllConsistent(State()) { PerformKeepsConsistency(State(), Create(mailbox)); }
      if !Known(State(), mailbox) { return false; }
      var id := nextId;
      agents := agents[id := Agent([], None)];
      nextId := nextId + 1;
      if mailbox.Some? && mailbox.value != "" {
        SetPrimaryMailbox(id, mailbox);
      }
      return true;
    }

    method UpdateAgent(id: nat, mailbox: Option<Option<string>>) returns (ok: bool)
      modifies this`agents
      ensures State() == Perform(old(State()), Update(id, mailbox))
      ensures mailbox != Some(Some("")) && AllConsistent(old(State())) ==> AllConsistent(State())
    {
      if AllConsistent(State()) { PerformKeepsConsistency(State(), Update(id, mailbox)); }
      if id !in agents { return false; }
      if mailbox.Some? {
        if !Known(State(), mailbox.value) { return false; }
        SetPrimaryMailbox(id, mailbox.value);
      }
      return true;
    }

    method Grant(id: nat, mailbox: string, access: Access, primary: bool)
      requires id in agents
      modifies this`agents
      ensures agents == old(agents)[id := Bind(old(agents)[id], mailbox, access, primary)]
    {
      if primary {
        UpsertBinding(id, mailbox, if access == READ then BOTH else access, false);
        SetPrimaryMailbox(id, Some(mailbox));
      } else {
        UpsertBinding(id, mailbox, access, false);
      }
      ReconcilePrimary(id);
    }

    method BindMailbox(id: nat, mailbox: string, access: Access, primary: bool) returns (ok: bool)
      modifies this`agents
      ensures State() == Perform(old(State()), BindOp(id, mailbox, access, primary))
      ensures AllConsistent(old(State())) ==> AllConsistent(State())
    {
      if AllConsistent(State()) { PerformKeepsConsistency(State(), BindOp(id, mailbox, access, primary)); }
      if id !in agents || mailbox !in mailboxes { return false; }
      Grant(id, mailbox, access, primary);
      return true;
    }

    method UnbindMailbox(id: nat, mailbox: string) returns (ok: bool)
      modifies this`agents
      ensures State() == Perform(old(State()), UnbindOp(id, mailbox))
      ensures AllConsistent(old(State())) ==> AllConsistent(State())
    {
      if AllConsistent(State()) { PerformKeepsConsistency(State(), UnbindOp(id, mailbox)); }
      if id !in agents { return false; }
      var a := agents[id];
      match Locate(a.bindings, mailbox) {
        case None =>
        case Some(i) =>
          agents := agents[id := a.(bindings := Without(a.bindings, i))];
          ReconcilePrimary(id);
      }
      return true;
    }
  }
}
