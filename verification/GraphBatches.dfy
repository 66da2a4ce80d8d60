/** Moving messages between Microsoft folders, 20 requests to a batch call. */
module GraphBatches {
  import opened Text

  const CHUNK: nat := 20

  /** An HTTP response: its status, and the status of each request if the body can be read. */
  datatype Response = Response(status: int, replies: Option<seq<int>>)

  /** A batch call as it turns out: which messages it moved, and what came back, if anything. */
  datatype Call = Call(moved: set<string>, response: Option<Response>)

  /** The call raises: no response, throttling, or an answer that cannot be read. Other error
      statuses do not raise. */
  predicate Raises(call: Call) {
    || call.response.None?
    || call.response.value.status == 429
    || (call.response.value.status == 200 && call.response.value.replies.None?)
  }

  /** The statuses the loop gets to count. */
  function Counted(call: Call): seq<int> {
    if !Raises(call) && call.response.value.status == 200 then call.response.value.replies.value else []
  }

  predicate Moved(status: int) { status == 200 || status == 201 }

  /** The call reports its request number `j` as moved. */
  predicate Reports(call: Call, j: nat) { j < |Counted(call)| && Moved(Counted(call)[j]) }

  /** The provider's side of the contract: an answered batch reports on its requests, and reports
      "moved" only for messages it moved. A batch that is not answered may have moved anything. */
  ghost predicate Honest(call: Call, batch: seq<string>, folders: map<string, string>) {
    && |Counted(call)| <= |batch|
    && forall j: nat :: Reports(call, j) ==> batch[j] in call.moved && batch[j] in folders
  }

  function CountMoved(replies: seq<int>): nat {
    if replies == [] then 0
    else CountMoved(replies[..|replies| - 1]) + if Moved(replies[|replies| - 1]) then 1 else 0
  }

  function Relocate(folders: map<string, string>, ids: set<string>, folder: string): map<string, string> {
    map id | id in folders :: if id in ids then folder else folders[id]
  }

  function Upto(ids: seq<string>, k: nat): (n: nat)
    ensures n <= |ids|
  {
    if k * CHUNK < |ids| then k * CHUNK else |ids|
  }

  function ChunkOf(ids: seq<string>, k: nat): seq<string> { ids[Upto(ids, k)..Upto(ids, k + 1)] }

  lemma NextChunk(ids: seq<string>, k: nat)
    ensures ids[..Upto(ids, k + 1)] == ids[..Upto(ids, k)] + ChunkOf(ids, k)
  {
  }

  function Members(ids: seq<string>): set<string> { set id | id in ids }

  /** What one call moves of its batch. */
  function Effect(ids: seq<string>, calls: nat -> Call, k: nat): set<string> {
    calls(k).moved * Members(ChunkOf(ids, k))
  }

  /** What the first `k` calls move. */
  function Swept(ids: seq<string>, calls: nat -> Call, k: nat): set<string> {
    set n: nat, id | n < k && id in Effect(ids, calls, n) :: id
  }

  /** The folders after the first `k` batches. */
  function After(folders: map<string, string>, ids: seq<string>, folder: string, calls: nat -> Call, k: nat)
    : map<string, string>
  {
    Relocate(folders, Swept(ids, calls, k), folder)
  }

  lemma RelocateTwice(folders: map<string, string>, a: set<string>, b: set<string>, folder: string)
    ensures Relocate(Relocate(folders, a, folder), b, folder) == Relocate(folders, a + b, folder)
    ensures Relocate(folders, {}, folder) == folders
  {
  }

  lemma AfterStart(folders: map<string, string>, ids: seq<string>, folder: string, calls: nat -> Call,
                   before: seq<string>)
    ensures After(folders, ids, folder, calls, 0) == folders && before == before + ids[..Upto(ids, 0)]
  {
    assert Swept(ids, calls, 0) == {};
    RelocateTwice(folders, {}, {}, folder);
    AppendNothing(before);
  }

  lemma AfterStep(folders: map<string, string>, ids: seq<string>, folder: string, calls: nat -> Call, k: nat)
    ensures After(folders, ids, folder, calls, k + 1) ==
            Relocate(After(folders, ids, folder, calls, k), Effect(ids, calls, k), folder)
  {
    assert Swept(ids, calls, k + 1) == Swept(ids, calls, k) + Effect(ids, calls, k);
    RelocateTwice(folders, Swept(ids, calls, k), Effect(ids, calls, k), folder);
  }

  /** What the first `k` batches count; one that is not answered counts nothing. */
  function Tally(calls: nat -> Call, k: nat): nat {
    if k == 0 then 0 else Tally(calls, k - 1) + CountMoved(Counted(calls(k - 1)))
  }

  predicate LastRaises(calls: nat -> Call, k: nat) { k > 0 && Raises(calls(k - 1)) }

  /** None of the first `k` calls raises. */
  ghost predicate NoneRaises(calls: nat -> Call, k: nat) { forall n: nat :: n < k ==> !Raises(calls(n)) }

  /** `k` calls take the loop to the first that raises, or else through all ids. */
  ghost predicate FirstRaise(ids: seq<string>, calls: nat -> Call, k: nat) {
    && (k > 0 ==> (k - 1) * CHUNK < |ids| && NoneRaises(calls, k - 1))
    && (!LastRaises(calls, k) ==> |ids| <= k * CHUNK)
  }

  lemma OneMoreCall(calls: nat -> Call, k: nat)
    requires NoneRaises(calls, k) && !Raises(calls(k))
    ensures NoneRaises(calls, k + 1)
  {
  }

  /** The loop ends by a raise exactly when some call for the ids raises. */
  lemma SomeRaisesIff(ids: seq<string>, calls: nat -> Call, k: nat)
    requires FirstRaise(ids, calls, k)
    ensures LastRaises(calls, k) <==> exists n: nat :: n * CHUNK < |ids| && Raises(calls(n))
  {
    if LastRaises(calls, k) {
      assert (k - 1) * CHUNK < |ids| && Raises(calls(k - 1));
    } else if k > 0 {
      OneMoreCall(calls, k - 1);
    }
  }

  class Graph {
    /** The folder each message is in, and every request made, in order. */
    var folders: map<string, string>
    var requested: seq<string>

    constructor (initial: map<string, string>)
      ensures folders == initial && requested == []
    {
      folders, requested := initial, [];
    }

    /** Post one batch. None: an exception, after which the messages may have moved all the same. */
    method PostBatch(batch: seq<string>, folder: string, call: Call) returns (response: Option<Response>)
      modifies this
      ensures folders == Relocate(old(folders), call.moved * Members(batch), folder)
      ensures requested == old(requested) + batch
      ensures response == if call.response.Some? && call.response.value.status != 429 then call.response else None
    {
      folders := Relocate(folders, call.moved * Members(batch), folder);
      requested := requested + batch;
      response := call.response;
      if response.Some? && response.value.status == 429 { response := None; }
    }

    /** The loop's next batch, after `chunk` batches from the state `from` and `before`. */
    method PostChunk(ids: seq<string>, folder: string, calls: nat -> Call, chunk: nat,
                     ghost from: map<string, string>, ghost before: seq<string>)
      returns (response: Option<Response>)
      requires folders == After(from, ids, folder, calls, chunk) && requested == before + ids[..Upto(ids, chunk)]
      modifies this
      ensures folders == After(from, ids, folder, calls, chunk + 1)
      ensures requested == before + ids[..Upto(ids, chunk + 1)]
      ensures response.None? || (response.value.status == 200 && response.value.replies.None?) <==> Raises(calls(chunk))
      ensures response.Some? ==> response == calls(chunk).response
    {
      NextChunk(ids, chunk);
      AfterStep(from, ids, folder, calls, chunk);
      Regroup(before, ids[..Upto(ids, chunk)], ChunkOf(ids, chunk));
      response := PostBatch(ChunkOf(ids, chunk), folder, calls(chunk));
    }

    /** The loop ends with a count when no call raises. A raising call ends it with an exception: the
        messages after that batch are never requested, and what was moved is reported to nobody.
        `k` is the number of calls made. */
    method MoveBatches(ids: seq<string>, folder: string, calls: nat -> Call) returns (moved: Option<nat>, ghost k: nat)
      modifies this
      ensures moved == if LastRaises(calls, k) then None else Some(Tally(calls, k))
      ensures FirstRaise(ids, calls, k)
      ensures requested == old(requested) + ids[..Upto(ids, k)]
      ensures folders == After(old(folders), ids, folder, calls, k)
    {
      var count, chunk := 0, 0;
      k := 0;
      AfterStart(folders, ids, folder, calls, requested);
      while chunk * CHUNK < |ids|
        invariant requested == old(requested) + ids[..Upto(ids, chunk)]
        invariant folders == After(old(folders), ids, folder, calls, chunk)
        invariant count == Tally(calls, chunk)
        invariant NoneRaises(calls, chunk) && (chunk > 0 ==> (chunk - 1) * CHUNK < |ids|)
        decreases |ids| - chunk * CHUNK
      {
        k := chunk + 1;
        var response := PostChunk(ids, folder, calls, chunk, old(folders), old(requested));
        if response.None? || (response.value.status == 200 && response.value.replies.None?) { return None, k; }
        if response.value.status == 200 {
          count := count + CountMoved(response.value.replies.value);
        }
        OneMoreCall(calls, chunk);
        chunk := chunk + 1;
      }
      return Some(count), chunk;
    }

    /** Look the folder up, then move the batches; an exception in either leaves no count. */
    method BatchMoveToFolder(ids: seq<string>, lookup: Option<string>, calls: nat -> Call)
      returns (moved: Option<nat>, ghost k: nat)
      modifies this
      ensures moved.None? <==> lookup.None? || exists n: nat :: n * CHUNK < |ids| && Raises(calls(n))
      ensures moved.Some? ==> moved.value == Tally(calls, k) && Upto(ids, k) == |ids|
      ensures lookup.None? ==> k == 0
      ensures lookup.Some? ==> FirstRaise(ids, calls, k)
      ensures requested == old(requested) + ids[..Upto(ids, k)]
      ensures folders == if lookup.None? then old(folders) else After(old(folders), ids, lookup.value, calls, k)
    {
      if lookup.None? {
        AppendNothing(requested);
        return None, 0;
      }
      moved, k := MoveBatches(ids, lookup.value, calls);
      SomeRaisesIff(ids, calls, k);
    }
  }

  /** A request counts as moved exactly when its batch was answered as a whole with 200 and it itself with
      200 or 201. */
  lemma ReportsIff(call: Call, j: nat)
    ensures Reports(call, j) <==>
            && call.response.Some? && call.response.value.status == 200 && call.response.value.replies.Some?
            && j < |call.response.value.replies.value| && call.response.value.replies.value[j] in {200, 201}
  {
  }

  // ---- what the count says -----------------------------------------------------------------------

  ghost predicate AllHonest(folders: map<string, string>, ids: seq<string>, calls: nat -> Call, k: nat) {
    forall n: nat :: n < k ==> Honest(calls(n), ChunkOf(ids, n), folders)
  }

  /** The loop only moves requested messages, and only to the folder. */
  lemma OnlyRequestedMove(folders: map<string, string>, ids: seq<string>, folder: string, calls: nat -> Call, k: nat)
    ensures var after := After(folders, ids, folder, calls, k);
            && after.Keys == folders.Keys
            && forall id :: id in folders ==> after[id] == folders[id] || (id in ids && after[id] == folder)
  {
    forall id | id in Swept(ids, calls, k)
      ensures id in ids
    {
      var n: nat :| n < k && id in Effect(ids, calls, n);
      InChunk(ids, n, id);
    }
  }

  lemma InChunk(ids: seq<string>, n: nat, id: string)
    requires id in ChunkOf(ids, n)
    ensures id in ids
  {
  }

  /** The messages that are in the folder. */
  function In(folders: map<string, string>, folder: string): set<string> {
    set id | id in folders && folders[id] == folder
  }

  /** How many of the requests name a message of the set. */
  function CountIn(ids: seq<string>, good: set<string>): nat {
    if ids == [] then 0 else CountIn(ids[..|ids| - 1], good) + if ids[|ids| - 1] in good then 1 else 0
  }

  lemma {:induction false} CountInAppend(a: seq<string>, b: seq<string>, good: set<string>)
    ensures CountIn(a + b, good) == CountIn(a, good) + CountIn(b, good)
  {
    if b == [] {
      AppendNothing(a);
    } else {
      var n := |b| - 1;
      CountInAppend(a, b[..n], good);
      assert (a + b)[..|a + b| - 1] == a + b[..n];
    }
  }

  /** Nothing of the batch is in the set without the call having reported it. */
  ghost predicate Exact(call: Call, batch: seq<string>, good: set<string>) {
    forall j: nat :: j < |batch| && batch[j] in good ==> Reports(call, j)
  }

  ghost predicate ReportsOnly(replies: seq<int>, batch: seq<string>, good: set<string>) {
    |replies| <= |batch| && forall j: nat :: j < |replies| && Moved(replies[j]) ==> batch[j] in good
  }

  ghost predicate ReportsAll(replies: seq<int>, batch: seq<string>, good: set<string>) {
    forall j: nat :: j < |batch| && batch[j] in good ==> j < |replies| && Moved(replies[j])
  }

  /** Reports of true moves count no more than what was moved, and as much only if all was reported. */
  lemma {:induction false} CountCompares(replies: seq<int>, batch: seq<string>, good: set<string>)
    requires ReportsOnly(replies, batch, good)
    ensures CountMoved(replies) <= CountIn(batch, good)
    ensures CountMoved(replies) == CountIn(batch, good) <==> ReportsAll(replies, batch, good)
    decreases |batch|
  {
    if batch != [] {
      var n := |batch| - 1;
      var front := if |replies| <= n then replies else replies[..n];
      CountCompares(front, batch[..n], good);
      LastReport(replies, batch, good, front);
    }
  }

  lemma LastReport(replies: seq<int>, batch: seq<string>, good: set<string>, front: seq<int>)
    requires batch != [] && ReportsOnly(replies, batch, good)
    requires front == if |replies| < |batch| then replies else replies[..|batch| - 1]
    ensures var n := |batch| - 1;
            ReportsAll(replies, batch, good) <==>
            ReportsAll(front, batch[..n], good) && (batch[n] in good ==> n < |replies| && Moved(replies[n]))
  {
    var n := |batch| - 1;
    if ReportsAll(front, batch[..n], good) && (batch[n] in good ==> n < |replies| && Moved(replies[n])) {
      forall j: nat | j < |batch| && batch[j] in good
        ensures j < |replies| && Moved(replies[j])
      {
        if j < n { assert batch[..n][j] == batch[j]; }
      }
    }
  }

  lemma CallCompares(call: Call, batch: seq<string>, folders: map<string, string>, good: set<string>)
    requires Honest(call, batch, folders)
    requires forall id :: id in call.moved * Members(batch) && id in folders ==> id in good
    ensures CountMoved(Counted(call)) <= CountIn(batch, good)
    ensures CountMoved(Counted(call)) == CountIn(batch, good) <==> Exact(call, batch, good)
  {
    forall j: nat | j < |Counted(call)| && Moved(Counted(call)[j])
      ensures batch[j] in good
    {
      assert Reports(call, j);
    }
    CountCompares(Counted(call), batch, good);
    assert ReportsAll(Counted(call), batch, good) <==> Exact(call, batch, good);
  }

  /** Every call's batch is exact, one after the other. */
  ghost predicate AllExact(ids: seq<string>, calls: nat -> Call, k: nat, good: set<string>) {
    k > 0 ==> AllExact(ids, calls, k - 1, good) && Exact(calls(k - 1), ChunkOf(ids, k - 1), good)
  }

  ghost predicate EachExact(ids: seq<string>, calls: nat -> Call, k: nat, good: set<string>) {
    forall n: nat :: n < k ==> Exact(calls(n), ChunkOf(ids, n), good)
  }

  lemma EachExactStep(ids: seq<string>, calls: nat -> Call, k: nat, good: set<string>)
    ensures EachExact(ids, calls, k + 1, good) <==>
            EachExact(ids, calls, k, good) && Exact(calls(k), ChunkOf(ids, k), good)
  {
  }

  lemma {:induction false} AllExactMeans(ids: seq<string>, calls: nat -> Call, k: nat, good: set<string>)
    ensures AllExact(ids, calls, k, good) <==> EachExact(ids, calls, k, good)
  {
    if k > 0 {
      AllExactMeans(ids, calls, k - 1, good);
      EachExactStep(ids, calls, k - 1, good);
    }
  }

  /** The same count batch by batch. */
  function CountBatches(ids: seq<string>, k: nat, good: set<string>): nat {
    if k == 0 then 0 else CountBatches(ids, k - 1, good) + CountIn(ChunkOf(ids, k - 1), good)
  }

  lemma {:induction false} CountByBatch(ids: seq<string>, k: nat, good: set<string>)
    ensures CountBatches(ids, k, good) == CountIn(ids[..Upto(ids, k)], good)
  {
    if k > 0 {
      CountByBatch(ids, k - 1, good);
      NextChunk(ids, k - 1);
      CountInAppend(ids[..Upto(ids, k - 1)], ChunkOf(ids, k - 1), good);
    }
  }

  lemma BatchCompares(folders: map<string, string>, ids: seq<string>, calls: nat -> Call, n: nat, k: nat,
                      good: set<string>)
    requires n < k && Honest(calls(n), ChunkOf(ids, n), folders)
    requires forall id :: id in Swept(ids, calls, k) && id in folders ==> id in good
    ensures CountMoved(Counted(calls(n))) <= CountIn(ChunkOf(ids, n), good)
    ensures CountMoved(Counted(calls(n))) == CountIn(ChunkOf(ids, n), good) <==> Exact(calls(n), ChunkOf(ids, n), good)
  {
    assert forall id :: id in Effect(ids, calls, n) ==> id in Swept(ids, calls, k);
    CallCompares(calls(n), ChunkOf(ids, n), folders, good);
  }

  /** The tally is at most the messages counted, and equal exactly when every batch is exact. */
  ghost predicate Compares(ids: seq<string>, calls: nat -> Call, n: nat, good: set<string>) {
    && Tally(calls, n) <= CountBatches(ids, n, good)
    && (Tally(calls, n) == CountBatches(ids, n, good) <==> AllExact(ids, calls, n, good))
  }

  lemma OneMoreCompares(ids: seq<string>, calls: nat -> Call, n: nat, good: set<string>)
    requires Compares(ids, calls, n, good)
    requires CountMoved(Counted(calls(n))) <= CountIn(ChunkOf(ids, n), good)
    requires CountMoved(Counted(calls(n))) == CountIn(ChunkOf(ids, n), good) <==>
             Exact(calls(n), ChunkOf(ids, n), good)
    ensures Compares(ids, calls, n + 1, good)
  {
  }

  lemma {:induction false} TallyCompares(folders: map<string, string>, ids: seq<string>, calls: nat -> Call, n: nat,
                                         k: nat, good: set<string>)
    requires n <= k && AllHonest(folders, ids, calls, k)
    requires forall id :: id in Swept(ids, calls, k) && id in folders ==> id in good
    ensures Compares(ids, calls, n, good)
  {
    if n > 0 {
      TallyCompares(folders, ids, calls, n - 1, k, good);
      assert Honest(calls(n - 1), ChunkOf(ids, n - 1), folders);
      BatchCompares(folders, ids, calls, n - 1, k, good);
      OneMoreCompares(ids, calls, n - 1, good);
    }
  }

  /** The count is at most the number of requested messages that are now in the folder, and equals it
      exactly when every one of them was reported by its call. */
  lemma {:induction false} CountIsALowerBound(folders: map<string, string>, ids: seq<string>, folder: string,
                                              calls: nat -> Call, k: nat)
    requires AllHonest(folders, ids, calls, k)
    ensures var good := In(After(folders, ids, folder, calls, k), folder);
            && Tally(calls, k) <= CountIn(ids[..Upto(ids, k)], good)
            && (Tally(calls, k) == CountIn(ids[..Upto(ids, k)], good) <==> EachExact(ids, calls, k, good))
  {
    var good := In(After(folders, ids, folder, calls, k), folder);
    TallyCompares(folders, ids, calls, k, k, good);
    CountByBatch(ids, k, good);
    AllExactMeans(ids, calls, k, good);
  }

  // ---- distinct messages that start elsewhere ----------------------------------------------------

  ghost predicate Distinct(ids: seq<string>) { forall i, j :: 0 <= i < j < |ids| ==> ids[i] != ids[j] }

  ghost predicate StartElsewhere(folders: map<string, string>, ids: seq<string>, folder: string) {
    forall id :: id in ids ==> id in folders && folders[id] != folder
  }

  lemma ChunksShareNothing(ids: seq<string>, n: nat, m: nat, id: string)
    requires Distinct(ids) && id in ChunkOf(ids, n) && id in ChunkOf(ids, m)
    ensures n == m
  {
    var i :| 0 <= i < |ChunkOf(ids, n)| && ChunkOf(ids, n)[i] == id;
    var j :| 0 <= j < |ChunkOf(ids, m)| && ChunkOf(ids, m)[j] == id;
    assert ids[Upto(ids, n) + i] == id && ids[Upto(ids, m) + j] == id;
  }

  /** Only its own call can move a message. */
  lemma OwnEffect(ids: seq<string>, calls: nat -> Call, k: nat, n: nat, id: string)
    requires Distinct(ids) && id in ChunkOf(ids, n)
    ensures id in Effect(ids, calls, k) <==> k == n && id in calls(n).moved
  {
    if id in ChunkOf(ids, k) { ChunksShareNothing(ids, n, k, id); }
  }

  lemma InOnlyByOwnCall(folders: map<string, string>, ids: seq<string>, folder: string,
                        calls: nat -> Call, k: nat, n: nat, id: string)
    requires Distinct(ids) && StartElsewhere(folders, ids, folder) && id in ChunkOf(ids, n)
    ensures id in In(After(folders, ids, folder, calls, k), folder) <==> n < k && id in calls(n).moved
  {
    InChunk(ids, n, id);
    forall m: nat
      ensures id in Effect(ids, calls, m) <==> m == n && id in calls(n).moved
    {
      OwnEffect(ids, calls, m, n, id);
    }
    assert id in Swept(ids, calls, k) <==> n < k && id in Effect(ids, calls, n);
  }

  /** The call moved exactly what it reported; an unanswered call, nothing. */
  ghost predicate ReportsWhatItMoved(call: Call, batch: seq<string>) {
    forall j: nat :: j < |batch| ==> (batch[j] in call.moved <==> Reports(call, j))
  }

  /** For distinct messages that start in other folders the count is exact if and only if every call
      moved exactly what it reported. */
  lemma {:induction false} CountIsExactIff(folders: map<string, string>, ids: seq<string>, folder: string,
                                           calls: nat -> Call, k: nat)
    requires AllHonest(folders, ids, calls, k) && Distinct(ids) && StartElsewhere(folders, ids, folder)
    ensures Tally(calls, k) == CountIn(ids[..Upto(ids, k)], In(After(folders, ids, folder, calls, k), folder)) <==>
            forall n: nat :: n < k ==> ReportsWhatItMoved(calls(n), ChunkOf(ids, n))
  {
    CountIsALowerBound(folders, ids, folder, calls, k);
    var good := In(After(folders, ids, folder, calls, k), folder);
    forall n: nat | n < k
      ensures Exact(calls(n), ChunkOf(ids, n), good) <==> ReportsWhatItMoved(calls(n), ChunkOf(ids, n))
    {
      ExactMeans(folders, ids, folder, calls, k, n);
    }
  }

  lemma ExactMeans(folders: map<string, string>, ids: seq<string>, folder: string, calls: nat -> Call, k: nat, n: nat)
    requires AllHonest(folders, ids, calls, k) && Distinct(ids) && StartElsewhere(folders, ids, folder) && n < k
    ensures Exact(calls(n), ChunkOf(ids, n), In(After(folders, ids, folder, calls, k), folder)) <==>
            ReportsWhatItMoved(calls(n), ChunkOf(ids, n))
  {
    var batch, good := ChunkOf(ids, n), In(After(folders, ids, folder, calls, k), folder);
    assert Honest(calls(n), batch, folders);
    forall j: nat | j < |batch|
      ensures batch[j] in good <==> batch[j] in calls(n).moved
    {
      InOnlyByOwnCall(folders, ids, folder, calls, k, n, batch[j]);
    }
  }

  // ---- a full count ------------------------------------------------------------------------------

  lemma {:induction false} CountInBounded(ids: seq<string>, good: set<string>)
    ensures CountIn(ids, good) <= |ids|
    ensures CountIn(ids, good) == |ids| ==> forall id :: id in ids ==> id in good
  {
    if ids != [] {
      var n := |ids| - 1;
      assert ids == ids[..n] + [ids[n]];
      CountInBounded(ids[..n], good);
    }
  }

  /** The count never exceeds the requests made, and if it reaches them every one of those messages is
      in the folder. */
  lemma FullTallyMeansAllMoved(folders: map<string, string>, ids: seq<string>, folder: string,
                               calls: nat -> Call, k: nat)
    requires AllHonest(folders, ids, calls, k)
    ensures Tally(calls, k) <= Upto(ids, k)
    ensures Tally(calls, k) == Upto(ids, k) ==>
              forall id :: id in ids[..Upto(ids, k)] ==> id in In(After(folders, ids, folder, calls, k), folder)
  {
    CountIsALowerBound(folders, ids, folder, calls, k);
    CountInBounded(ids[..Upto(ids, k)], In(After(folders, ids, folder, calls, k), folder));
  }

  /** The bound can be strict without any exception: a batch that is carried out and then answered
      with a gateway error is not counted, and the loop goes on. */
  lemma UnansweredMovesAreNotCounted(folder: string)
    ensures var calls := (n: nat) => Call({"m"}, Some(Response(503, None)));
            && !Raises(calls(0)) && AllHonest(map["m" := "inbox"], ["m"], calls, 1) && Tally(calls, 1) == 0
            && After(map["m" := "inbox"], ["m"], folder, calls, 1) == map["m" := folder]
  {
    var calls := (n: nat) => Call({"m"}, Some(Response(503, None)));
    assert ChunkOf(["m"], 0) == ["m"];
    AfterStart(map["m" := "inbox"], ["m"], folder, calls, []);
    AfterStep(map["m" := "inbox"], ["m"], folder, calls, 0);
  }
}
