/**
 * The queue provider: the calls table as an append-only log, the issuers `callNext` and
 * `callSpecificNumber`, and the three feeds (initial load, poll, realtime change events)
 * that write the provider's `lastCall` / `lastCallRef` snapshot.
 */
module QueueContext {
  import opened Wrappers
  import opened Allocator

  /**
   * One row of the calls table: a ticket number announced at a counter. `createdAt` is the
   * issuing browser's clock reading (milliseconds), which the table orders by.
   */
  datatype Call = Call(
    id: int,
    number: int,
    counterId: int,
    counterName: string,
    organizationId: string,
    createdAt: int)

  /** The counter the operator has selected. */
  datatype Counter = Counter(id: int, name: string, organizationId: string)

  datatype Organization = Organization(id: string)

  /** The row an issuer asks the store to insert; the store assigns the id. */
  datatype NewCall = NewCall(
    number: int,
    counterId: int,
    counterName: string,
    organizationId: string,
    createdAt: int)

  function Stored(draft: NewCall, id: int): Call
  {
    Call(id, draft.number, draft.counterId, draft.counterName, draft.organizationId, draft.createdAt)
  }

  /** What an issuer reports to the operator instead of rejecting. */
  datatype Error =
    | NoCounterSelected
    | InvalidNumber
    | NumberExceedsLimit(maxCount: int)
    | StoreReadFailure
    | StoreWriteFailure

  datatype Outcome = Called(call: Call) | Failed(error: Error)

  /** The decision an issuer takes before it writes. */
  datatype Plan = Write(draft: NewCall) | Reject(error: Error)

  /** The `{ data, error }` answer of a single-row select; the error is given by its code. */
  datatype Reply = Reply(data: Option<Call>, errorCode: Option<string>)

  /** The error code of a single-row select that found no row. */
  const NoRowsCode := "PGRST116"

  /** The answer of the `max_count` read of the organisation row. */
  datatype OrgReply = OrgRow(maxCount: Option<int>) | OrgFailed

  /** A realtime change notification on the calls table. */
  datatype ChangeEvent = Inserted(row: Call) | Updated(row: Call) | Deleted

  // ---------------------------------------------------------------------------
  // The calls table

  /**
   * The organisation's latest row, as `order('created_at', desc).limit(1)` finds it: no row
   * of the organisation has a later clock. Rows with equal clocks are not ordered by the
   * table; the model then takes the one appended last.
   */
  function LatestFor(rows: seq<Call>, orgId: string): (r: Option<Call>)
    ensures r.None? <==> forall i :: 0 <= i < |rows| ==> rows[i].organizationId != orgId
    ensures r.Some? ==> r.value.organizationId == orgId
    ensures r.Some? ==>
      forall i :: 0 <= i < |rows| && rows[i].organizationId == orgId ==> rows[i].createdAt <= r.value.createdAt
    decreases |rows|
  {
    if rows == [] then None
    else
      var prefix := rows[..|rows| - 1];
      assert forall i :: 0 <= i < |prefix| ==> prefix[i] == rows[i];
      var latest := LatestFor(prefix, orgId);
      var last := rows[|rows| - 1];
      if last.organizationId != orgId then latest
      else if latest.None? || latest.value.createdAt <= last.createdAt then Some(last)
      else latest
  }

  /** The latest row is one of the table's rows. */
  lemma {:induction false} LatestIsARow(rows: seq<Call>, orgId: string)
    ensures LatestFor(rows, orgId).Some? ==> LatestFor(rows, orgId).value in rows
    decreases |rows|
  {
    if rows != [] {
      var prefix := rows[..|rows| - 1];
      LatestIsARow(prefix, orgId);
      assert rows == prefix + [rows[|rows| - 1]];
    }
  }

  /**
   * A new row becomes its organisation's latest unless a row of that organisation has a later
   * clock, and it leaves every other organisation's latest as it was.
   */
  lemma LatestAfterInsert(rows: seq<Call>, c: Call, orgId: string)
    ensures orgId != c.organizationId ==> LatestFor(rows + [c], orgId) == LatestFor(rows, orgId)
    ensures orgId == c.organizationId
      && (forall i :: 0 <= i < |rows| && rows[i].organizationId == orgId ==> rows[i].createdAt <= c.createdAt)
      ==> LatestFor(rows + [c], orgId) == Some(c)
    ensures orgId == c.organizationId
      && (exists i :: 0 <= i < |rows| && rows[i].organizationId == orgId && rows[i].createdAt > c.createdAt)
      ==> LatestFor(rows + [c], orgId) == LatestFor(rows, orgId)
  {
    assert (rows + [c])[..|rows|] == rows;
    LatestIsARow(rows, orgId);
  }

  /** The calls table: rows are only ever appended, ids are assigned in increasing order. */
  class CallStore {
    var rows: seq<Call>
    var nextId: int

    ghost predicate Valid()
      reads this
    {
      && (forall i :: 0 <= i < |rows| ==> rows[i].id < nextId)
      && (forall i, j :: 0 <= i < j < |rows| ==> rows[i].id < rows[j].id)
    }

    constructor ()
      ensures Valid() && rows == [] && nextId == 1
    {
      rows := [];
      nextId := 1;
    }

    /** Inserts one row, or nothing when the store reports an error. */
    method Insert(draft: NewCall, fails: bool) returns (r: Option<Call>)
      requires Valid()
      modifies this
      ensures Valid()
      ensures fails ==> r == None && rows == old(rows) && nextId == old(nextId)
      ensures !fails ==> r == Some(Stored(draft, old(nextId))) && rows == old(rows) + [r.value]
      ensures !fails ==> forall i :: 0 <= i < |old(rows)| ==> old(rows)[i].id < r.value.id
    {
      if fails {
        return None;
      }
      var c := Stored(draft, nextId);
      rows := rows + [c];
      nextId := nextId + 1;
      r := Some(c);
    }
  }

  // ---------------------------------------------------------------------------
  // The issuers' decisions

  /** The number the last-call read yields; a failed read yields no data, as no rows do. */
  function LastNumberRead(rows: seq<Call>, organization: Option<Organization>, readFails: bool): (n: Option<int>)
    ensures readFails || organization.None? ==> n == None
    ensures !readFails && organization.Some? ==>
      (n.None? <==> LatestFor(rows, organization.value.id).None?)
    ensures n.Some? ==> n == Some(LatestFor(rows, organization.value.id).value.number)
  {
    if readFails || organization.None? then None
    else
      match LatestFor(rows, organization.value.id)
      case Some(c) => Some(c.number)
      case None => None
  }

  /** What `callNext` decides once both reads are back. */
  function PlanNext(organization: Option<Organization>, counter: Option<Counter>,
                    lastNumber: Option<int>, orgReply: OrgReply, now: int): (p: Plan)
    ensures organization.None? || counter.None? ==> p == Reject(NoCounterSelected)
    ensures organization.Some? && counter.Some? && orgReply.OrgFailed? ==> p == Reject(StoreReadFailure)
    ensures p.Reject? <==> organization.None? || counter.None? || orgReply.OrgFailed?
    ensures p.Write? ==>
      && p.draft.number == NextNumber(lastNumber, EffectiveMaxCount(orgReply.maxCount))
      && p.draft.counterId == counter.value.id
      && p.draft.counterName == counter.value.name
      && p.draft.organizationId == organization.value.id
      && p.draft.createdAt == now
  {
    if organization.None? || counter.None? then Reject(NoCounterSelected)
    else if orgReply.OrgFailed? then Reject(StoreReadFailure)
    else
      var n := NextNumber(lastNumber, EffectiveMaxCount(orgReply.maxCount));
      Write(NewCall(n, counter.value.id, counter.value.name, organization.value.id, now))
  }

  /** What `callSpecificNumber(n)` decides; it never looks at the last issued number. */
  function PlanSpecific(organization: Option<Organization>, counter: Option<Counter>,
                        n: int, orgReply: OrgReply, now: int): (p: Plan)
    ensures organization.None? || counter.None? ==> p == Reject(NoCounterSelected)
    ensures organization.Some? && counter.Some? && n <= 0 ==> p == Reject(InvalidNumber)
    ensures organization.Some? && counter.Some? && n > 0 && orgReply.OrgFailed? ==> p == Reject(StoreReadFailure)
    ensures p.Write? <==>
      && organization.Some? && counter.Some? && n > 0 && orgReply.OrgRow?
      && n <= EffectiveMaxCount(orgReply.maxCount)
    ensures p.Reject? && p.error.NumberExceedsLimit? <==>
      && organization.Some? && counter.Some? && n > 0 && orgReply.OrgRow?
      && n > EffectiveMaxCount(orgReply.maxCount)
    ensures p.Reject? && p.error.NumberExceedsLimit? ==>
      p.error.maxCount == EffectiveMaxCount(orgReply.maxCount)
    ensures p.Write? ==>
      && p.draft == NewCall(n, counter.value.id, counter.value.name, organization.value.id, now)
  {
    if organization.None? || counter.None? then Reject(NoCounterSelected)
    else if n <= 0 then Reject(InvalidNumber)
    else if orgReply.OrgFailed? then Reject(StoreReadFailure)
    else
      var maxCount := EffectiveMaxCount(orgReply.maxCount);
      if n > maxCount then Reject(NumberExceedsLimit(maxCount))
      else Write(NewCall(n, counter.value.id, counter.value.name, organization.value.id, now))
  }

  /** A last-call read that fails is not checked: `callNext` then restarts the sequence at 1. */
  lemma ReadFailureRestartsAtOne(rows: seq<Call>, organization: Option<Organization>,
                                 counter: Option<Counter>, orgReply: OrgReply, now: int)
    requires PlanNext(organization, counter, LastNumberRead(rows, organization, true), orgReply, now).Write?
    ensures PlanNext(organization, counter, LastNumberRead(rows, organization, true), orgReply, now).draft.number == 1
  {
  }

  /**
   * `callSpecificNumber` does not advance a cursor of its own, but the row it writes becomes
   * the organisation's latest (when the clock has not gone back), so the following `callNext`
   * continues from `n + 1`.
   */
  lemma NextAfterSpecific(rows: seq<Call>, organization: Organization, counter: Counter,
                          n: int, orgReply: OrgReply, now: int, id: int)
    requires PlanSpecific(Some(organization), Some(counter), n, orgReply, now).Write?
    requires forall i :: 0 <= i < |rows| && rows[i].organizationId == organization.id ==> rows[i].createdAt <= now
    ensures var c := Stored(PlanSpecific(Some(organization), Some(counter), n, orgReply, now).draft, id);
      LastNumberRead(rows + [c], Some(organization), false) == Some(n)
  {
    var c := Stored(PlanSpecific(Some(organization), Some(counter), n, orgReply, now).draft, id);
    LatestAfterInsert(rows, c, organization.id);
  }

  /**
   * Two `callNext` calls whose reads both come back before either insert (the source awaits
   * between them) compute the same number, whichever counters issue them.
   */
  lemma InterleavedCallsRepeatNumber(rows: seq<Call>, organization: Organization,
                                     first: Counter, second: Counter, orgReply: OrgReply, t1: int, t2: int)
    requires orgReply.OrgRow?
    ensures var p1 := PlanNext(Some(organization), Some(first), LastNumberRead(rows, Some(organization), false), orgReply, t1);
            var p2 := PlanNext(Some(organization), Some(second), LastNumberRead(rows, Some(organization), false), orgReply, t2);
      p1.Write? && p2.Write? && p1.draft.number == p2.draft.number
  {
  }

  /** `callSpecificNumber(150)` with a maximum of 99 is refused with the limit in the message. */
  lemma SpecificAboveLimit(organization: Organization, counter: Counter, now: int)
    ensures PlanSpecific(Some(organization), Some(counter), 150, OrgRow(Some(99)), now)
         == Reject(NumberExceedsLimit(99))
  {
  }

  // ---------------------------------------------------------------------------
  // The merge rule of the feeds

  /** A poll or event candidate is applied iff no call is held or its id differs from the held one. */
  predicate Accepts(held: Option<Call>, candidate: Call) {
    held.None? || candidate.id != held.value.id
  }

  function Merge(held: Option<Call>, candidate: Call): (r: Option<Call>)
    ensures r.Some? && r.value.id == candidate.id
    ensures Accepts(held, candidate) ==> r == Some(candidate)
    ensures !Accepts(held, candidate) ==> r == held
  {
    if Accepts(held, candidate) then Some(candidate) else held
  }

  /** An error other than "no rows" aborts the handler. */
  predicate HardError(reply: Reply) {
    reply.errorCode.Some? && reply.errorCode.value != NoRowsCode
  }

  /** `loadInitialState`: any data that comes back is taken, without an id check. */
  function AfterInitialLoad(held: Option<Call>, reply: Reply): (r: Option<Call>)
    ensures HardError(reply) || reply.data.None? ==> r == held
    ensures !HardError(reply) && reply.data.Some? ==> r == reply.data
  {
    if HardError(reply) then held
    else if reply.data.Some? then reply.data
    else held
  }

  /** The 2-second poll tick: data is merged by identity; errors leave the snapshot alone. */
  function AfterPoll(held: Option<Call>, reply: Reply): (r: Option<Call>)
    ensures HardError(reply) || reply.data.None? ==> r == held
    ensures !HardError(reply) && reply.data.Some? ==> r == Merge(held, reply.data.value)
  {
    if HardError(reply) then held
    else if reply.data.Some? then Merge(held, reply.data.value)
    else held
  }

  /** The realtime handler: INSERT and UPDATE payloads are merged by identity, DELETE is ignored. */
  function AfterEvent(held: Option<Call>, event: ChangeEvent): (r: Option<Call>)
    ensures event.Deleted? ==> r == held
    ensures !event.Deleted? ==> r == Merge(held, event.row)
  {
    match event
    case Inserted(c) => Merge(held, c)
    case Updated(c) => Merge(held, c)
    case Deleted => held
  }

  /** Delivering the same call a second time, by either feed, changes nothing. */
  lemma MergeIdempotent(held: Option<Call>, c: Call)
    ensures Merge(Merge(held, c), c) == Merge(held, c)
    ensures AfterPoll(AfterEvent(held, Inserted(c)), Reply(Some(c), None)) == AfterEvent(held, Inserted(c))
    ensures AfterEvent(AfterPoll(held, Reply(Some(c), None)), Inserted(c)) == AfterPoll(held, Reply(Some(c), None))
  {
  }

  /** An UPDATE of the held call is ignored, even when its contents changed. */
  lemma UpdateOfHeldIgnored(held: Call, updated: Call)
    requires updated.id == held.id
    ensures AfterEvent(Some(held), Updated(updated)) == Some(held)
  {
  }

  /** A poll whose error is not "no rows" leaves the snapshot unchanged, whatever data came with it. */
  lemma PollErrorIgnored(held: Option<Call>, data: Option<Call>, code: string)
    requires code != NoRowsCode
    ensures AfterPoll(held, Reply(data, Some(code))) == held
  {
  }

  /**
   * The rule checks identity only: a stale candidate with another id replaces a newer
   * snapshot, so the snapshot can move backwards (call 6 held, call 5 delivered late).
   */
  lemma StaleCandidateReplaces(newer: Call, stale: Call)
    requires newer.id == 6 && stale.id == 5
    ensures AfterPoll(Some(newer), Reply(Some(stale), None)) == Some(stale)
    ensures AfterEvent(Some(newer), Inserted(stale)) == Some(stale)
  {
  }

  /** The snapshot after a series of poll or event deliveries. */
  function DeliverAll(held: Option<Call>, candidates: seq<Call>): (r: Option<Call>)
    ensures candidates != [] ==> r.Some? && r.value.id == candidates[|candidates| - 1].id
    decreases |candidates|
  {
    if candidates == [] then held
    else Merge(DeliverAll(held, candidates[..|candidates| - 1]), candidates[|candidates| - 1])
  }

  /**
   * Whatever the interleaving of the feeds, the snapshot is never a hybrid: it is the call
   * held before or one of the delivered calls, and it carries the id of the last delivery.
   */
  lemma {:induction false} DeliverAllObserved(held: Option<Call>, candidates: seq<Call>)
    ensures candidates == [] ==> DeliverAll(held, candidates) == held
    ensures candidates != [] ==>
      && DeliverAll(held, candidates).Some?
      && DeliverAll(held, candidates).value.id == candidates[|candidates| - 1].id
    ensures DeliverAll(held, candidates) == held || DeliverAll(held, candidates).value in candidates
    decreases |candidates|
  {
    if candidates != [] {
      var prefix := candidates[..|candidates| - 1];
      DeliverAllObserved(held, prefix);
      var r := DeliverAll(held, candidates);
      if r != held && r != Some(candidates[|candidates| - 1]) {
        assert r == DeliverAll(held, prefix);
        assert r.value in prefix;
        assert forall x :: x in prefix ==> x in candidates;
      }
    }
  }

  /**
   * One more delivery is one more merge: `Poll` and `OnChange` each perform one step of
   * `DeliverAll`, so any run of them from a snapshot `held` ends at `DeliverAll(held, …)`.
   */
  lemma DeliverOneMore(held: Option<Call>, candidates: seq<Call>, c: Call)
    ensures DeliverAll(held, candidates + [c]) == Merge(DeliverAll(held, candidates), c)
    ensures DeliverAll(held, candidates + [c]) == AfterPoll(DeliverAll(held, candidates), Reply(Some(c), None))
    ensures DeliverAll(held, candidates + [c]) == AfterEvent(DeliverAll(held, candidates), Inserted(c))
  {
    assert (candidates + [c])[..|candidates|] == candidates;
  }

  /** Delivering a call twice in a row is the same as delivering it once. */
  lemma {:induction false} DeliverDuplicate(held: Option<Call>, candidates: seq<Call>, c: Call)
    ensures DeliverAll(held, candidates + [c, c]) == DeliverAll(held, candidates + [c])
  {
    var once := candidates + [c];
    var twice := candidates + [c, c];
    assert twice[..|twice| - 1] == once;
    assert once[..|once| - 1] == candidates;
    MergeIdempotent(DeliverAll(held, candidates), c);
  }

  // ---------------------------------------------------------------------------
  // The provider

  /**
   * The provider's state. `lastCall` is the rendered state and `lastCallRef` the ref the
   * handlers read; every writer assigns both, so they stay equal.
   */
  class QueueProvider {
    var lastCall: Option<Call>
    var lastCallRef: Option<Call>
    var currentCounter: Option<Counter>
    const organization: Option<Organization>
    const store: CallStore

    ghost predicate Valid()
      reads this, store
    {
      lastCall == lastCallRef && store.Valid()
    }

    constructor (organization: Option<Organization>, store: CallStore)
      requires store.Valid()
      ensures Valid() && this.organization == organization && this.store == store
      ensures lastCall == None && currentCounter == None
    {
      this.organization := organization;
      this.store := store;
      lastCall := None;
      lastCallRef := None;
      currentCounter := None;
    }

    method SetCurrentCounter(counter: Option<Counter>)
      modifies this`currentCounter
      ensures currentCounter == counter
    {
      currentCounter := counter;
    }

    /**
     * The initial load: one fetch of the organisation's latest call. The feeds are started
     * only once the organisation is known and has an id.
     */
    method LoadInitialState(reply: Reply)
      requires Valid() && organization.Some? && organization.value.id != ""
      modifies this`lastCall, this`lastCallRef
      ensures Valid()
      ensures lastCall == AfterInitialLoad(old(lastCall), reply)
    {
      if HardError(reply) {
        return;
      }
      if reply.data.Some? {
        lastCall := reply.data;
        lastCallRef := reply.data;
      }
    }

    /**
     * One poll tick, whose answer may be stale by the time it arrives. A run of poll ticks
     * and change events ends at `DeliverAll` of their candidates (lemma `DeliverOneMore`).
     */
    method Poll(reply: Reply)
      requires Valid() && organization.Some? && organization.value.id != ""
      modifies this`lastCall, this`lastCallRef
      ensures Valid()
      ensures lastCall == AfterPoll(old(lastCall), reply)
    {
      if HardError(reply) {
        return;
      }
      if reply.data.Some? && (lastCallRef.None? || reply.data.value.id != lastCallRef.value.id) {
        lastCall := reply.data;
        lastCallRef := reply.data;
      }
    }

    /** One realtime change notification. */
    method OnChange(event: ChangeEvent)
      requires Valid() && organization.Some? && organization.value.id != ""
      modifies this`lastCall, this`lastCallRef
      ensures Valid()
      ensures lastCall == AfterEvent(old(lastCall), event)
    {
      if event.Inserted? || event.Updated? {
        var newCall := event.row;
        if lastCallRef.None? || newCall.id != lastCallRef.value.id {
          lastCall := Some(newCall);
          lastCallRef := Some(newCall);
        }
      }
    }

    /** Writes the planned row, or reports the rejection; on success the snapshot is the new row. */
    method Issue(plan: Plan, insertFails: bool) returns (outcome: Outcome)
      requires Valid()
      modifies this`lastCall, this`lastCallRef, store
      ensures Valid()
      ensures plan.Reject? ==> outcome == Failed(plan.error)
      ensures plan.Write? && insertFails ==> outcome == Failed(StoreWriteFailure)
      ensures plan.Write? && !insertFails ==>
        && outcome == Called(Stored(plan.draft, old(store.nextId)))
        && store.rows == old(store.rows) + [outcome.call]
        && lastCall == Some(outcome.call)
      ensures outcome.Failed? ==> store.rows == old(store.rows) && lastCall == old(lastCall)
    {
      if plan.Reject? {
        return Failed(plan.error);
      }
      var newCall := store.Insert(plan.draft, insertFails);
      if newCall.None? {
        return Failed(StoreWriteFailure);
      }
      lastCall := newCall;
      lastCallRef := newCall;
      outcome := Called(newCall.value);
    }

    /**
     * `callNext`: checks the guard, reads the last call and `max_count`, writes the next
     * number. Every failure comes back as an outcome; nothing is thrown to the caller.
     */
    method CallNext(lastReadFails: bool, orgReply: OrgReply, insertFails: bool, now: int)
      returns (outcome: Outcome)
      requires Valid()
      modifies this`lastCall, this`lastCallRef, store
      ensures Valid()
      ensures var plan := PlanNext(organization, currentCounter,
                                   LastNumberRead(old(store.rows), organization, lastReadFails), orgReply, now);
        && (plan.Reject? ==> outcome == Failed(plan.error))
        && (plan.Write? && insertFails ==> outcome == Failed(StoreWriteFailure))
        && (plan.Write? && !insertFails ==>
              && outcome == Called(Stored(plan.draft, old(store.nextId)))
              && store.rows == old(store.rows) + [outcome.call]
              && lastCall == Some(outcome.call))
      ensures outcome.Failed? ==> store.rows == old(store.rows) && lastCall == old(lastCall)
    {
      if organization.None? || currentCounter.None? {
        return Failed(NoCounterSelected);
      }
      var lastNumber := LastNumberRead(store.rows, organization, lastReadFails);
      var plan := PlanNext(organization, currentCounter, lastNumber, orgReply, now);
      outcome := Issue(plan, insertFails);
    }

    /** `callSpecificNumber(n)`: validates `n` against the guard and the maximum, then writes it. */
    method CallSpecificNumber(n: int, orgReply: OrgReply, insertFails: bool, now: int)
      returns (outcome: Outcome)
      requires Valid()
      modifies this`lastCall, this`lastCallRef, store
      ensures Valid()
      ensures var plan := PlanSpecific(organization, currentCounter, n, orgReply, now);
        && (plan.Reject? ==> outcome == Failed(plan.error))
        && (plan.Write? && insertFails ==> outcome == Failed(StoreWriteFailure))
        && (plan.Write? && !insertFails ==>
              && outcome == Called(Stored(plan.draft, old(store.nextId)))
              && store.rows == old(store.rows) + [outcome.call]
              && lastCall == Some(outcome.call))
      ensures outcome.Failed? ==> store.rows == old(store.rows) && lastCall == old(lastCall)
    {
      var plan := PlanSpecific(organization, currentCounter, n, orgReply, now);
      outcome := Issue(plan, insertFails);
    }
  }

  /**
   * Four `callNext` calls, one clock tick apart, on an empty table with `max_count` 3 issue
   * 1, 2, 3 and then 1;
   * a `callNext` without a selected counter writes nothing.
   */
  method WrapAroundScenario() returns (numbers: seq<int>, rowsWithoutCounter: nat)
    ensures numbers == [1, 2, 3, 1]
    ensures rowsWithoutCounter == 0
  {
    var store := new CallStore();
    var org := Organization("org");
    var provider := new QueueProvider(Some(org), store);
    var none := provider.CallNext(false, OrgRow(Some(3)), false, 0);
    rowsWithoutCounter := |store.rows|;
    provider.SetCurrentCounter(Some(Counter(1, "Gabinete 1", "org")));
    numbers := [];
    var k := 0;
    while k < 4
      invariant 0 <= k <= 4 && |numbers| == k
      invariant provider.Valid() && provider.organization == Some(org) && provider.store == store
      invariant provider.currentCounter.Some?
      invariant numbers == Issue(None, 3, 4)[..k]
      invariant LastNumberRead(store.rows, Some(org), false) == if k == 0 then None else Some(numbers[k - 1])
      invariant forall i :: 0 <= i < |store.rows| ==> store.rows[i].createdAt < k + 1
      modifies provider, store
    {
      ghost var rows := store.rows;
      var outcome := provider.CallNext(false, OrgRow(Some(3)), false, k + 1);
      LatestAfterInsert(rows, outcome.call, org.id);
      numbers := numbers + [outcome.call.number];
      k := k + 1;
    }
    WrapAroundAtThree();
  }
}
