/** `src/cli/orbits.rs`: a refill pool of lookups with a flush buffer and a failure breaker. */
module Orbits {
  import opened Prelude
  import opened Repository
  import opened Lookups

  const UPDATE_FLUSH_SIZE := 200
  const LOOKUP_CONCURRENCY := 2
  const CONSECUTIVE_ERROR_ABORT := 5

  datatype Elements = Elements(eccentricity: Option<real>, semiMajorAxisAu: Option<real>, orbitClass: Option<string>)

  /** One item of the candidate stream: a row, or the database failing mid-query. */
  datatype Item = Row(id: Uuid) | StreamError

  datatype RunError = StreamFailed | FlushFailed

  datatype OrbitRow = OrbitRow(elements: Option<Elements>, checkedAt: int)

  type OrbitRows = map<Uuid, OrbitRow>

  type OrbitJoin = Join<Elements>

  // ----- The table the run writes -----

  /** `asteroids_needing_orbit_check`: no row yet, or a stale one. */
  function CandidateIds(asteroids: set<Uuid>, rows: OrbitRows, staleBefore: int): set<Uuid> {
    set id | id in asteroids && (id !in rows || rows[id].checkedAt < staleBefore)
  }

  /** The first branch of the query: no row yet. */
  function Unchecked(asteroids: set<Uuid>, rows: OrbitRows): set<Uuid> {
    asteroids - rows.Keys
  }

  /** The second branch: a row stamped before the cutoff. */
  function Stale(asteroids: set<Uuid>, rows: OrbitRows, staleBefore: int): set<Uuid> {
    set id | id in asteroids * rows.Keys && rows[id].checkedAt < staleBefore
  }

  lemma RepeatCounted(ids: seq<Uuid>, i: nat, j: nat)
    requires i < j < |ids| && ids[i] == ids[j]
    ensures multiset(ids)[ids[i]] >= 2
  {
    assert ids == ids[..i] + [ids[i]] + ids[i + 1..];
    assert ids[i + 1..][j - i - 1] == ids[i];
  }

  /** The branches share no id, so that `UNION ALL` lists every candidate once, whatever its order. */
  lemma UnionAllListsOnce(asteroids: set<Uuid>, rows: OrbitRows, staleBefore: int, listed: seq<Uuid>)
    requires multiset(listed) == multiset(Unchecked(asteroids, rows)) + multiset(Stale(asteroids, rows, staleBefore))
    ensures Distinct(listed)
    ensures forall id :: id in listed <==> id in CandidateIds(asteroids, rows, staleBefore)
  {
    var all := multiset(listed);
    forall id ensures all[id] <= 1 && (all[id] == 1 <==> id in CandidateIds(asteroids, rows, staleBefore)) {
    }
    forall i, j | 0 <= i < j < |listed| ensures listed[i] != listed[j] {
      if listed[i] == listed[j] {
        RepeatCounted(listed, i, j);
      }
    }
    forall id ensures id in listed <==> id in all {
    }
  }

  /** An asteroid without a row is a candidate at every cutoff, one with a row exactly at the cutoffs above
      its stamp. */
  lemma CandidateIff(asteroids: set<Uuid>, rows: OrbitRows, id: Uuid)
    requires id in asteroids
    ensures id !in rows ==> forall cutoff :: id in CandidateIds(asteroids, rows, cutoff)
    ensures id in rows ==> forall cutoff :: id in CandidateIds(asteroids, rows, cutoff) <==> rows[id].checkedAt < cutoff
  {
  }

  lemma CandidatesGrow(asteroids: set<Uuid>, rows: OrbitRows, cutoff: int, later: int)
    requires cutoff <= later
    ensures CandidateIds(asteroids, rows, cutoff) <= CandidateIds(asteroids, rows, later) <= asteroids
  {
  }

  /** No stamp is ahead of the clock. */
  ghost predicate Past(rows: OrbitRows, clock: int) {
    forall id :: id in rows ==> rows[id].checkedAt <= clock
  }

  /** A forced recheck, whose cutoff is later than the clock, looks every asteroid up again. */
  lemma ForcedRecheck(asteroids: set<Uuid>, rows: OrbitRows, clock: int, cutoff: int)
    requires Past(rows, clock) && clock < cutoff
    ensures CandidateIds(asteroids, rows, cutoff) == asteroids
  {
  }

  /** `after` is `before` with the updates written, each stamped no earlier than `since`. */
  ghost predicate Stamped(before: OrbitRows, after: OrbitRows, us: seq<Update<Elements>>, since: int) {
    && after.Keys == before.Keys + Ids(us)
    && forall id :: id in after ==> IsStamped(before, after, us, since, id)
  }

  ghost predicate IsStamped(before: OrbitRows, after: OrbitRows, us: seq<Update<Elements>>, since: int, id: Uuid)
    requires id in after
  {
    if id in Ids(us) then since <= after[id].checkedAt && after[id].elements == LastFound(us, id)
    else id in before && after[id] == before[id]
  }

  lemma StampedTwice(a: OrbitRows, b: OrbitRows, c: OrbitRows, us: seq<Update<Elements>>, vs: seq<Update<Elements>>,
        since: int)
    requires Stamped(a, b, us, since) && Stamped(b, c, vs, since)
    ensures Stamped(a, c, us + vs, since)
  {
    IdsConcat(us, vs);
    forall id | id in c ensures IsStamped(a, c, us + vs, since, id) {
      assert IsStamped(b, c, vs, since, id);
      if id in Ids(us + vs) {
        LastFoundConcat(us, vs, id);
      }
      if id !in Ids(vs) {
        assert IsStamped(a, b, us, since, id);
      }
    }
  }

  /** Whatever was flushed is no longer a candidate, and nothing else changed. */
  lemma FlushedIdsLeave(asteroids: set<Uuid>, before: OrbitRows, after: OrbitRows, us: seq<Update<Elements>>,
        since: int, staleBefore: int)
    requires Stamped(before, after, us, since) && staleBefore <= since
    ensures CandidateIds(asteroids, after, staleBefore) == CandidateIds(asteroids, before, staleBefore) - Ids(us)
  {
    forall id | id in after ensures id in Ids(us) || (id in before && after[id] == before[id]) {
      assert IsStamped(before, after, us, since, id);
    }
    forall id | id in Ids(us) ensures id in after && staleBefore <= after[id].checkedAt {
      assert IsStamped(before, after, us, since, id);
    }
  }

  class OrbitStore {
    var rows: OrbitRows
    var clock: int

    /** One `INSERT ... ON CONFLICT DO UPDATE` for all updates, stamped with the current time. It
        may fail, and does when an id occurs twice; then the table is as it was. */
    method UpsertAsteroidOrbits(updates: seq<Update<Elements>>) returns (r: Result<nat, RunError>)
      modifies this
      ensures old(clock) <= clock
      ensures r.Ok? ==> r.value == |updates| && Stamped(old(rows), rows, updates, old(clock))
      ensures r.Err? ==> r.error == FlushFailed && rows == old(rows) && updates != []
      ensures Past(old(rows), old(clock)) ==> Past(rows, clock)
    {
      if updates == [] {
        return Ok(0);
      }
      var now :| clock <= now;
      clock := now;
      var fails: bool := *;
      if fails || exists i, j :: 0 <= i < j < |updates| && updates[i].id == updates[j].id {
        return Err(FlushFailed);
      }
      var written := Ids(updates);
      rows := map id | id in rows.Keys + written ::
        if id in written then OrbitRow(LastFound(updates, id), now) else rows[id];
      return Ok(|updates|);
    }
  }

  // ----- What a run may do -----

  /** Failures since the last lookup that succeeded. */
  function TrailingFailures(joins: seq<OrbitJoin>): nat
    decreases |joins|
  {
    if joins == [] || !joins[|joins| - 1].outcome.Failed() then 0
    else TrailingFailures(joins[..|joins| - 1]) + 1
  }

  /** The `k` joins ending the run so far all failed. */
  predicate Window(joins: seq<OrbitJoin>, k: nat) {
    k <= |joins| && forall i :: |joins| - k <= i < |joins| ==> joins[i].outcome.Failed()
  }

  /** The counter reaches `k` exactly when the last `k` joins failed. */
  lemma {:induction false} BreakerIsAWindow(joins: seq<OrbitJoin>, k: nat)
    ensures TrailingFailures(joins) >= k <==> Window(joins, k)
    decreases |joins|
  {
    if k > 0 && joins != [] && joins[|joins| - 1].outcome.Failed() {
      var rest := joins[..|joins| - 1];
      BreakerIsAWindow(rest, k - 1);
      if Window(joins, k) {
        assert forall i :: |rest| - (k - 1) <= i < |rest| ==> rest[i] == joins[i];
      }
      if Window(rest, k - 1) {
        assert forall i :: |joins| - k <= i < |joins| - 1 ==> joins[i] == rest[i];
      }
    } else if k > 0 && joins != [] {
      assert !joins[|joins| - 1].outcome.Failed();
    }
  }

  /** The run had not given up before its last join. */
  ghost predicate NeverTripped(joins: seq<OrbitJoin>) {
    forall k :: 0 <= k <= |joins| ==> Calm(joins, k)
  }

  ghost predicate Calm(joins: seq<OrbitJoin>, k: nat)
    requires k <= |joins|
  {
    TrailingFailures(joins[..k]) < CONSECUTIVE_ERROR_ABORT
  }

  /** Join `k` of the run: a candidate dispatched by then and not joined before, while one or two
      lookups were in flight, and two unless the stream was used up. */
  ghost predicate JoinFits(stream: seq<Item>, joins: seq<OrbitJoin>, k: nat)
    requires k < |joins|
  {
    var j := joins[k];
    && j.slot < j.dispatched <= |stream|
    && stream[j.slot] == Row(j.id)
    && 1 <= j.dispatched - k <= LOOKUP_CONCURRENCY
    && (j.dispatched - k == LOOKUP_CONCURRENCY || j.dispatched == |stream|)
    && j.slot !in Slots(joins[..k])
  }

  ghost predicate JoinsFit(stream: seq<Item>, joins: seq<OrbitJoin>) {
    forall k :: 0 <= k < |joins| ==> JoinFits(stream, joins, k)
  }

  /** The first `taken` candidates have been dispatched, and those not joined are in flight. */
  ghost predicate Pool(stream: seq<Item>, joins: seq<OrbitJoin>, taken: nat, inFlight: set<nat>) {
    && taken <= |stream|
    && (forall s: nat :: s < taken ==> stream[s].Row?)
    && (forall s: nat :: s in inFlight <==> s < taken && s !in Slots(joins))
    && (forall s: nat :: s in Slots(joins) ==> s < taken)
    && |inFlight| + |joins| == taken
  }

  predicate Busy(stream: seq<Item>, taken: nat, inFlight: set<nat>) {
    |inFlight| <= LOOKUP_CONCURRENCY && (|inFlight| == LOOKUP_CONCURRENCY || taken == |stream|)
  }

  /** The database fails where the next candidate would come. */
  predicate BreaksAt(stream: seq<Item>, n: nat) {
    n < |stream| && stream[n] == StreamError
  }

  // ----- The run -----

  datatype RunTally = RunTally(checked: nat, matched: nat, errored: nat, consecutiveErrors: nat)

  datatype Summary = Summary(checked: nat, matched: nat, errored: nat, updated: nat, aborted: bool)

  function Answered(o: Outcome<Elements>): bool { !o.Panicked? }

  function Matched(o: Outcome<Elements>): bool { o.Found? }

  function Errored(o: Outcome<Elements>): bool { o.Failed() }

  /** The counters after `joins`. */
  function TallyOf(joins: seq<OrbitJoin>): RunTally {
    RunTally(Count(Answered, joins), Count(Matched, joins), Count(Errored, joins), TrailingFailures(joins))
  }

  function SummaryOf(joins: seq<OrbitJoin>, aborted: bool): Summary {
    var tally := TallyOf(joins);
    Summary(tally.checked, tally.matched, tally.errored, |Resolved(joins)|, aborted)
  }

  method ApplyOutcome(ghost joins: seq<OrbitJoin>, j: OrbitJoin, tally: RunTally, pending: seq<Update<Elements>>)
      returns (tally': RunTally, pending': seq<Update<Elements>>)
    requires tally == TallyOf(joins)
    ensures tally' == TallyOf(joins + [j])
    ensures pending' == pending + UpdatesOf(j)
  {
    CountSnoc(Answered, joins, j);
    CountSnoc(Matched, joins, j);
    CountSnoc(Errored, joins, j);
    assert (joins + [j])[..|joins|] == joins;
    tally', pending' := tally, pending;
    match j.outcome {
      case Panicked =>
        tally' := tally'.(errored := tally.errored + 1, consecutiveErrors := tally.consecutiveErrors + 1);
      case Found(elements) =>
        tally' := tally'.(checked := tally.checked + 1, matched := tally.matched + 1, consecutiveErrors := 0);
        pending' := pending + [Update(j.id, Some(elements))];
      case NotFound =>
        tally' := tally'.(checked := tally.checked + 1, consecutiveErrors := 0);
        pending' := pending + [Update(j.id, None)];
      case LookupFailed =>
        tally' := tally'.(checked := tally.checked + 1, errored := tally.errored + 1,
          consecutiveErrors := tally.consecutiveErrors + 1);
    }
  }

  /** Dispatches the next candidate, if any is left. */
  method SpawnNext(stream: seq<Item>, ghost joins: seq<OrbitJoin>, taken: nat, inFlight: set<nat>)
      returns (failed: bool, taken': nat, inFlight': set<nat>)
    requires Pool(stream, joins, taken, inFlight)
    ensures failed <==> taken < |stream| && stream[taken] == StreamError
    ensures failed ==> taken' == taken
    ensures !failed ==> Pool(stream, joins, taken', inFlight')
    ensures !failed ==> taken <= taken' && |inFlight'| <= |inFlight| + 1
    ensures !failed ==> |inFlight'| == |inFlight| + 1 || taken' == |stream|
  {
    failed, taken', inFlight' := false, taken, inFlight;
    if taken < |stream| {
      match stream[taken] {
        case StreamError =>
          failed := true;
        case Row(_) =>
          assert taken !in Slots(joins);
          taken', inFlight' := taken + 1, inFlight + {taken};
      }
    }
  }

  lemma NeverTrippedSnoc(joins: seq<OrbitJoin>, j: OrbitJoin)
    requires NeverTripped(joins) && TrailingFailures(joins + [j]) < CONSECUTIVE_ERROR_ABORT
    ensures NeverTripped(joins + [j])
  {
    var more := joins + [j];
    forall k | 0 <= k <= |more| ensures Calm(more, k) {
      if k <= |joins| {
        assert more[..k] == joins[..k] && Calm(joins, k);
      } else {
        assert more[..k] == more;
      }
    }
  }

  lemma Tripped(joins: seq<OrbitJoin>, j: OrbitJoin)
    requires NeverTripped(joins) && TrailingFailures(joins + [j]) >= CONSECUTIVE_ERROR_ABORT
    ensures Stopped(joins + [j], true)
  {
    assert (joins + [j])[..|joins|] == joins;
    BreakerIsAWindow(joins + [j], CONSECUTIVE_ERROR_ABORT);
  }

  /** Why the drain ended: at the first window of failures, or because nothing is left. */
  ghost predicate Stopped(joins: seq<OrbitJoin>, aborted: bool) {
    if aborted then
      && Window(joins, CONSECUTIVE_ERROR_ABORT) && NeverTripped(joins[..|joins| - 1])
    else NeverTripped(joins)
  }

  /** The table after the flushes so far. */
  ghost predicate Written(before: OrbitRows, after: OrbitRows, flushed: seq<seq<Update<Elements>>>, since: int) {
    Stamped(before, after, Flatten(flushed), since)
  }

  lemma WrittenMore(a: OrbitRows, b: OrbitRows, c: OrbitRows, flushed: seq<seq<Update<Elements>>>,
        pending: seq<Update<Elements>>,
        since: int, now: int)
    requires Written(a, b, flushed, since) && Stamped(b, c, pending, now) && since <= now
    ensures Written(a, c, flushed + [pending], since)
  {
    FlattenSnoc(flushed, pending);
    forall id | id in c ensures IsStamped(b, c, pending, since, id) {
      assert IsStamped(b, c, pending, now, id);
    }
    assert Stamped(b, c, pending, since);
    StampedTwice(a, b, c, Flatten(flushed), pending, since);
  }

  lemma NothingWritten(rows: OrbitRows, since: int)
    ensures Stamped(rows, rows, [], since) && Written(rows, rows, [], since)
  {
    forall id | id in rows ensures IsStamped(rows, rows, [], since, id) {
    }
  }

  /** The run's output so far: buffer, flushes and table agree. */
  ghost predicate Output(joins: seq<OrbitJoin>, flushed: seq<seq<Update<Elements>>>, pending: seq<Update<Elements>>,
        updated: nat,
        before: OrbitRows, after: OrbitRows, since: int) {
    && Buffered(joins, flushed, pending, UPDATE_FLUSH_SIZE, UPDATE_FLUSH_SIZE) && updated == |Flatten(flushed)|
    && Written(before, after, flushed, since)
  }

  /** Writes the buffer back, whether full or the last one. */
  method Flush(db: OrbitStore, ghost joins: seq<OrbitJoin>, flushed: seq<seq<Update<Elements>>>,
        pending: seq<Update<Elements>>,
        updated: nat, ghost before: OrbitRows, ghost since: int)
      returns (failed: bool, flushed': seq<seq<Update<Elements>>>, updated': nat)
    requires since <= db.clock && Output(joins, flushed, pending, updated, before, db.rows, since)
    requires |pending| <= UPDATE_FLUSH_SIZE
    modifies db
    ensures since <= db.clock && Written(before, db.rows, flushed', since)
    ensures Past(old(db.rows), old(db.clock)) ==> Past(db.rows, db.clock)
    ensures failed ==> flushed' == flushed && updated' == updated
    ensures !failed ==> FlushShape(flushed', UPDATE_FLUSH_SIZE, UPDATE_FLUSH_SIZE)
    ensures !failed ==> Flatten(flushed') == Resolved(joins) && updated' == |Resolved(joins)|
    ensures !failed && |pending| == UPDATE_FLUSH_SIZE ==> Output(joins, flushed', [], updated', before, db.rows, since)
  {
    flushed', updated' := flushed, updated;
    ghost var rows, now := db.rows, db.clock;
    var written := db.UpsertAsteroidOrbits(pending);
    failed := written.Err?;
    if !failed && pending != [] {
      FlushOne(joins, flushed, pending, UPDATE_FLUSH_SIZE, UPDATE_FLUSH_SIZE);
      FlattenSnoc(flushed, pending);
      WrittenMore(before, rows, db.rows, flushed, pending, since, now);
      flushed', updated' := flushed + [pending], updated + written.value;
    }
  }

  /** Waits for any one lookup in flight; which one and how it ended is not ours to say. */
  method JoinNext(stream: seq<Item>, ghost joins: seq<OrbitJoin>, taken: nat, inFlight: set<nat>)
      returns (j: OrbitJoin, inFlight': set<nat>)
    requires Progress(stream, joins, taken, inFlight) && |inFlight| > 0
    ensures JoinsFit(stream, joins + [j]) && Pool(stream, joins + [j], taken, inFlight')
    ensures |inFlight'| == |inFlight| - 1
  {
    var slot :| slot in inFlight;
    var outcome: Outcome<Elements> := *;
    j := Join(slot, stream[slot].id, taken, outcome);
    JoinOne(stream, joins, taken, inFlight, j);
    inFlight' := inFlight - {slot};
  }

  ghost predicate Progress(stream: seq<Item>, joins: seq<OrbitJoin>, taken: nat, inFlight: set<nat>) {
    && Pool(stream, joins, taken, inFlight)
    && Busy(stream, taken, inFlight)
    && JoinsFit(stream, joins)
  }

  /** Joining one lookup of a busy pool fits the run. */
  lemma JoinOne(stream: seq<Item>, joins: seq<OrbitJoin>, taken: nat, inFlight: set<nat>, j: OrbitJoin)
    requires Progress(stream, joins, taken, inFlight)
    requires j.slot in inFlight && j.dispatched == taken && stream[j.slot] == Row(j.id)
    ensures JoinsFit(stream, joins + [j])
    ensures Pool(stream, joins + [j], taken, inFlight - {j.slot})
  {
    SlotsSnoc(joins, j);
    var more := joins + [j];
    forall k | 0 <= k < |more| ensures JoinFits(stream, more, k) {
      if k < |joins| {
        assert JoinFits(stream, joins, k);
        assert more[..k] == joins[..k];
      } else {
        assert more[..k] == joins;
        assert {j.slot} <= inFlight;
      }
    }
  }

  /** Starts the first lookups. */
  method Prime(stream: seq<Item>) returns (failed: bool, taken: nat, inFlight: set<nat>)
    ensures taken <= |stream|
    ensures failed ==> BreaksAt(stream, taken)
    ensures !failed ==> Progress(stream, [], taken, inFlight)
  {
    failed, taken, inFlight := false, 0, {};
    for i := 0 to LOOKUP_CONCURRENCY
      invariant Pool(stream, [], taken, inFlight)
      invariant |inFlight| <= i && (|inFlight| == i || taken == |stream|)
    {
      failed, taken, inFlight := SpawnNext(stream, [], taken, inFlight);
      if failed {
        return;
      }
    }
  }

  /** Applies one joined lookup and flushes the buffer when that fills it. */
  method TakeOutcome(db: OrbitStore, ghost joins: seq<OrbitJoin>, j: OrbitJoin, flushed: seq<seq<Update<Elements>>>,
        pending: seq<Update<Elements>>, updated: nat, tally: RunTally, ghost before: OrbitRows,
        ghost since: int)
      returns (failed: bool, flushed': seq<seq<Update<Elements>>>, pending': seq<Update<Elements>>, updated': nat,
            tally': RunTally)
    requires tally == TallyOf(joins) && |pending| < UPDATE_FLUSH_SIZE
    requires since <= db.clock && Output(joins, flushed, pending, updated, before, db.rows, since)
    modifies db
    ensures tally' == TallyOf(joins + [j]) && |pending'| <= UPDATE_FLUSH_SIZE && since <= db.clock
    ensures Output(joins + [j], flushed', pending', updated', before, db.rows, since)
    ensures Past(old(db.rows), old(db.clock)) ==> Past(db.rows, db.clock)
    ensures if failed then |pending'| == UPDATE_FLUSH_SIZE else |pending'| < UPDATE_FLUSH_SIZE
  {
    BufferOne(joins, flushed, pending, j, UPDATE_FLUSH_SIZE, UPDATE_FLUSH_SIZE);
    tally', pending' := ApplyOutcome(joins, j, tally, pending);
    failed, flushed', updated' := false, flushed, updated;
    if |pending'| >= UPDATE_FLUSH_SIZE {
      failed, flushed', updated' := Flush(db, joins + [j], flushed, pending', updated, before, since);
      if !failed {
        pending' := [];
      }
    }
  }

  /** Everything between two joins: the pool, the counters, the buffer and the table. */
  ghost predicate Draining(stream: seq<Item>, d: Drain, inFlight: set<nat>, before: OrbitRows, after: OrbitRows,
        since: int)
  {
    && Progress(stream, d.joins, d.dispatched, inFlight)
    && NeverTripped(d.joins)
    && d.tally == TallyOf(d.joins)
    && |d.pending| < UPDATE_FLUSH_SIZE
    && Output(d.joins, d.flushed, d.pending, d.updated, before, after, since)
  }

  /** What the loop leaves behind, however it ends. */
  ghost predicate Drained(stream: seq<Item>, d: Drain, before: OrbitRows, after: OrbitRows, since: int) {
    && JoinsFit(stream, d.joins) && |d.joins| <= d.dispatched <= |stream|
    && d.tally == TallyOf(d.joins)
    && |d.pending| <= UPDATE_FLUSH_SIZE
    && Output(d.joins, d.flushed, d.pending, d.updated, before, after, since)
  }

  /** The drain's variables. */
  datatype Drain = Drain(
    joins: seq<OrbitJoin>, flushed: seq<seq<Update<Elements>>>, pending: seq<Update<Elements>>,
    updated: nat, tally: RunTally, dispatched: nat)

  /** One turn of the loop: join any lookup, apply it, flush a full buffer, then stop or refill. */
  method Turn(db: OrbitStore, stream: seq<Item>, d: Drain, inFlight: set<nat>, ghost before: OrbitRows,
        ghost since: int)
      returns (error: Option<RunError>, aborted: bool, d': Drain, inFlight': set<nat>)
    requires since <= db.clock && Draining(stream, d, inFlight, before, db.rows, since) && |inFlight| > 0
    modifies db
    ensures since <= db.clock && Drained(stream, d', before, db.rows, since)
    ensures Past(old(db.rows), old(db.clock)) ==> Past(db.rows, db.clock)
    ensures error.None? && !aborted ==> Draining(stream, d', inFlight', before, db.rows, since)
    ensures error.None? && !aborted ==> |d'.joins| == |d.joins| + 1
    ensures error == Some(StreamFailed) ==> BreaksAt(stream, d'.dispatched)
    ensures error == Some(FlushFailed) ==> |d'.pending| == UPDATE_FLUSH_SIZE
    ensures aborted ==> Stopped(d'.joins, true) && d'.dispatched - |d'.joins| <= LOOKUP_CONCURRENCY - 1
  {
    var j;
    var failed, flushed, pending, updated, tally;
    j, inFlight' := JoinNext(stream, d.joins, d.dispatched, inFlight);
    failed, flushed, pending, updated, tally :=
      TakeOutcome(db, d.joins, j, d.flushed, d.pending, d.updated, d.tally, before, since);
    d' := Drain(d.joins + [j], flushed, pending, updated, tally, d.dispatched);
    error, aborted := None, false;
    if failed {
      error := Some(FlushFailed);
    } else if tally.consecutiveErrors >= CONSECUTIVE_ERROR_ABORT {
      Tripped(d.joins, j);
      aborted := true;
    } else {
      NeverTrippedSnoc(d.joins, j);
      var taken;
      failed, taken, inFlight' := SpawnNext(stream, d'.joins, d'.dispatched, inFlight');
      if failed {
        error := Some(StreamFailed);
      } else {
        d' := d'.(dispatched := taken);
      }
    }
  }

  /** The loop: turns until nothing is in flight, the run gives up, or something fails. */
  method DrainAll(db: OrbitStore, stream: seq<Item>, start: Drain, lookups: set<nat>, ghost before: OrbitRows,
        ghost since: int)
      returns (error: Option<RunError>, aborted: bool, d: Drain)
    requires since <= db.clock && Draining(stream, start, lookups, before, db.rows, since)
    modifies db
    ensures since <= db.clock && Drained(stream, d, before, db.rows, since)
    ensures Past(old(db.rows), old(db.clock)) ==> Past(db.rows, db.clock)
    ensures error == Some(StreamFailed) ==> BreaksAt(stream, d.dispatched)
    ensures error.None? ==> Stopped(d.joins, aborted)
    ensures error.None? && aborted ==> d.dispatched - |d.joins| <= LOOKUP_CONCURRENCY - 1
    ensures error.None? && !aborted ==> |d.joins| == d.dispatched == |stream|
  {
    var inFlight := lookups;
    error, aborted, d := None, false, start;
    while |inFlight| > 0 && error.None? && !aborted
      invariant since <= db.clock && Drained(stream, d, before, db.rows, since)
      invariant Past(old(db.rows), old(db.clock)) ==> Past(db.rows, db.clock)
      invariant error.None? && !aborted ==> Draining(stream, d, inFlight, before, db.rows, since)
      invariant error == Some(StreamFailed) ==> BreaksAt(stream, d.dispatched)
      invariant aborted ==> Stopped(d.joins, true) && d.dispatched - |d.joins| <= LOOKUP_CONCURRENCY - 1
      decreases error.None? && !aborted, |stream| - |d.joins|
    {
      error, aborted, d, inFlight := Turn(db, stream, d, inFlight, before, since);
    }
  }

  method RunOrbitChecks(db: OrbitStore, stream: seq<Item>)
      returns (r: Result<Summary, RunError>, joins: seq<OrbitJoin>, flushed: seq<seq<Update<Elements>>>,
            dispatched: nat)
    modifies db
    ensures JoinsFit(stream, joins) && FlushShape(flushed, 200, 200)
    ensures old(db.clock) <= db.clock && Written(old(db.rows), db.rows, flushed, old(db.clock))
    ensures Past(old(db.rows), old(db.clock)) ==> Past(db.rows, db.clock)
    ensures r.Err? ==> Flatten(flushed) <= Resolved(joins)
    ensures r.Ok? ==> Flatten(flushed) == Resolved(joins)
    ensures r.Ok? ==> r.value == SummaryOf(joins, r.value.aborted)
    ensures r.Ok? ==> Stopped(joins, r.value.aborted)
    ensures r.Ok? && !r.value.aborted ==> |joins| == |stream|
    ensures |joins| <= dispatched <= |stream|
    ensures r == Err(StreamFailed) ==> BreaksAt(stream, dispatched)
    ensures r.Ok? ==> dispatched - |joins| <= if r.value.aborted then 1 else 0
  {
    NothingWritten(db.rows, db.clock);
    var failed, taken, inFlight := Prime(stream);
    var d := Drain([], [], [], 0, RunTally(0, 0, 0, 0), taken);
    if failed {
      return Err(StreamFailed), [], [], taken;
    }
    var error, aborted;
    error, aborted, d := DrainAll(db, stream, d, inFlight, old(db.rows), old(db.clock));
    joins, flushed, dispatched := d.joins, d.flushed, d.dispatched;
    if error.Some? {
      return Err(error.value), joins, flushed, dispatched;
    }
    var updated;
    failed, flushed, updated := Flush(db, joins, flushed, d.pending, d.updated, old(db.rows), old(db.clock));
    if failed {
      return Err(FlushFailed), joins, flushed, dispatched;
    }
    r := Ok(Summary(d.tally.checked, d.tally.matched, d.tally.errored, updated, aborted));
  }

  // ----- What a run means -----

  lemma {:induction false} SlotsCounted(stream: seq<Item>, joins: seq<OrbitJoin>)
    requires JoinsFit(stream, joins)
    ensures |Slots(joins)| == |joins|
    decreases |joins|
  {
    if joins != [] {
      var n := |joins| - 1;
      assert JoinsFit(stream, joins[..n]) by {
        forall k | 0 <= k < n ensures JoinFits(stream, joins[..n], k) {
          assert JoinFits(stream, joins, k);
          assert joins[..n][..k] == joins[..k];
        }
      }
      SlotsCounted(stream, joins[..n]);
      SlotsSnoc(joins[..n], joins[n]);
      assert joins == joins[..n] + [joins[n]];
      assert JoinFits(stream, joins, n);
    }
  }

  /** No candidate is looked up twice, and a run that joined as many as there are joined them all. */
  lemma EachCandidateOnce(stream: seq<Item>, joins: seq<OrbitJoin>)
    requires JoinsFit(stream, joins)
    ensures |Slots(joins)| == |joins| <= |stream|
    ensures |joins| == |stream| ==> Slots(joins) == Range(0, |stream|)
  {
    SlotsCounted(stream, joins);
    forall s | s in Slots(joins) ensures s < |stream| {
      var k :| 0 <= k < |joins| && joins[k].slot == s;
      assert JoinFits(stream, joins, k);
    }
    Pigeonhole(Slots(joins), |stream|);
  }

  /** `aborted` marks exactly the first window of failures. */
  lemma AbortsAtTheFirstWindow(joins: seq<OrbitJoin>)
    ensures NeverTripped(joins) <==> forall k :: 0 <= k <= |joins| ==> !Window(joins[..k], 5)
  {
    forall k | 0 <= k <= |joins| ensures Calm(joins, k) <==> !Window(joins[..k], CONSECUTIVE_ERROR_ABORT) {
      BreakerIsAWindow(joins[..k], CONSECUTIVE_ERROR_ABORT);
    }
  }

  /** The candidates left for the next run with the same `staleBefore`, whatever order the lookups
      ended in: exactly those this run did not resolve, because their lookup failed or panicked,
      was abandoned, or never began. */
  lemma NextRunIsTheUnresolved(asteroids: set<Uuid>, before: OrbitRows, after: OrbitRows, joins: seq<OrbitJoin>,
        flushed: seq<seq<Update<Elements>>>, since: int, staleBefore: int)
    requires Written(before, after, flushed, since) && Flatten(flushed) == Resolved(joins) && staleBefore <= since
    ensures CandidateIds(asteroids, after, staleBefore)
         == CandidateIds(asteroids, before, staleBefore) - ResolvedIds(joins)
  {
    FlushedIdsLeave(asteroids, before, after, Flatten(flushed), since, staleBefore);
    ResolvedIdsAreFlushed(joins);
  }

  /** A run cut short by an error loses at most what it had not flushed: those ids stay candidates. */
  lemma FailedRunKeepsFlushes(asteroids: set<Uuid>, before: OrbitRows, after: OrbitRows, joins: seq<OrbitJoin>,
        flushed: seq<seq<Update<Elements>>>, since: int, staleBefore: int)
    requires Written(before, after, flushed, since) && Flatten(flushed) <= Resolved(joins) && staleBefore <= since
    ensures CandidateIds(asteroids, before, staleBefore) - ResolvedIds(joins)
         <= CandidateIds(asteroids, after, staleBefore)
         == CandidateIds(asteroids, before, staleBefore) - Ids(Flatten(flushed))
  {
    FlushedIdsLeave(asteroids, before, after, Flatten(flushed), since, staleBefore);
    var done := Flatten(flushed);
    var all := Resolved(joins);
    assert all == done + all[|done|..];
    IdsConcat(done, all[|done|..]);
    ResolvedIdsAreFlushed(joins);
  }

  /** The summary counts lookups: those that answered, those that found something, those that failed or
      panicked, and the updates, which are the answers that did not fail. */
  lemma SummaryMeans(joins: seq<OrbitJoin>, aborted: bool)
    ensures
      var s := SummaryOf(joins, aborted);
      && s.checked == |set k: nat | k < |joins| && !joins[k].outcome.Panicked?|
      && s.matched == |set k: nat | k < |joins| && joins[k].outcome.Found?|
      && s.errored == |set k: nat | k < |joins| && (joins[k].outcome.LookupFailed? || joins[k].outcome.Panicked?)|
      && s.updated == |set k: nat | k < |joins| && (joins[k].outcome.Found? || joins[k].outcome.NotFound?)|
  {
    var resolved := (o: Outcome<Elements>) => o.Found? || o.NotFound?;
    CountIs(Answered, joins);
    CountIs(Matched, joins);
    CountIs(Errored, joins);
    ResolvedCounted(joins);
    CountIs(resolved, joins);
    assert Those(Answered, joins) == set k: nat | k < |joins| && !joins[k].outcome.Panicked?;
    assert Those(Matched, joins) == set k: nat | k < |joins| && joins[k].outcome.Found?;
    assert Those(Errored, joins)
      == set k: nat | k < |joins| && (joins[k].outcome.LookupFailed? || joins[k].outcome.Panicked?);
    assert Those(resolved, joins)
      == set k: nat | k < |joins| && (joins[k].outcome.Found? || joins[k].outcome.NotFound?);
  }

  /** No id is streamed twice. */
  ghost predicate DistinctRows(stream: seq<Item>) {
    forall i, j :: 0 <= i < j < |stream| && stream[i].Row? && stream[j].Row? ==> stream[i].id != stream[j].id
  }

  lemma JoinedOnce(stream: seq<Item>, joins: seq<OrbitJoin>, k: nat)
    requires JoinsFit(stream, joins) && DistinctRows(stream) && k < |joins|
    ensures IsLast(joins, k)
  {
    forall i | k < i < |joins| ensures joins[i].id != joins[k].id {
      assert JoinFits(stream, joins, i) && JoinFits(stream, joins, k);
      assert joins[..i][k].slot == joins[k].slot;
      assert joins[k].slot in Slots(joins[..i]);
    }
  }

  /** A run that flushed everything wrote for each lookup what it found: elements, or none where there are
      none, stamped with a time of the run; the row of an id whose lookup failed is as it was. */
  lemma RunWrites(stream: seq<Item>, joins: seq<OrbitJoin>, flushed: seq<seq<Update<Elements>>>, before: OrbitRows,
        after: OrbitRows, since: int, k: nat)
    requires JoinsFit(stream, joins) && DistinctRows(stream) && k < |joins|
    requires Written(before, after, flushed, since) && Flatten(flushed) == Resolved(joins)
    ensures
      var id := joins[k].id;
      match joins[k].outcome
      case Found(elements) => id in after && after[id].elements == Some(elements) && since <= after[id].checkedAt
      case NotFound => id in after && after[id].elements == None && since <= after[id].checkedAt
      case _ => (id in after <==> id in before) && (id in before ==> after[id] == before[id])
  {
    var id := joins[k].id;
    JoinedOnce(stream, joins, k);
    ResolvedIdsAreFlushed(joins);
    if joins[k].outcome.Found? || joins[k].outcome.NotFound? {
      LastFoundIsTheOutcome(joins, k);
      assert IsStamped(before, after, Flatten(flushed), since, id);
    } else {
      forall i | 0 <= i < |joins| && joins[i].id == id ensures i == k {
        JoinedOnce(stream, joins, i);
      }
      assert id !in ResolvedIds(joins);
      if id in after {
        assert IsStamped(before, after, Flatten(flushed), since, id);
      }
    }
  }
}
