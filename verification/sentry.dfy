/** `src/cli/sentry.rs`: lookups in chunks, joined in any order, with the same flush buffer. */
module Sentry {
  import opened Prelude
  import opened Repository
  import opened Lookups

  const UPDATE_FLUSH_SIZE := 200
  const LOOKUP_CONCURRENCY := 5

  /** The most the buffer can hold: one short of a flush, plus a chunk. */
  const PEAK := UPDATE_FLUSH_SIZE + LOOKUP_CONCURRENCY - 1

  datatype Scales = Scales(torino: Option<int>, palermo: Option<real>)

  datatype RunError = LookupPanicked | FlushFailed

  datatype AsteroidScales = AsteroidScales(isSentryObject: bool, scales: Option<Scales>, checkedAt: Option<int>)

  type ScaleRows = map<Uuid, AsteroidScales>

  type SentryJoin = Join<Scales>

  /** `asteroids_needing_sentry_check`: flagged, and never checked or stale. */
  function CandidateIds(rows: ScaleRows, staleBefore: int): set<Uuid> {
    set id | id in rows && rows[id].isSentryObject
      && (rows[id].checkedAt.None? || rows[id].checkedAt.value < staleBefore)
  }

  /** Only flagged asteroids are candidates: at every cutoff if never checked, and otherwise exactly at the
      cutoffs above their stamp. */
  lemma CandidateIff(rows: ScaleRows, id: Uuid)
    requires id in rows
    ensures !rows[id].isSentryObject ==> forall cutoff :: id !in CandidateIds(rows, cutoff)
    ensures rows[id].isSentryObject && rows[id].checkedAt.None? ==> forall cutoff :: id in CandidateIds(rows, cutoff)
    ensures rows[id].isSentryObject && rows[id].checkedAt.Some? ==>
      forall cutoff :: id in CandidateIds(rows, cutoff) <==> rows[id].checkedAt.value < cutoff
  {
  }

  /** `after` is `before` with the updates written to the rows that exist, stamped no earlier than `since`. */
  ghost predicate Stamped(before: ScaleRows, after: ScaleRows, us: seq<Update<Scales>>, since: int) {
    && after.Keys == before.Keys
    && forall id :: id in after ==> IsStamped(before, after, us, since, id)
  }

  ghost predicate IsStamped(before: ScaleRows, after: ScaleRows, us: seq<Update<Scales>>, since: int, id: Uuid)
    requires id in after && after.Keys == before.Keys
  {
    if id in Ids(us) then
      && after[id].isSentryObject == before[id].isSentryObject
      && after[id].checkedAt.Some? && since <= after[id].checkedAt.value
      && after[id].scales == LastFound(us, id)
    else after[id] == before[id]
  }

  lemma StampedTwice(a: ScaleRows, b: ScaleRows, c: ScaleRows, us: seq<Update<Scales>>, vs: seq<Update<Scales>>,
        since: int, now: int)
    requires Stamped(a, b, us, since) && Stamped(b, c, vs, now) && since <= now
    ensures Stamped(a, c, us + vs, since)
  {
    IdsConcat(us, vs);
    forall id | id in c ensures IsStamped(a, c, us + vs, since, id) {
      assert IsStamped(b, c, vs, now, id);
      assert IsStamped(a, b, us, since, id);
      if id in Ids(us + vs) {
        LastFoundConcat(us, vs, id);
      }
    }
  }

  /** Whatever was flushed is no longer a candidate, and nothing else changed. */
  lemma FlushedIdsLeave(before: ScaleRows, after: ScaleRows, us: seq<Update<Scales>>, since: int, staleBefore: int)
    requires Stamped(before, after, us, since) && staleBefore <= since
    ensures CandidateIds(after, staleBefore) == CandidateIds(before, staleBefore) - Ids(us)
  {
    forall id | id in after
      ensures id in CandidateIds(after, staleBefore) <==> id in CandidateIds(before, staleBefore) && id !in Ids(us)
    {
      assert IsStamped(before, after, us, since, id);
    }
  }

  /** Rows written by each flush: ids that are in the table, once each. */
  function Affected(flushed: seq<seq<Update<Scales>>>, table: set<Uuid>): nat
    decreases |flushed|
  {
    if flushed == [] then 0
    else Affected(flushed[..|flushed| - 1], table) + |Ids(flushed[|flushed| - 1]) * table|
  }

  lemma AffectedSnoc(flushed: seq<seq<Update<Scales>>>, us: seq<Update<Scales>>, table: set<Uuid>)
    ensures Affected(flushed + [us], table) == Affected(flushed, table) + |Ids(us) * table|
  {
    assert (flushed + [us])[..|flushed|] == flushed;
  }

  class ScaleStore {
    var rows: ScaleRows
    var clock: int

    /** One `UPDATE ... FROM UNNEST`, stamped with the current time; it may fail and change nothing. */
    method UpdateSentryScales(updates: seq<Update<Scales>>) returns (r: Result<nat, RunError>)
      modifies this
      ensures old(clock) <= clock
      ensures r.Ok? ==> r.value == |Ids(updates) * rows.Keys| && Stamped(old(rows), rows, updates, old(clock))
      ensures r.Err? ==> rows == old(rows) && updates != []
    {
      if updates == [] {
        assert Ids(updates) == {};
        return Ok(0);
      }
      var now :| clock <= now;
      clock := now;
      var fails: bool := *;
      if fails {
        return Err(FlushFailed);
      }
      var written := Ids(updates);
      rows := map id | id in rows ::
        if id in written then AsteroidScales(rows[id].isSentryObject, LastFound(updates, id), Some(now)) else rows[id];
      return Ok(|written * rows.Keys|);
    }
  }

  // ----- What a run may do -----

  function ChunkStart(k: nat): nat {
    k / LOOKUP_CONCURRENCY * LOOKUP_CONCURRENCY
  }

  /** Join `k`: a candidate of the chunk `k` falls in, not joined before, and no panic. */
  ghost predicate JoinFits(candidates: seq<Uuid>, joins: seq<SentryJoin>, k: nat)
    requires k < |joins|
  {
    var j := joins[k];
    && ChunkStart(k) <= j.slot < j.dispatched == Min(|candidates|, ChunkStart(k) + LOOKUP_CONCURRENCY)
    && candidates[j.slot] == j.id
    && j.slot !in Slots(joins[..k])
    && !j.outcome.Panicked?
  }

  ghost predicate JoinsFit(candidates: seq<Uuid>, joins: seq<SentryJoin>) {
    forall k :: 0 <= k < |joins| ==> JoinFits(candidates, joins, k)
  }

  /** Chunk `[lo, hi)` is being joined: all earlier candidates are done. */
  ghost predicate Pool(joins: seq<SentryJoin>, hi: nat, inFlight: set<nat>) {
    && (forall s: nat :: s in inFlight <==> s < hi && s !in Slots(joins))
    && (forall s: nat :: s in Slots(joins) ==> s < hi)
    && |inFlight| + |joins| == hi
  }

  ghost predicate InChunk(lo: nat, hi: nat, n: nat) {
    lo % LOOKUP_CONCURRENCY == 0 && lo < hi == Min(n, lo + LOOKUP_CONCURRENCY)
  }

  lemma NextChunk(lo: nat, n: nat)
    requires lo % LOOKUP_CONCURRENCY == 0 && lo < n
    ensures var hi := Min(n, lo + LOOKUP_CONCURRENCY); InChunk(lo, hi, n) && (hi < n ==> hi % LOOKUP_CONCURRENCY == 0)
  {
  }

  lemma StartOfChunk(lo: nat, k: nat)
    requires lo % LOOKUP_CONCURRENCY == 0 && lo <= k < lo + LOOKUP_CONCURRENCY
    ensures ChunkStart(k) == lo
  {
  }

  lemma JoinOne(candidates: seq<Uuid>, joins: seq<SentryJoin>, lo: nat, hi: nat, inFlight: set<nat>, j: SentryJoin)
    requires JoinsFit(candidates, joins) && Pool(joins, hi, inFlight) && InChunk(lo, hi, |candidates|) && lo <= |joins|
    requires j.slot in inFlight && lo <= j.slot && j.dispatched == hi
    requires candidates[j.slot] == j.id && !j.outcome.Panicked?
    ensures JoinsFit(candidates, joins + [j]) && Pool(joins + [j], hi, inFlight - {j.slot})
  {
    SlotsSnoc(joins, j);
    var more := joins + [j];
    assert {j.slot} <= inFlight;
    StartOfChunk(lo, |joins|);
    forall k | 0 <= k < |more| ensures JoinFits(candidates, more, k) {
      if k < |joins| {
        assert JoinFits(candidates, joins, k);
        assert more[..k] == joins[..k];
      } else {
        assert more[..k] == joins;
      }
    }
  }

  function Matched(o: Outcome<Scales>): bool { o.Found? }

  function Errored(o: Outcome<Scales>): bool { o.LookupFailed? }

  datatype Tally = Tally(matched: nat, errored: nat)

  function TallyOf(joins: seq<SentryJoin>): Tally {
    Tally(Count(Matched, joins), Count(Errored, joins))
  }

  method ApplyOutcome(ghost joins: seq<SentryJoin>, j: SentryJoin, tally: Tally, pending: seq<Update<Scales>>)
      returns (tally': Tally, pending': seq<Update<Scales>>)
    requires tally == TallyOf(joins) && !j.outcome.Panicked?
    ensures tally' == TallyOf(joins + [j]) && pending' == pending + UpdatesOf(j)
  {
    CountSnoc(Matched, joins, j);
    CountSnoc(Errored, joins, j);
    tally', pending' := tally, pending;
    match j.outcome {
      case Found(scales) =>
        tally', pending' := tally.(matched := tally.matched + 1), pending + [Update(j.id, Some(scales))];
      case NotFound =>
        pending' := pending + [Update(j.id, None)];
      case LookupFailed =>
        tally' := tally.(errored := tally.errored + 1);
    }
  }

  datatype Summary = Summary(matched: nat, errored: nat, updated: nat)

  /** The run's output so far. */
  ghost predicate Output(joins: seq<SentryJoin>, flushed: seq<seq<Update<Scales>>>, pending: seq<Update<Scales>>,
        updated: nat,
        before: ScaleRows, after: ScaleRows, since: int) {
    && Buffered(joins, flushed, pending, UPDATE_FLUSH_SIZE, PEAK)
    && updated == Affected(flushed, before.Keys)
    && Stamped(before, after, Flatten(flushed), since)
  }

  lemma NothingWritten(rows: ScaleRows, since: int)
    ensures Stamped(rows, rows, [], since)
  {
    forall id | id in rows ensures IsStamped(rows, rows, [], since, id) {
    }
  }

  method Flush(db: ScaleStore, ghost joins: seq<SentryJoin>, flushed: seq<seq<Update<Scales>>>,
        pending: seq<Update<Scales>>,
        updated: nat, ghost before: ScaleRows, ghost since: int)
      returns (failed: bool, flushed': seq<seq<Update<Scales>>>, updated': nat)
    requires since <= db.clock && Output(joins, flushed, pending, updated, before, db.rows, since)
    requires |pending| <= PEAK
    modifies db
    ensures since <= db.clock && Stamped(before, db.rows, Flatten(flushed'), since)
    ensures failed ==> flushed' == flushed
    ensures !failed ==> FlushShape(flushed', UPDATE_FLUSH_SIZE, PEAK) && Flatten(flushed') == Resolved(joins)
    ensures !failed ==> updated' == Affected(flushed', before.Keys)
    ensures !failed && |pending| >= UPDATE_FLUSH_SIZE ==> Output(joins, flushed', [], updated', before, db.rows, since)
  {
    flushed', updated' := flushed, updated;
    ghost var rows, now := db.rows, db.clock;
    var written := db.UpdateSentryScales(pending);
    failed := written.Err?;
    if !failed && pending != [] {
      FlushOne(joins, flushed, pending, UPDATE_FLUSH_SIZE, PEAK);
      FlattenSnoc(flushed, pending);
      StampedTwice(before, rows, db.rows, Flatten(flushed), pending, since, now);
      flushed', updated' := flushed + [pending], updated + written.value;
      AffectedSnoc(flushed, pending, before.Keys);
    }
  }

  lemma ChunkBegins(joins: seq<SentryJoin>, lo: nat, hi: nat)
    requires Pool(joins, lo, {}) && lo <= hi
    ensures Pool(joins, hi, Range(lo, hi)) && forall s :: s in Range(lo, hi) ==> lo <= s
  {
    RangeMeans(lo, hi);
  }

  /** A chunk while it is being joined. */
  ghost predicate Joining(candidates: seq<Uuid>, lo: nat, hi: nat, joins: seq<SentryJoin>, inFlight: set<nat>) {
    && JoinsFit(candidates, joins) && Pool(joins, hi, inFlight) && lo <= |joins|
    && forall s :: s in inFlight ==> lo <= s
  }

  /** Waits for any lookup of the chunk; a panic is reported and joins nothing. */
  method JoinNext(candidates: seq<Uuid>, lo: nat, hi: nat, ghost joins: seq<SentryJoin>, inFlight: set<nat>)
      returns (next: Option<SentryJoin>, inFlight': set<nat>)
    requires InChunk(lo, hi, |candidates|) && Joining(candidates, lo, hi, joins, inFlight) && |inFlight| > 0
    ensures next.Some? ==> !next.value.outcome.Panicked? && |inFlight'| == |inFlight| - 1
    ensures next.Some? ==> Joining(candidates, lo, hi, joins + [next.value], inFlight')
  {
    var slot :| slot in inFlight;
    var outcome: Outcome<Scales> := *;
    if outcome.Panicked? {
      return None, inFlight;
    }
    var j := Join(slot, candidates[slot], hi, outcome);
    JoinOne(candidates, joins, lo, hi, inFlight, j);
    next, inFlight' := Some(j), inFlight - {slot};
  }

  /** Looks up one chunk and joins all of it, in whatever order the lookups end; a panic is an error. */
  method JoinChunk(candidates: seq<Uuid>, lo: nat, hi: nat, joins: seq<SentryJoin>,
        ghost flushed: seq<seq<Update<Scales>>>, pending: seq<Update<Scales>>, tally: Tally)
      returns (panicked: bool, joins': seq<SentryJoin>, pending': seq<Update<Scales>>, tally': Tally)
    requires InChunk(lo, hi, |candidates|) && JoinsFit(candidates, joins) && Pool(joins, lo, {})
    requires tally == TallyOf(joins) && Buffered(joins, flushed, pending, UPDATE_FLUSH_SIZE, PEAK)
    ensures JoinsFit(candidates, joins') && Buffered(joins', flushed, pending', UPDATE_FLUSH_SIZE, PEAK)
    ensures tally' == TallyOf(joins') && |pending'| <= |pending| + LOOKUP_CONCURRENCY
    ensures |joins'| <= hi && (!panicked ==> Pool(joins', hi, {}))
  {
    joins', pending', tally', panicked := joins, pending, tally, false;
    var inFlight := Range(lo, hi);
    ChunkBegins(joins, lo, hi);
    while |inFlight| > 0
      invariant Joining(candidates, lo, hi, joins', inFlight)
      invariant tally' == TallyOf(joins') && Buffered(joins', flushed, pending', UPDATE_FLUSH_SIZE, PEAK)
      invariant |pending'| + lo <= |pending| + |joins'|
      decreases |inFlight|
    {
      var next;
      next, inFlight := JoinNext(candidates, lo, hi, joins', inFlight);
      if next.None? {
        return true, joins', pending', tally';
      }
      BufferOne(joins', flushed, pending', next.value, UPDATE_FLUSH_SIZE, PEAK);
      tally', pending' := ApplyOutcome(joins', next.value, tally', pending');
      joins' := joins' + [next.value];
    }
    assert inFlight == {};
  }

  // ----- The run -----

  /** The run's variables; `peak` is the fullest the buffer has been. */
  datatype Drain = Drain(
    joins: seq<SentryJoin>, flushed: seq<seq<Update<Scales>>>, pending: seq<Update<Scales>>, updated: nat,
          tally: Tally, peak: nat)

  ghost predicate Drained(candidates: seq<Uuid>, d: Drain, before: ScaleRows, after: ScaleRows, since: int) {
    && JoinsFit(candidates, d.joins)
    && d.tally == TallyOf(d.joins)
    && |d.pending| <= d.peak <= PEAK
    && Output(d.joins, d.flushed, d.pending, d.updated, before, after, since)
  }

  /** One chunk, and a flush if it filled the buffer. */
  method Turn(db: ScaleStore, candidates: seq<Uuid>, lo: nat, hi: nat, d: Drain, ghost before: ScaleRows,
        ghost since: int)
      returns (error: Option<RunError>, d': Drain)
    requires since <= db.clock && Drained(candidates, d, before, db.rows, since) && |d.pending| < UPDATE_FLUSH_SIZE
    requires InChunk(lo, hi, |candidates|) && Pool(d.joins, lo, {})
    modifies db
    ensures since <= db.clock && Drained(candidates, d', before, db.rows, since)
    ensures error.None? ==> |d'.pending| < UPDATE_FLUSH_SIZE && Pool(d'.joins, hi, {})
  {
    var failed, joins, pending, tally := JoinChunk(candidates, lo, hi, d.joins, d.flushed, d.pending, d.tally);
    d' := Drain(joins, d.flushed, pending, d.updated, tally, Max(d.peak, |pending|));
    if failed {
      return Some(LookupPanicked), d';
    }
    error := None;
    if |pending| >= UPDATE_FLUSH_SIZE {
      var flushed, updated;
      failed, flushed, updated := Flush(db, joins, d.flushed, pending, d.updated, before, since);
      if failed {
        return Some(FlushFailed), d';
      }
      d' := d'.(flushed := flushed, updated := updated, pending := []);
    }
  }

  method RunSentryChecks(db: ScaleStore, candidates: seq<Uuid>)
      returns (r: Result<Summary, RunError>, joins: seq<SentryJoin>, flushed: seq<seq<Update<Scales>>>, peak: nat)
    modifies db
    ensures JoinsFit(candidates, joins) && FlushShape(flushed, 200, 204) && peak <= 204
    ensures old(db.clock) <= db.clock && Stamped(old(db.rows), db.rows, Flatten(flushed), old(db.clock))
    ensures r.Err? ==> Flatten(flushed) <= Resolved(joins)
    ensures r.Ok? ==> Flatten(flushed) == Resolved(joins) && |joins| == |candidates|
    ensures r.Ok? ==>
      r.value == Summary(TallyOf(joins).matched, TallyOf(joins).errored, Affected(flushed, old(db.rows).Keys))
  {
    NothingWritten(db.rows, db.clock);
    var d := Drain([], [], [], 0, Tally(0, 0), 0);
    var lo, error := 0, None;
    while lo < |candidates| && error.None?
      invariant lo <= |candidates| && (lo < |candidates| ==> lo % LOOKUP_CONCURRENCY == 0)
      invariant error.None? ==> |d.pending| < UPDATE_FLUSH_SIZE && Pool(d.joins, lo, {})
      invariant old(db.clock) <= db.clock && Drained(candidates, d, old(db.rows), db.rows, old(db.clock))
    {
      NextChunk(lo, |candidates|);
      var hi := Min(|candidates|, lo + LOOKUP_CONCURRENCY);
      error, d := Turn(db, candidates, lo, hi, d, old(db.rows), old(db.clock));
      lo := hi;
    }
    joins, flushed, peak := d.joins, d.flushed, d.peak;
    if error.Some? {
      return Err(error.value), joins, flushed, peak;
    }
    var failed, updated;
    failed, flushed, updated := Flush(db, joins, flushed, d.pending, d.updated, old(db.rows), old(db.clock));
    if failed {
      return Err(FlushFailed), joins, flushed, peak;
    }
    r := Ok(Summary(d.tally.matched, d.tally.errored, updated));
  }

  /** A run that returns Ok leaves as candidates exactly the lookups that failed. */
  lemma NextRunIsTheUnresolved(before: ScaleRows, after: ScaleRows, joins: seq<SentryJoin>,
        flushed: seq<seq<Update<Scales>>>,
        since: int, staleBefore: int)
    requires Stamped(before, after, Flatten(flushed), since) && staleBefore <= since
    requires Flatten(flushed) == Resolved(joins)
    ensures CandidateIds(after, staleBefore) == CandidateIds(before, staleBefore) - ResolvedIds(joins)
  {
    FlushedIdsLeave(before, after, Flatten(flushed), since, staleBefore);
    ResolvedIdsAreFlushed(joins);
  }

  /** The summary counts the lookups that found scales and those that failed. */
  lemma SummaryMeans(joins: seq<SentryJoin>)
    ensures
      var tally := TallyOf(joins);
      && tally.matched == |set k: nat | k < |joins| && joins[k].outcome.Found?|
      && tally.errored == |set k: nat | k < |joins| && joins[k].outcome.LookupFailed?|
  {
    CountIs(Matched, joins);
    CountIs(Errored, joins);
    assert Those(Matched, joins) == set k: nat | k < |joins| && joins[k].outcome.Found?;
    assert Those(Errored, joins) == set k: nat | k < |joins| && joins[k].outcome.LookupFailed?;
  }

  /** Join `k` belongs to the chunk of five that `k` falls in: nothing of a chunk is joined before all of
      the chunk before it. */
  lemma ChunksOfFive(candidates: seq<Uuid>, joins: seq<SentryJoin>, k: nat)
    requires JoinsFit(candidates, joins) && k < |joins|
    ensures joins[k].slot < |candidates| && joins[k].slot / 5 == k / 5 && candidates[joins[k].slot] == joins[k].id
  {
    assert JoinFits(candidates, joins, k);
  }

  lemma JoinedOnce(candidates: seq<Uuid>, joins: seq<SentryJoin>, k: nat)
    requires JoinsFit(candidates, joins) && Distinct(candidates) && k < |joins|
    ensures IsLast(joins, k)
  {
    forall i | k < i < |joins| ensures joins[i].id != joins[k].id {
      assert JoinFits(candidates, joins, i) && JoinFits(candidates, joins, k);
      assert joins[..i][k].slot == joins[k].slot;
      assert joins[k].slot in Slots(joins[..i]);
    }
  }

  /** A run that flushed everything wrote the scales each lookup found, or none where the object is not on
      the risk list, to the rows that exist; where a lookup failed the row is as it was. */
  lemma RunWrites(candidates: seq<Uuid>, joins: seq<SentryJoin>, flushed: seq<seq<Update<Scales>>>, before: ScaleRows,
        after: ScaleRows, since: int, k: nat)
    requires JoinsFit(candidates, joins) && Distinct(candidates) && k < |joins| && joins[k].id in before
    requires Stamped(before, after, Flatten(flushed), since) && Flatten(flushed) == Resolved(joins)
    ensures
      var id := joins[k].id;
      id in after && after[id].isSentryObject == before[id].isSentryObject &&
      match joins[k].outcome
      case Found(scales) => after[id].scales == Some(scales) && after[id].checkedAt.Some?
      case NotFound => after[id].scales == None && after[id].checkedAt.Some?
      case _ => after[id] == before[id]
  {
    var id := joins[k].id;
    JoinedOnce(candidates, joins, k);
    ResolvedIdsAreFlushed(joins);
    assert IsStamped(before, after, Flatten(flushed), since, id);
    if joins[k].outcome.Found? || joins[k].outcome.NotFound? {
      LastFoundIsTheOutcome(joins, k);
    } else {
      forall i | 0 <= i < |joins| && joins[i].id == id ensures i == k {
        JoinedOnce(candidates, joins, i);
      }
      assert id !in ResolvedIds(joins);
    }
  }
}
