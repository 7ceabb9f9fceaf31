/** `src/database/retention.rs`: pruning old approaches and the load log. */
module Retention {
  import opened Prelude
  import opened Limits

  /** Rows by id: an approach's date, an event's `started_at`; `alerts` holds the approach of each alert. */
  datatype Store = Store(approaches: map<nat, int>, alerts: map<nat, nat>, events: map<nat, int>)

  datatype Cutoffs = Cutoffs(approach: int, event: int, keepMin: nat)

  datatype PruneResult = PruneResult(approaches: nat, events: nat)

  datatype DbError = StatementFailed

  /** `approach_cutoff` and `etl_event_cutoff` at the moment `now`, in days and in seconds. */
  function CutoffsAt(today: int, now: int, approachYears: nat, eventDays: nat, keepMin: nat): Cutoffs {
    Cutoffs(today - approachYears * 365, now - eventDays * 86400, keepMin)
  }

  function StartedLast(events: map<nat, int>): nat -> int {
    id => if id in events then -events[id] else 0
  }

  /** A possible answer of `SELECT id ... ORDER BY started_at DESC LIMIT keep_min`. */
  ghost predicate Recent(events: map<nat, int>, keepMin: nat, recent: set<nat>) {
    Leads(events.Keys, StartedLast(events), keepMin, recent)
  }

  function OldApproaches(approaches: map<nat, int>, cutoff: int): set<nat> {
    set id | id in approaches && approaches[id] < cutoff
  }

  function Fresh(events: map<nat, int>, cutoff: int): set<nat> {
    set id | id in events && cutoff <= events[id]
  }

  function Prunable(events: map<nat, int>, cutoff: int, recent: set<nat>): set<nat> {
    set id | id in events && events[id] < cutoff && id !in recent
  }

  function CountPrunable(s: Store, c: Cutoffs, recent: set<nat>): PruneResult {
    PruneResult(|OldApproaches(s.approaches, c.approach)|, |Prunable(s.events, c.event, recent)|)
  }

  /** `DELETE FROM approaches`, which takes the alerts of each deleted approach with it. */
  function WithoutApproaches(s: Store, gone: set<nat>): Store {
    s.(approaches := s.approaches - gone,
       alerts := map a | a in s.alerts && s.alerts[a] !in gone :: s.alerts[a])
  }

  function Pruned(s: Store, c: Cutoffs, recent: set<nat>): Store {
    var t := WithoutApproaches(s, OldApproaches(s.approaches, c.approach));
    t.(events := s.events - Prunable(s.events, c.event, recent))
  }

  class RetentionRepository {
    var store: Store

    constructor (s: Store)
      ensures store == s
    {
      store := s;
    }

    /** Two statements, no transaction; `recent` is what the subquery returned, and either
        statement may fail. */
    method Prune(c: Cutoffs, recent: set<nat>, firstFails: bool, secondFails: bool)
        returns (r: Result<PruneResult, DbError>)
      modifies this
      ensures r.Ok? <==> !firstFails && !secondFails
      ensures r.Ok? ==> store == Pruned(old(store), c, recent) && r.value == CountPrunable(old(store), c, recent)
      ensures firstFails ==> store == old(store)
      ensures !firstFails && secondFails ==>
        store == WithoutApproaches(old(store), OldApproaches(old(store).approaches, c.approach))
    {
      if firstFails {
        return Err(StatementFailed);
      }
      var expired := OldApproaches(store.approaches, c.approach);
      store := WithoutApproaches(store, expired);
      if secondFails {
        return Err(StatementFailed);
      }
      var prunable := Prunable(store.events, c.event, recent);
      store := store.(events := store.events - prunable);
      r := Ok(PruneResult(|expired|, |prunable|));
    }
  }

  /** The rows kept for being recent and the rows kept for being fresh are nested, one way or the
      other: that is what makes the outcome independent of how ties are cut. */
  lemma FreshAndRecentNest(events: map<nat, int>, cutoff: int, keepMin: nat, recent: set<nat>)
    requires Recent(events, keepMin, recent)
    ensures recent <= Fresh(events, cutoff) || Fresh(events, cutoff) <= recent
  {
    var young := Fresh(events, cutoff);
    if !(young <= recent) {
      var f :| f in young && f !in recent;
      forall r | r in recent ensures r in young {
        assert StartedLast(events)(r) <= StartedLast(events)(f);
      }
    }
  }

  /** However the LIMIT cuts ties, exactly `max(#fresh, min(n, keep_min))` events remain, no fresh
      one is deleted, and the most recent `keep_min` survive. */
  lemma PruneLeaves(s: Store, c: Cutoffs, recent: set<nat>)
    requires Recent(s.events, c.keepMin, recent)
    ensures
      var kept := Pruned(s, c, recent).events;
      && |kept| == Max(|Fresh(s.events, c.event)|, Min(|s.events|, c.keepMin))
      && Fresh(s.events, c.event) <= kept.Keys && recent <= kept.Keys
      && forall id :: id in kept ==> kept[id] == s.events[id]
  {
    var young := Fresh(s.events, c.event);
    var kept := Pruned(s, c, recent).events;
    assert kept.Keys == young + recent;
    FreshAndRecentNest(s.events, c.event, c.keepMin, recent);
    assert |s.events.Keys| == |s.events| && |kept.Keys| == |kept|;
    if recent <= young {
      assert young + recent == young;
      SubsetSize(recent, young);
    } else {
      assert young + recent == recent;
      SubsetSize(young, recent);
    }
  }

  /** The dry run and the deletion report the same numbers for the same cutoffs, even when their
      two subqueries cut ties differently. */
  lemma CountMatchesPrune(s: Store, c: Cutoffs, counted: set<nat>, deleted: set<nat>)
    requires Recent(s.events, c.keepMin, counted) && Recent(s.events, c.keepMin, deleted)
    ensures CountPrunable(s, c, counted) == CountPrunable(s, c, deleted)
    ensures CountPrunable(s, c, deleted).events == |s.events| - |Pruned(s, c, deleted).events|
  {
    DeletedCount(s, c, counted);
    DeletedCount(s, c, deleted);
    PruneLeaves(s, c, counted);
    PruneLeaves(s, c, deleted);
  }

  lemma DeletedCount(s: Store, c: Cutoffs, recent: set<nat>)
    ensures |Prunable(s.events, c.event, recent)| == |s.events| - |Pruned(s, c, recent).events|
  {
    var kept := Pruned(s, c, recent).events;
    var prunable := Prunable(s.events, c.event, recent);
    assert s.events.Keys == kept.Keys + prunable && kept.Keys !! prunable;
    assert |s.events.Keys| == |s.events| && |kept.Keys| == |kept|;
  }

  /** Cutoffs move with the clock. */
  lemma CutoffsAdvance(today: int, now: int, laterToday: int, later: int, approachYears: nat, eventDays: nat,
        keepMin: nat)
    requires today <= laterToday && now <= later
    ensures
      var c := CutoffsAt(today, now, approachYears, eventDays, keepMin);
      var d := CutoffsAt(laterToday, later, approachYears, eventDays, keepMin);
      c.approach <= d.approach && c.event <= d.event && c.keepMin == d.keepMin
  {
  }

  lemma WiderCutoffsPruneMore(s: Store, c: Cutoffs, d: Cutoffs, counted: set<nat>, deleted: set<nat>)
    requires c.approach <= d.approach && c.event <= d.event && c.keepMin == d.keepMin
    requires Recent(s.events, c.keepMin, counted) && Recent(s.events, d.keepMin, deleted)
    ensures CountPrunable(s, c, counted).events <= CountPrunable(s, d, deleted).events
    ensures CountPrunable(s, c, counted).approaches <= CountPrunable(s, d, deleted).approaches
  {
    DeletedCount(s, c, counted);
    DeletedCount(s, d, deleted);
    PruneLeaves(s, c, counted);
    PruneLeaves(s, d, deleted);
    SubsetSize(Fresh(s.events, d.event), Fresh(s.events, c.event));
    SubsetSize(OldApproaches(s.approaches, c.approach), OldApproaches(s.approaches, d.approach));
  }

  /** A dry run is a lower bound on what a later prune of the same tables deletes: each computes its
      own cutoffs from the clock, and the limits may cut ties differently. */
  lemma LaterPruneDeletesNoFewer(
        s: Store, today: int, now: int, laterToday: int, later: int, approachYears: nat, eventDays: nat, keepMin: nat,
        counted: set<nat>, deleted: set<nat>)
    requires today <= laterToday && now <= later
    requires Recent(s.events, keepMin, counted) && Recent(s.events, keepMin, deleted)
    ensures
      var dry := CountPrunable(s, CutoffsAt(today, now, approachYears, eventDays, keepMin), counted);
      var pruned := CountPrunable(s, CutoffsAt(laterToday, later, approachYears, eventDays, keepMin), deleted);
      dry.approaches <= pruned.approaches && dry.events <= pruned.events
  {
    CutoffsAdvance(today, now, laterToday, later, approachYears, eventDays, keepMin);
    WiderCutoffsPruneMore(
      s, CutoffsAt(today, now, approachYears, eventDays, keepMin),
      CutoffsAt(laterToday, later, approachYears, eventDays, keepMin), counted, deleted);
  }

  lemma NothingToPrune(s: Store, c: Cutoffs, recent: set<nat>)
    requires OldApproaches(s.approaches, c.approach) == {} && Prunable(s.events, c.event, recent) == {}
    ensures Pruned(s, c, recent) == s && CountPrunable(s, c, recent) == PruneResult(0, 0)
  {
    assert WithoutApproaches(s, {}) == s;
    assert s.events - {} == s.events;
  }

  lemma FreshStay(s: Store, c: Cutoffs, recent: set<nat>)
    requires Recent(s.events, c.keepMin, recent)
    ensures Fresh(Pruned(s, c, recent).events, c.event) == Fresh(s.events, c.event)
  {
    PruneLeaves(s, c, recent);
  }

  lemma NoEventLeftToPrune(s: Store, c: Cutoffs, recent: set<nat>, again: set<nat>)
    requires Recent(s.events, c.keepMin, recent) && Recent(Pruned(s, c, recent).events, c.keepMin, again)
    ensures Prunable(Pruned(s, c, recent).events, c.event, again) == {}
  {
    var t := Pruned(s, c, recent);
    PruneLeaves(s, c, recent);
    PruneLeaves(t, c, again);
    DeletedCount(t, c, again);
    FreshStay(s, c, recent);
    assert |Prunable(t.events, c.event, again)| == 0;
  }

  /** Pruning again with the same cutoffs deletes nothing, again whatever ties do. */
  lemma SecondPruneDeletesNothing(s: Store, c: Cutoffs, recent: set<nat>, again: set<nat>)
    requires Recent(s.events, c.keepMin, recent) && Recent(Pruned(s, c, recent).events, c.keepMin, again)
    ensures Pruned(Pruned(s, c, recent), c, again) == Pruned(s, c, recent)
    ensures CountPrunable(Pruned(s, c, recent), c, again) == PruneResult(0, 0)
  {
    NoEventLeftToPrune(s, c, recent, again);
    NothingToPrune(Pruned(s, c, recent), c, again);
  }

  /** Every alert belongs to an approach that exists. */
  predicate AlertsAttached(s: Store) {
    forall a :: a in s.alerts ==> s.alerts[a] in s.approaches
  }

  /** Exactly the approaches before the cutoff go, and exactly their alerts with them. */
  lemma ApproachesPruned(s: Store, c: Cutoffs, recent: set<nat>)
    requires AlertsAttached(s)
    ensures
      var t := Pruned(s, c, recent);
      && AlertsAttached(t)
      && (forall id :: id in t.approaches <==> id in s.approaches && c.approach <= s.approaches[id])
      && (forall a :: a in t.alerts <==> a in s.alerts && c.approach <= s.approaches[s.alerts[a]])
      && |t.approaches| == |s.approaches| - CountPrunable(s, c, recent).approaches
  {
    var t := Pruned(s, c, recent);
    var gone := OldApproaches(s.approaches, c.approach);
    assert s.approaches.Keys == t.approaches.Keys + gone && t.approaches.Keys !! gone;
    assert |s.approaches.Keys| == |s.approaches| && |t.approaches.Keys| == |t.approaches|;
  }

  /** What a prune on a given day deletes, in days and seconds: an approach goes exactly if it lies more than
      `approachYears` years of 365 days back, and an event exactly if it started more than `eventDays` days
      ago and is not among the `keepMin` most recent. */
  lemma PrunedByAge(s: Store, today: int, now: int, approachYears: nat, eventDays: nat, keepMin: nat, recent: set<nat>,
        id: nat)
    requires Recent(s.events, keepMin, recent)
    ensures
      var t := Pruned(s, CutoffsAt(today, now, approachYears, eventDays, keepMin), recent);
      && (id in s.approaches ==> (id !in t.approaches <==> today - s.approaches[id] > 365 * approachYears))
      && (id in s.events ==> (id !in t.events <==> now - s.events[id] > 86400 * eventDays && id !in recent))
  {
  }
}
