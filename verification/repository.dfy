/** `src/database/repository.rs`: the batch upsert, one transaction over two tables. */
module Repository {
  import opened Prelude

  /** UUIDs by origin. Version 5 identifiers are injective in what they are derived from. */
  datatype Uuid =
    | AsteroidV5(neo: string)
    | ApproachV5(neoOf: string, epoch: int)
    | RandomV4(n: nat)

  datatype AsteroidFacts = AsteroidFacts(
    name: string, magnitude: real, diameterMin: real, diameterMax: real,
    hazardous: bool, sentryObject: bool, url: string, updatedAt: int)

  datatype Asteroid = Asteroid(id: Uuid, neo: string, facts: AsteroidFacts, createdAt: int)

  datatype ApproachFacts = ApproachFacts(date: int, velocity: real, miss: real, body: string, hazard: string,
        createdAt: int)

  datatype Approach = Approach(id: Uuid, asteroidId: Uuid, epoch: int, facts: ApproachFacts)

  /** One line of a transformed file. */
  datatype Record = Record(asteroid: Asteroid, approaches: seq<Approach>)

  /** Columns the upsert never writes; NULL on a new row. */
  datatype SentryColumns = SentryColumns(torino: Option<int>, palermo: Option<real>, checkedAt: Option<int>)

  datatype AsteroidRow = AsteroidRow(id: Uuid, facts: AsteroidFacts, createdAt: int, sentry: SentryColumns)

  datatype ApproachRow = ApproachRow(id: Uuid, facts: ApproachFacts)

  type AsteroidTable = map<string, AsteroidRow>

  /** Unique on (asteroid_id, epoch_date_close_approach). */
  type ApproachKey = (Uuid, int)

  type ApproachTable = map<ApproachKey, ApproachRow>

  datatype Tables = Tables(asteroids: AsteroidTable, approaches: ApproachTable)

  datatype DbError =
    | RowAffectedTwice   // ON CONFLICT DO UPDATE meets a row its own command already wrote
    | IdTaken            // a primary key already in use under another natural key
    | NoSuchAsteroid     // foreign key
    | ConnectionLost     // or any other failure that is not the batch's own doing

  function NewRow(a: Asteroid): AsteroidRow {
    AsteroidRow(a.id, a.facts, a.createdAt, SentryColumns(None, None, None))
  }

  function KeyOf(p: Approach): ApproachKey {
    (p.asteroidId, p.epoch)
  }

  // ----- The two statements, row by row -----

  predicate IdInUse(t: AsteroidTable, id: Uuid) {
    exists n :: n in t && t[n].id == id
  }

  predicate ApproachIdInUse(t: ApproachTable, id: Uuid) {
    exists k :: k in t && t[k].id == id
  }

  /** `INSERT INTO asteroids ... ON CONFLICT (neo_reference_id) DO UPDATE`, with the natural
      keys this command has already written. */
  function UpsertAsteroid(t: AsteroidTable, written: set<string>, a: Asteroid): Result<AsteroidTable, DbError> {
    if a.neo in t then
      if a.neo in written then Err(RowAffectedTwice) else Ok(t[a.neo := t[a.neo].(facts := a.facts)])
    else if IdInUse(t, a.id) then Err(IdTaken)
    else Ok(t[a.neo := NewRow(a)])
  }

  function UpsertAsteroids(t: AsteroidTable, written: set<string>, rs: seq<Record>): Result<AsteroidTable, DbError>
    decreases |rs|
  {
    if rs == [] then Ok(t)
    else
      var a := rs[0].asteroid;
      var next := UpsertAsteroid(t, written, a);
      if next.Err? then next else UpsertAsteroids(next.value, written + {a.neo}, rs[1..])
  }

  /** `INSERT INTO approaches ... ON CONFLICT (asteroid_id, epoch) DO NOTHING`. */
  function InsertApproach(t: ApproachTable, asteroids: AsteroidTable, p: Approach): Result<ApproachTable, DbError> {
    if KeyOf(p) in t then Ok(t)
    else if ApproachIdInUse(t, p.id) then Err(IdTaken)
    else if !IdInUse(asteroids, p.asteroidId) then Err(NoSuchAsteroid)
    else Ok(t[KeyOf(p) := ApproachRow(p.id, p.facts)])
  }

  function InsertApproaches(t: ApproachTable, asteroids: AsteroidTable, ps: seq<Approach>)
      : Result<ApproachTable, DbError>
    decreases |ps|
  {
    if ps == [] then Ok(t)
    else
      var next := InsertApproach(t, asteroids, ps[0]);
      if next.Err? then next else InsertApproaches(next.value, asteroids, ps[1..])
  }

  function AllApproaches(rs: seq<Record>): seq<Approach> {
    if rs == [] then [] else rs[0].approaches + AllApproaches(rs[1..])
  }

  /** Both statements, or neither. */
  function ApplyBatch(t: Tables, batch: seq<Record>): Result<Tables, DbError> {
    var asteroids := UpsertAsteroids(t.asteroids, {}, batch);
    if asteroids.Err? then Err(asteroids.error)
    else
      var approaches := InsertApproaches(t.approaches, asteroids.value, AllApproaches(batch));
      if approaches.Err? then Err(approaches.error) else Ok(Tables(asteroids.value, approaches.value))
  }

  /** The four counters: rows the tables grew by, and the rest of what was offered. */
  datatype UpsertStats = UpsertStats(
    asteroidsInserted: int, asteroidsUpdated: int, approachesInserted: int, approachesSkipped: int)
  {
    function Plus(o: UpsertStats): UpsertStats {
      UpsertStats(
        asteroidsInserted + o.asteroidsInserted, asteroidsUpdated + o.asteroidsUpdated,
        approachesInserted + o.approachesInserted, approachesSkipped + o.approachesSkipped)
    }
  }

  function Growth(before: Tables, after: Tables, rs: seq<Record>): UpsertStats {
    var asteroids := |after.asteroids| - |before.asteroids|;
    var approaches := |after.approaches| - |before.approaches|;
    UpsertStats(asteroids, |rs| - asteroids, approaches, |AllApproaches(rs)| - approaches)
  }

  /** Ids of the records whose asteroid was not in the table, in file order. */
  function NewIds(t: AsteroidTable, rs: seq<Record>): seq<Uuid> {
    if rs == [] then []
    else (if rs[0].asteroid.neo in t then [] else [rs[0].asteroid.id]) + NewIds(t, rs[1..])
  }

  /** The connection during one transaction: a loss may come before the commit took effect, or after
      it, when only the answer is lost. Both are reported as an error. */
  datatype Link = Up | LostBefore | LostAfter

  /** A failed transaction leaves the tables as they were. */
  function AfterBatch(t: Tables, batch: seq<Record>, link: Link): Tables {
    if link != LostBefore && ApplyBatch(t, batch).Ok? then ApplyBatch(t, batch).value else t
  }

  // ----- What a batch announces -----

  /** An approach as a record offers it, with its asteroid's name. */
  datatype Offer = Offer(name: string, approach: Approach)

  function OffersOf(name: string, ps: seq<Approach>): seq<Offer> {
    seq(|ps|, i requires 0 <= i < |ps| => Offer(name, ps[i]))
  }

  function Offers(rs: seq<Record>): seq<Offer> {
    if rs == [] then [] else OffersOf(rs[0].asteroid.facts.name, rs[0].approaches) + Offers(rs[1..])
  }

  function LastOffer(os: seq<Offer>, id: Uuid): Option<Offer> {
    if os == [] then None
    else if os[|os| - 1].approach.id == id then Some(os[|os| - 1])
    else LastOffer(os[..|os| - 1], id)
  }

  /** The ids the second statement returns: one for each approach whose key is in neither the table nor an
      earlier row of the statement. */
  function NewApproachIds(t: ApproachTable, ps: seq<Approach>): seq<Uuid>
    decreases |ps|
  {
    if ps == [] then []
    else if KeyOf(ps[0]) in t then NewApproachIds(t, ps[1..])
    else [ps[0].id] + NewApproachIds(t[KeyOf(ps[0]) := ApproachRow(ps[0].id, ps[0].facts)], ps[1..])
  }

  /** Its time stamp is left out. */
  datatype HazardEvent = HazardEvent(approachId: Uuid, asteroidName: string, hazard: string)

  predicate Notable(hazard: string) {
    hazard == "Critical" || hazard == "High"
  }

  function EventFor(o: Option<Offer>, id: Uuid): seq<HazardEvent> {
    if o.Some? && Notable(o.value.approach.facts.hazard)
    then [HazardEvent(id, o.value.name, o.value.approach.facts.hazard)] else []
  }

  /** One event for each new id whose last offer is notable. */
  function EventsFor(os: seq<Offer>, ids: seq<Uuid>): seq<HazardEvent> {
    if ids == [] then [] else EventFor(LastOffer(os, ids[0]), ids[0]) + EventsFor(os, ids[1..])
  }

  function HazardEvents(t: ApproachTable, batch: seq<Record>): seq<HazardEvent> {
    EventsFor(Offers(batch), NewApproachIds(t, AllApproaches(batch)))
  }

  datatype BatchStats = BatchStats(counts: UpsertStats, newIds: seq<Uuid>, hazardEvents: seq<HazardEvent>)

  function BatchReport(t: Tables, batch: seq<Record>, link: Link): Result<BatchStats, DbError> {
    var after := ApplyBatch(t, batch);
    if link != Up then Err(ConnectionLost)
    else if after.Err? then Err(after.error)
    else Ok(BatchStats(Growth(t, after.value, batch), NewIds(t.asteroids, batch), HazardEvents(t.approaches, batch)))
  }

  class Database {
    var asteroids: AsteroidTable
    var approaches: ApproachTable

    constructor (t: Tables)
      ensures Contents() == t
    {
      asteroids, approaches := t.asteroids, t.approaches;
    }

    function Contents(): Tables
      reads this
    {
      Tables(asteroids, approaches)
    }

    /** Commits the whole batch and reports it, or fails and leaves both tables as they were. */
    method UpsertBatch(batch: seq<Record>, link: Link) returns (r: Result<BatchStats, DbError>)
      modifies this
      ensures Contents() == AfterBatch(old(Contents()), batch, link)
      ensures r == BatchReport(old(Contents()), batch, link)
    {
      if link == LostBefore {
        return Err(ConnectionLost);
      }
      var rows, incoming, metas := Unnest(batch);
      var first := RunUpsert(asteroids, rows);
      if first.Err? {
        return Err(if link == Up then first.error else ConnectionLost);
      }
      var second := RunInsert(approaches, first.value.0, incoming);
      if second.Err? {
        return Err(if link == Up then second.error else ConnectionLost);
      }
      var committed := Tables(first.value.0, second.value.0);
      var inserted, arrived := first.value.1, second.value.1;
      var stats := UpsertStats(|inserted|, |rows| - |inserted|, |arrived|, |incoming| - |arrived|);
      var events := Announce(metas, arrived, Offers(batch));
      ghost var before := Contents();
      assert ApplyBatch(before, batch) == Ok(committed);
      assert Growth(before, committed, batch) == stats;
      asteroids, approaches := committed.asteroids, committed.approaches;
      return if link == Up then Ok(BatchStats(stats, inserted, events)) else Err(ConnectionLost);
    }
  }

  /** Name and class by approach id. */
  type Metas = map<Uuid, (string, string)>

  function MetaOf(o: Offer): (string, string) {
    (o.name, o.approach.facts.hazard)
  }

  /** The map holds the last offer of each id. */
  ghost predicate Knows(metas: Metas, os: seq<Offer>) {
    forall id :: KnowsId(metas, os, id)
  }

  ghost predicate KnowsId(metas: Metas, os: seq<Offer>, id: Uuid) {
    var o := LastOffer(os, id);
    (id in metas <==> o.Some?) && (id in metas ==> metas[id] == MetaOf(o.value))
  }

  lemma KnowsOneMore(metas: Metas, os: seq<Offer>, o: Offer)
    requires Knows(metas, os)
    ensures Knows(metas[o.approach.id := MetaOf(o)], os + [o])
  {
    var more, all := metas[o.approach.id := MetaOf(o)], os + [o];
    assert all[..|os|] == os;
    forall id ensures KnowsId(more, all, id) {
      assert KnowsId(metas, os, id);
    }
  }

  method AddMetas(metas: Metas, name: string, ps: seq<Approach>, ghost os: seq<Offer>) returns (more: Metas)
    requires Knows(metas, os)
    ensures Knows(more, os + OffersOf(name, ps))
  {
    more := metas;
    assert os + OffersOf(name, ps[..0]) == os;
    for i := 0 to |ps|
      invariant Knows(more, os + OffersOf(name, ps[..i]))
    {
      KnowsOneMore(more, os + OffersOf(name, ps[..i]), Offer(name, ps[i]));
      assert os + OffersOf(name, ps[..i]) + [Offer(name, ps[i])] == os + OffersOf(name, ps[..i + 1]);
      more := more[ps[i].id := (name, ps[i].facts.hazard)];
    }
    assert ps[..|ps|] == ps;
  }

  /** The arrays both statements are fed from, and what is remembered of each approach. */
  method Unnest(batch: seq<Record>) returns (rows: seq<Record>, incoming: seq<Approach>, metas: Metas)
    ensures rows == batch && incoming == AllApproaches(batch)
    ensures Knows(metas, Offers(batch))
  {
    rows, incoming, metas := [], [], map[];
    ghost var os: seq<Offer> := [];
    var i := 0;
    while i < |batch|
      invariant 0 <= i <= |batch| && rows == batch[..i]
      invariant AllApproaches(batch) == incoming + AllApproaches(batch[i..])
      invariant Offers(batch) == os + Offers(batch[i..]) && Knows(metas, os)
    {
      var name, ps := batch[i].asteroid.facts.name, batch[i].approaches;
      UnnestStep(batch, incoming, os, i);
      rows, incoming := rows + [batch[i]], incoming + ps;
      metas := AddMetas(metas, name, ps, os);
      os := os + OffersOf(name, ps);
      i := i + 1;
    }
    assert batch[i..] == [] && incoming + [] == incoming && os + [] == os;
  }

  lemma UnnestStep(batch: seq<Record>, incoming: seq<Approach>, os: seq<Offer>, i: nat)
    requires i < |batch|
    ensures
      var name, ps := batch[i].asteroid.facts.name, batch[i].approaches;
      && batch[..i + 1] == batch[..i] + [batch[i]]
      && incoming + AllApproaches(batch[i..]) == incoming + ps + AllApproaches(batch[i + 1..])
      && os + Offers(batch[i..]) == os + OffersOf(name, ps) + Offers(batch[i + 1..])
  {
    assert batch[i..][0] == batch[i] && batch[i..][1..] == batch[i + 1..];
  }

  lemma EventsStep(os: seq<Offer>, ids: seq<Uuid>, events: seq<HazardEvent>, i: nat)
    requires i < |ids|
    ensures events + EventsFor(os, ids[i..])
      == events + EventFor(LastOffer(os, ids[i]), ids[i]) + EventsFor(os, ids[i + 1..])
  {
    assert ids[i..][0] == ids[i] && ids[i..][1..] == ids[i + 1..];
  }

  /** What is left of the map still knows every id from the `i`-th on. */
  ghost predicate StillKnows(left: Metas, metas: Metas, ids: seq<Uuid>, i: nat) {
    forall k :: i <= k < |ids| ==> SameMeta(left, metas, ids[k])
  }

  ghost predicate SameMeta(left: Metas, metas: Metas, id: Uuid) {
    (id in left <==> id in metas) && (id in left ==> left[id] == metas[id])
  }

  lemma TakenOut(left: Metas, metas: Metas, ids: seq<Uuid>, i: nat)
    requires i < |ids| && Distinct(ids) && StillKnows(left, metas, ids, i)
    ensures StillKnows(left - {ids[i]}, metas, ids, i + 1)
  {
    forall k | i + 1 <= k < |ids| ensures SameMeta(left - {ids[i]}, metas, ids[k]) {
      assert SameMeta(left, metas, ids[k]) && ids[k] != ids[i];
    }
  }

  /** `filter_map` over the returned ids; each looks its approach up and takes it out. */
  method Announce(metas: Metas, ids: seq<Uuid>, ghost os: seq<Offer>) returns (events: seq<HazardEvent>)
    requires Knows(metas, os) && Distinct(ids)
    ensures events == EventsFor(os, ids)
  {
    events := [];
    var left, i := metas, 0;
    while i < |ids|
      invariant 0 <= i <= |ids| && StillKnows(left, metas, ids, i)
      invariant EventsFor(os, ids) == events + EventsFor(os, ids[i..])
    {
      var event := [];
      assert KnowsId(metas, os, ids[i]) && SameMeta(left, metas, ids[i]);
      if ids[i] in left {
        var (name, hazard) := left[ids[i]];
        if hazard == "Critical" || hazard == "High" {
          event := [HazardEvent(ids[i], name, hazard)];
        }
      }
      assert event == EventFor(LastOffer(os, ids[i]), ids[i]);
      EventsStep(os, ids, events, i);
      TakenOut(left, metas, ids, i);
      left, events, i := left - {ids[i]}, events + event, i + 1;
    }
    assert ids[i..] == [];
  }

  /** The first statement and its `RETURNING id, (xmax = 0)`: the ids of the new rows. */
  method RunUpsert(t: AsteroidTable, rows: seq<Record>) returns (r: Result<(AsteroidTable, seq<Uuid>), DbError>)
    ensures r.Ok? ==> UpsertAsteroids(t, {}, rows) == Ok(r.value.0)
    ensures r.Ok? ==> r.value.1 == NewIds(t, rows) && |r.value.0| == |t| + |r.value.1|
    ensures r.Err? ==> UpsertAsteroids(t, {}, rows) == Err(r.error)
  {
    var a, written, inserted, i := t, {}, [], 0;
    while i < |rows|
      invariant 0 <= i <= |rows|
      invariant UpsertAsteroids(t, {}, rows) == UpsertAsteroids(a, written, rows[i..])
      invariant a.Keys == t.Keys + written
      invariant NewIds(t, rows) == inserted + NewIds(t, rows[i..])
    {
      var row := rows[i].asteroid;
      NewIdsStep(t, inserted, rows, i);
      UpsertStep(t, a, written, rows, i);
      var next := UpsertAsteroid(a, written, row);
      if next.Err? {
        return Err(next.error);
      }
      if row.neo !in a {
        inserted := inserted + [row.id];
      }
      a, written := next.value, written + {row.neo};
      i := i + 1;
    }
    assert rows[i..] == [];
    UpsertGrowth(t, t, {}, rows);
    return Ok((a, inserted));
  }

  /** The second statement and its `RETURNING id`: an id for each row the table grew by, none twice. */
  method RunInsert(t: ApproachTable, asteroids: AsteroidTable, ps: seq<Approach>)
      returns (r: Result<(ApproachTable, seq<Uuid>), DbError>)
    ensures r.Ok? ==> InsertApproaches(t, asteroids, ps) == Ok(r.value.0)
    ensures r.Ok? ==> r.value.1 == NewApproachIds(t, ps) && Distinct(r.value.1) && |r.value.0| == |t| + |r.value.1|
    ensures r.Err? ==> InsertApproaches(t, asteroids, ps) == Err(r.error)
  {
    var p, arrived, i := t, [], 0;
    while i < |ps|
      invariant 0 <= i <= |ps|
      invariant InsertApproaches(t, asteroids, ps) == InsertApproaches(p, asteroids, ps[i..])
      invariant NewApproachIds(t, ps) == arrived + NewApproachIds(p, ps[i..])
      invariant Arrived(t, p, arrived)
    {
      InsertStep(p, asteroids, ps, arrived, i);
      var next := InsertApproach(p, asteroids, ps[i]);
      if next.Err? {
        return Err(next.error);
      }
      ArrivedStep(t, p, asteroids, ps[i], arrived);
      if KeyOf(ps[i]) !in p {
        arrived := arrived + [ps[i].id];
      }
      p := next.value;
      i := i + 1;
    }
    assert ps[i..] == [];
    return Ok((p, arrived));
  }

  /** The table grew by one row for each id, and no id is there twice. */
  ghost predicate Arrived(t: ApproachTable, p: ApproachTable, arrived: seq<Uuid>) {
    && |p| == |t| + |arrived| && Distinct(arrived)
    && forall id :: id in arrived ==> ApproachIdInUse(p, id)
  }

  lemma ArrivedStep(t: ApproachTable, p: ApproachTable, asteroids: AsteroidTable, row: Approach, arrived: seq<Uuid>)
    requires Arrived(t, p, arrived) && InsertApproach(p, asteroids, row).Ok?
    ensures Arrived(t, InsertApproach(p, asteroids, row).value,
      if KeyOf(row) in p then arrived else arrived + [row.id])
  {
    if KeyOf(row) !in p {
      var next := InsertApproach(p, asteroids, row).value;
      assert row.id !in arrived && next[KeyOf(row)].id == row.id;
      forall id | id in arrived ensures ApproachIdInUse(next, id) {
        var k :| k in p && p[k].id == id;
        assert next[k].id == id;
      }
    }
  }

  lemma InsertStep(p: ApproachTable, asteroids: AsteroidTable, ps: seq<Approach>, arrived: seq<Uuid>, i: nat)
    requires i < |ps|
    ensures
      var next := InsertApproach(p, asteroids, ps[i]);
      && InsertApproaches(p, asteroids, ps[i..])
         == (if next.Err? then next else InsertApproaches(next.value, asteroids, ps[i + 1..]))
      && (next.Ok? ==>
            arrived + NewApproachIds(p, ps[i..])
            == (if KeyOf(ps[i]) in p then arrived else arrived + [ps[i].id])
               + NewApproachIds(next.value, ps[i + 1..]))
  {
    assert ps[i..][0] == ps[i] && ps[i..][1..] == ps[i + 1..];
  }

  lemma NewIdsStep(t: AsteroidTable, inserted: seq<Uuid>, rows: seq<Record>, i: nat)
    requires i < |rows|
    ensures
      var row := rows[i].asteroid;
      inserted + NewIds(t, rows[i..])
      == (if row.neo in t then inserted else inserted + [row.id]) + NewIds(t, rows[i + 1..])
  {
    assert rows[i..][0] == rows[i] && rows[i..][1..] == rows[i + 1..];
  }

  lemma UpsertStep(t: AsteroidTable, a: AsteroidTable, written: set<string>, rows: seq<Record>, i: nat)
    requires i < |rows| && a.Keys == t.Keys + written
    ensures
      var row := rows[i].asteroid;
      var next := UpsertAsteroid(a, written, row);
      && UpsertAsteroids(a, written, rows[i..])
         == (if next.Err? then next else UpsertAsteroids(next.value, written + {row.neo}, rows[i + 1..]))
      && (next.Ok? ==> (row.neo in a <==> row.neo in t))
      && (next.Ok? ==> next.value.Keys == a.Keys + {row.neo})
  {
    assert rows[i..][0] == rows[i] && rows[i..][1..] == rows[i + 1..];
    if UpsertAsteroid(a, written, rows[i].asteroid).Ok? {
      GrowsByOne(a, written, rows[i].asteroid);
    }
  }

  /** Every new row's id is returned, once. */
  lemma {:induction false} UpsertGrowth(t: AsteroidTable, a: AsteroidTable, written: set<string>, rows: seq<Record>)
    requires a.Keys == t.Keys + written && UpsertAsteroids(a, written, rows).Ok?
    ensures |UpsertAsteroids(a, written, rows).value| == |a| + |NewIds(t, rows)|
    decreases |rows|
  {
    if rows != [] {
      var row := rows[0].asteroid;
      UpsertOneGrowth(t, a, written, row);
      UpsertGrowth(t, UpsertAsteroid(a, written, row).value, written + {row.neo}, rows[1..]);
    }
  }

  lemma UpsertOneGrowth(t: AsteroidTable, a: AsteroidTable, written: set<string>, row: Asteroid)
    requires a.Keys == t.Keys + written && UpsertAsteroid(a, written, row).Ok?
    ensures UpsertAsteroid(a, written, row).value.Keys == t.Keys + (written + {row.neo})
    ensures |UpsertAsteroid(a, written, row).value| == |a| + if row.neo in t then 0 else 1
  {
    GrowsByOne(a, written, row);
    assert row.neo !in written;
    assert row.neo in a.Keys <==> row.neo in t.Keys;
    UnionStep(t.Keys, written, row.neo);
  }

  lemma UnionStep(a: set<string>, b: set<string>, x: string)
    ensures a + b + {x} == a + (b + {x})
  {
  }

  lemma GrowsByOne(t: AsteroidTable, written: set<string>, a: Asteroid)
    requires UpsertAsteroid(t, written, a).Ok?
    ensures
      var next := UpsertAsteroid(t, written, a).value;
      next.Keys == t.Keys + {a.neo} && |next| == |t| + if a.neo in t then 0 else 1
  {
    var next := UpsertAsteroid(t, written, a).value;
    assert next.Keys == t.Keys + {a.neo};
    assert |next| == |next.Keys| && |t| == |t.Keys|;
  }

  // ----- What a batch means -----

  function Neos(rs: seq<Record>): set<string> {
    set i | 0 <= i < |rs| :: rs[i].asteroid.neo
  }

  function First(rs: seq<Record>, neo: string): Record
    requires neo in Neos(rs)
  {
    if rs[0].asteroid.neo == neo then rs[0]
    else
      assert neo in Neos(rs[1..]) by { NeosCons(rs); }
      First(rs[1..], neo)
  }

  function Last(rs: seq<Record>, neo: string): Record
    requires neo in Neos(rs)
  {
    NeosCons(rs);
    if neo in Neos(rs[1..]) then Last(rs[1..], neo) else rs[0]
  }

  function ApproachKeys(ps: seq<Approach>): set<ApproachKey> {
    set i | 0 <= i < |ps| :: KeyOf(ps[i])
  }

  function FirstApproach(ps: seq<Approach>, k: ApproachKey): Approach
    requires k in ApproachKeys(ps)
  {
    if KeyOf(ps[0]) == k then ps[0]
    else
      assert k in ApproachKeys(ps[1..]) by { ApproachKeysCons(ps); }
      FirstApproach(ps[1..], k)
  }

  /** Last writer wins for the facts; identity and creation time stay with the first. */
  function WithRecords(t: AsteroidTable, rs: seq<Record>): AsteroidTable {
    map n | n in t.Keys + Neos(rs) :: RowAfter(t, rs, n)
  }

  function RowAfter(t: AsteroidTable, rs: seq<Record>, n: string): AsteroidRow
    requires n in t.Keys + Neos(rs)
  {
    if n !in Neos(rs) then t[n]
    else (if n in t then t[n] else NewRow(First(rs, n).asteroid)).(facts := Last(rs, n).asteroid.facts)
  }

  /** First writer wins. */
  function WithApproaches(t: ApproachTable, ps: seq<Approach>): ApproachTable {
    map k | k in t.Keys + ApproachKeys(ps) :: ApproachAfter(t, ps, k)
  }

  function ApproachAfter(t: ApproachTable, ps: seq<Approach>, k: ApproachKey): ApproachRow
    requires k in t.Keys + ApproachKeys(ps)
  {
    if k in t then t[k]
    else ApproachRow(FirstApproach(ps, k).id, FirstApproach(ps, k).facts)
  }

  function Absorb(t: Tables, rs: seq<Record>): Tables {
    Tables(WithRecords(t.asteroids, rs), WithApproaches(t.approaches, AllApproaches(rs)))
  }

  lemma NeosCons(rs: seq<Record>)
    requires rs != []
    ensures Neos(rs) == {rs[0].asteroid.neo} + Neos(rs[1..])
  {
    var tail := rs[1..];
    forall n | n in Neos(rs) ensures n in {rs[0].asteroid.neo} + Neos(tail) {
      var i :| 0 <= i < |rs| && rs[i].asteroid.neo == n;
      if i > 0 {
        assert tail[i - 1].asteroid.neo == n;
      }
    }
    forall n | n in Neos(tail) ensures n in Neos(rs) {
      var i :| 0 <= i < |tail| && tail[i].asteroid.neo == n;
      assert rs[i + 1].asteroid.neo == n;
    }
  }

  lemma ApproachKeysCons(ps: seq<Approach>)
    requires ps != []
    ensures ApproachKeys(ps) == {KeyOf(ps[0])} + ApproachKeys(ps[1..])
  {
    var tail := ps[1..];
    forall k | k in ApproachKeys(ps) ensures k in {KeyOf(ps[0])} + ApproachKeys(tail) {
      var i :| 0 <= i < |ps| && KeyOf(ps[i]) == k;
      if i > 0 {
        assert KeyOf(tail[i - 1]) == k;
      }
    }
    forall k | k in ApproachKeys(tail) ensures k in ApproachKeys(ps) {
      var i :| 0 <= i < |tail| && KeyOf(tail[i]) == k;
      assert KeyOf(ps[i + 1]) == k;
    }
  }

  lemma {:induction false} NeosConcat(a: seq<Record>, b: seq<Record>)
    ensures Neos(a + b) == Neos(a) + Neos(b)
  {
    if a == [] {
      assert a + b == b;
    } else {
      assert (a + b)[1..] == a[1..] + b;
      NeosCons(a + b);
      NeosCons(a);
      NeosConcat(a[1..], b);
    }
  }

  lemma {:induction false} ApproachKeysConcat(a: seq<Approach>, b: seq<Approach>)
    ensures ApproachKeys(a + b) == ApproachKeys(a) + ApproachKeys(b)
  {
    if a == [] {
      assert a + b == b;
    } else {
      assert (a + b)[1..] == a[1..] + b;
      ApproachKeysCons(a + b);
      ApproachKeysCons(a);
      ApproachKeysConcat(a[1..], b);
    }
  }

  lemma {:induction false} FirstConcat(a: seq<Record>, b: seq<Record>, n: string)
    requires n in Neos(a + b)
    ensures n in Neos(a) || n in Neos(b)
    ensures First(a + b, n) == if n in Neos(a) then First(a, n) else First(b, n)
  {
    NeosConcat(a, b);
    if a == [] {
      assert a + b == b;
    } else {
      assert (a + b)[1..] == a[1..] + b;
      NeosCons(a);
      NeosCons(a + b);
      if a[0].asteroid.neo != n {
        FirstConcat(a[1..], b, n);
      }
    }
  }

  lemma {:induction false} LastConcat(a: seq<Record>, b: seq<Record>, n: string)
    requires n in Neos(a + b)
    ensures n in Neos(a) || n in Neos(b)
    ensures Last(a + b, n) == if n in Neos(b) then Last(b, n) else Last(a, n)
  {
    NeosConcat(a, b);
    if a == [] {
      assert a + b == b;
    } else {
      assert (a + b)[1..] == a[1..] + b;
      NeosCons(a);
      NeosCons(a + b);
      NeosConcat(a[1..], b);
      if n in Neos((a + b)[1..]) {
        LastConcat(a[1..], b, n);
      }
    }
  }

  lemma {:induction false} FirstApproachConcat(a: seq<Approach>, b: seq<Approach>, k: ApproachKey)
    requires k in ApproachKeys(a + b)
    ensures k in ApproachKeys(a) || k in ApproachKeys(b)
    ensures FirstApproach(a + b, k) == if k in ApproachKeys(a) then FirstApproach(a, k) else FirstApproach(b, k)
  {
    ApproachKeysConcat(a, b);
    if a == [] {
      assert a + b == b;
    } else {
      assert (a + b)[1..] == a[1..] + b;
      ApproachKeysCons(a);
      ApproachKeysCons(a + b);
      if KeyOf(a[0]) != k {
        FirstApproachConcat(a[1..], b, k);
      }
    }
  }

  lemma {:induction false} AllApproachesConcat(a: seq<Record>, b: seq<Record>)
    ensures AllApproaches(a + b) == AllApproaches(a) + AllApproaches(b)
  {
    if a == [] {
      assert a + b == b;
    } else {
      assert (a + b)[1..] == a[1..] + b;
      AllApproachesConcat(a[1..], b);
    }
  }

  lemma WithRecordsConcat(t: AsteroidTable, a: seq<Record>, b: seq<Record>)
    ensures WithRecords(WithRecords(t, a), b) == WithRecords(t, a + b)
  {
    NeosConcat(a, b);
    var once, twice := WithRecords(t, a + b), WithRecords(WithRecords(t, a), b);
    assert once.Keys == twice.Keys;
    forall n | n in once ensures once[n] == twice[n] {
      if n in Neos(a + b) {
        FirstConcat(a, b, n);
        LastConcat(a, b, n);
      }
    }
  }

  lemma WithApproachesConcat(t: ApproachTable, a: seq<Approach>, b: seq<Approach>)
    ensures WithApproaches(WithApproaches(t, a), b) == WithApproaches(t, a + b)
  {
    ApproachKeysConcat(a, b);
    var once, twice := WithApproaches(t, a + b), WithApproaches(WithApproaches(t, a), b);
    assert once.Keys == twice.Keys;
    forall k | k in once ensures once[k] == twice[k] {
      if k !in t {
        FirstApproachConcat(a, b, k);
      }
    }
  }

  /** Absorbing records in two steps is absorbing them all. */
  lemma AbsorbConcat(t: Tables, a: seq<Record>, b: seq<Record>)
    ensures Absorb(Absorb(t, a), b) == Absorb(t, a + b)
  {
    WithRecordsConcat(t.asteroids, a, b);
    AllApproachesConcat(a, b);
    WithApproachesConcat(t.approaches, AllApproaches(a), AllApproaches(b));
  }

  lemma AbsorbNothing(t: Tables)
    ensures Absorb(t, []) == t
  {
    assert WithRecords(t.asteroids, []) == t.asteroids;
    assert WithApproaches(t.approaches, []) == t.approaches;
  }

  /** Absorbing the same records again changes nothing. */
  lemma AbsorbIdempotent(t: Tables, rs: seq<Record>)
    ensures Absorb(Absorb(t, rs), rs) == Absorb(t, rs)
  {
    var once := Absorb(t, rs);
    assert WithRecords(once.asteroids, rs) == once.asteroids;
    assert WithApproaches(once.approaches, AllApproaches(rs)) == once.approaches;
  }

  // ----- A batch that commits does what it means -----

  ghost predicate DistinctNeos(rs: seq<Record>) {
    forall i, j :: 0 <= i < j < |rs| ==> rs[i].asteroid.neo != rs[j].asteroid.neo
  }

  lemma UpsertOneMeans(t: AsteroidTable, written: set<string>, r: Record)
    requires UpsertAsteroid(t, written, r.asteroid).Ok?
    ensures UpsertAsteroid(t, written, r.asteroid).value == WithRecords(t, [r])
  {
    var n, next := r.asteroid.neo, UpsertAsteroid(t, written, r.asteroid).value;
    NeosCons([r]);
    assert Neos([r]) == {n};
    assert next.Keys == WithRecords(t, [r]).Keys;
  }

  lemma DistinctCons(rs: seq<Record>)
    requires rs != [] && DistinctNeos(rs[1..])
    ensures DistinctNeos(rs) <==> rs[0].asteroid.neo !in Neos(rs[1..])
  {
    var n, tail := rs[0].asteroid.neo, rs[1..];
    if n in Neos(tail) {
      var i :| 0 <= i < |tail| && tail[i].asteroid.neo == n;
      assert rs[i + 1].asteroid.neo == n;
    } else {
      forall i, j | 0 <= i < j < |rs| ensures rs[i].asteroid.neo != rs[j].asteroid.neo {
        assert rs[j] == tail[j - 1];
        assert tail[j - 1].asteroid.neo in Neos(tail);
        if i > 0 {
          assert rs[i] == tail[i - 1];
        }
      }
    }
  }

  lemma {:induction false} UpsertMeans(t: AsteroidTable, written: set<string>, rs: seq<Record>)
    requires UpsertAsteroids(t, written, rs).Ok? && written <= t.Keys
    ensures UpsertAsteroids(t, written, rs).value == WithRecords(t, rs)
    ensures DistinctNeos(rs) && Neos(rs) !! written
    decreases |rs|
  {
    if rs == [] {
      assert WithRecords(t, []) == t;
    } else {
      var next := UpsertFirst(t, written, rs);
      UpsertMeans(next, written + {rs[0].asteroid.neo}, rs[1..]);
      WithRecordsConcat(t, [rs[0]], rs[1..]);
      assert [rs[0]] + rs[1..] == rs;
      NeosCons(rs);
      DistinctCons(rs);
    }
  }

  lemma UpsertFirst(t: AsteroidTable, written: set<string>, rs: seq<Record>) returns (next: AsteroidTable)
    requires rs != [] && UpsertAsteroids(t, written, rs).Ok? && written <= t.Keys
    ensures next == WithRecords(t, [rs[0]])
    ensures UpsertAsteroids(t, written, rs) == UpsertAsteroids(next, written + {rs[0].asteroid.neo}, rs[1..])
    ensures rs[0].asteroid.neo !in written && written + {rs[0].asteroid.neo} <= next.Keys
  {
    next := UpsertAsteroid(t, written, rs[0].asteroid).value;
    UpsertOneMeans(t, written, rs[0]);
    GrowsByOne(t, written, rs[0].asteroid);
  }

  lemma {:induction false} InsertMeans(t: ApproachTable, asteroids: AsteroidTable, ps: seq<Approach>)
    requires InsertApproaches(t, asteroids, ps).Ok?
    ensures InsertApproaches(t, asteroids, ps).value == WithApproaches(t, ps)
    decreases |ps|
  {
    if ps == [] {
      assert WithApproaches(t, []) == t;
    } else {
      var next := InsertApproach(t, asteroids, ps[0]).value;
      assert next == WithApproaches(t, [ps[0]]) by {
        ApproachKeysCons([ps[0]]);
        assert next.Keys == WithApproaches(t, [ps[0]]).Keys;
      }
      InsertMeans(next, asteroids, ps[1..]);
      WithApproachesConcat(t, [ps[0]], ps[1..]);
      assert [ps[0]] + ps[1..] == ps;
    }
  }

  /** Asteroids end with their last facts, approaches with their first row, and a batch with a
      repeated natural key does not commit. */
  lemma CommittedBatchMeans(t: Tables, batch: seq<Record>)
    requires ApplyBatch(t, batch).Ok?
    ensures ApplyBatch(t, batch).value == Absorb(t, batch)
    ensures DistinctNeos(batch)
  {
    UpsertMeans(t.asteroids, {}, batch);
    InsertMeans(t.approaches, UpsertAsteroids(t.asteroids, {}, batch).value, AllApproaches(batch));
  }

  // ----- When a batch commits -----

  /** Every natural key the records mention is in the tables already. */
  ghost predicate Covers(t: Tables, rs: seq<Record>) {
    Neos(rs) <= t.asteroids.Keys && ApproachKeys(AllApproaches(rs)) <= t.approaches.Keys
  }

  lemma {:induction false} CoveredUpsertCommits(t: AsteroidTable, written: set<string>, rs: seq<Record>)
    requires Neos(rs) <= t.Keys && DistinctNeos(rs) && Neos(rs) !! written
    ensures UpsertAsteroids(t, written, rs).Ok?
    decreases |rs|
  {
    if rs != [] {
      var a := rs[0].asteroid;
      NeosCons(rs);
      assert a.neo in Neos(rs);
      DistinctCons(rs);
      CoveredUpsertCommits(UpsertAsteroid(t, written, a).value, written + {a.neo}, rs[1..]);
    }
  }

  lemma {:induction false} CoveredInsertCommits(t: ApproachTable, asteroids: AsteroidTable, ps: seq<Approach>)
    requires ApproachKeys(ps) <= t.Keys
    ensures InsertApproaches(t, asteroids, ps) == Ok(t)
  {
    if ps != [] {
      ApproachKeysCons(ps);
      CoveredInsertCommits(t, asteroids, ps[1..]);
    }
  }

  /** Nothing can go wrong the second time: no key is new, so no constraint is consulted. */
  lemma CoveredBatchCommits(t: Tables, batch: seq<Record>)
    requires Covers(t, batch) && DistinctNeos(batch)
    ensures ApplyBatch(t, batch).Ok?
  {
    CoveredUpsertCommits(t.asteroids, {}, batch);
    CoveredInsertCommits(t.approaches, UpsertAsteroids(t.asteroids, {}, batch).value, AllApproaches(batch));
  }

  // ----- The catalog's own invariant -----

  /** Ids are derived from natural keys, and every approach points at an existing asteroid. */
  ghost predicate Consistent(t: Tables) {
    && (forall n :: n in t.asteroids ==> t.asteroids[n].id == AsteroidV5(n))
    && (forall k :: k in t.approaches ==>
          && k.0.AsteroidV5? && k.0.neo in t.asteroids
          && t.approaches[k].id == ApproachV5(k.0.neo, k.1))
  }

  /** What `transform` writes. */
  predicate WellFormed(r: Record) {
    && r.asteroid.id == AsteroidV5(r.asteroid.neo)
    && (forall i :: 0 <= i < |r.approaches| ==>
          r.approaches[i].asteroidId == r.asteroid.id
          && r.approaches[i].id == ApproachV5(r.asteroid.neo, r.approaches[i].epoch))
  }

  predicate AllWellFormed(rs: seq<Record>) {
    forall i :: 0 <= i < |rs| ==> WellFormed(rs[i])
  }

  ghost predicate IdsDerived(t: AsteroidTable) {
    forall n :: n in t ==> t[n].id == AsteroidV5(n)
  }

  lemma {:induction false} DerivedUpsertCommits(t: AsteroidTable, written: set<string>, rs: seq<Record>)
    requires IdsDerived(t) && AllWellFormed(rs) && DistinctNeos(rs) && Neos(rs) !! written
    ensures UpsertAsteroids(t, written, rs).Ok?
    ensures IdsDerived(UpsertAsteroids(t, written, rs).value)
    decreases |rs|
  {
    if rs != [] {
      var a := rs[0].asteroid;
      NeosCons(rs);
      assert a.neo in Neos(rs);
      DistinctCons(rs);
      DerivedUpsertCommits(UpsertAsteroid(t, written, a).value, written + {a.neo}, rs[1..]);
    }
  }

  predicate Derived(p: Approach, asteroids: AsteroidTable) {
    && p.asteroidId.AsteroidV5? && p.asteroidId.neo in asteroids
    && p.id == ApproachV5(p.asteroidId.neo, p.epoch)
  }

  lemma {:induction false} DerivedInsertCommits(t: Tables, ps: seq<Approach>)
    requires Consistent(t) && forall i :: 0 <= i < |ps| ==> Derived(ps[i], t.asteroids)
    ensures InsertApproaches(t.approaches, t.asteroids, ps).Ok?
    ensures Consistent(Tables(t.asteroids, InsertApproaches(t.approaches, t.asteroids, ps).value))
    decreases |ps|
  {
    if ps != [] {
      var p := ps[0];
      assert Derived(p, t.asteroids);
      if KeyOf(p) !in t.approaches {
        forall k | k in t.approaches ensures t.approaches[k].id != p.id {
          assert t.approaches[k].id == p.id ==> k == KeyOf(p);
        }
        assert t.asteroids[p.asteroidId.neo].id == p.asteroidId;
      }
      var next := InsertApproach(t.approaches, t.asteroids, p).value;
      DerivedInsertCommits(Tables(t.asteroids, next), ps[1..]);
    }
  }

  lemma {:induction false} ApproachesDerived(rs: seq<Record>, asteroids: AsteroidTable)
    requires AllWellFormed(rs) && Neos(rs) <= asteroids.Keys
    ensures forall i :: 0 <= i < |AllApproaches(rs)| ==> Derived(AllApproaches(rs)[i], asteroids)
  {
    if rs != [] {
      NeosCons(rs);
      ApproachesDerived(rs[1..], asteroids);
      var here, rest := rs[0].approaches, AllApproaches(rs[1..]);
      assert WellFormed(rs[0]);
      forall i | 0 <= i < |here + rest| ensures Derived((here + rest)[i], asteroids) {
        if i >= |here| {
          assert (here + rest)[i] == rest[i - |here|];
        }
      }
    }
  }

  /** On consistent tables a batch of transformed records commits exactly when no natural key
      is repeated in it, and keeps the tables consistent. */
  lemma WellFormedBatchCommits(t: Tables, batch: seq<Record>)
    requires Consistent(t) && AllWellFormed(batch)
    ensures ApplyBatch(t, batch).Ok? <==> DistinctNeos(batch)
    ensures ApplyBatch(t, batch).Ok? ==> Consistent(ApplyBatch(t, batch).value)
  {
    if ApplyBatch(t, batch).Ok? {
      CommittedBatchMeans(t, batch);
    }
    if DistinctNeos(batch) {
      DerivedUpsertCommits(t.asteroids, {}, batch);
      UpsertMeans(t.asteroids, {}, batch);
      var asteroids := UpsertAsteroids(t.asteroids, {}, batch).value;
      ApproachesDerived(batch, asteroids);
      assert Consistent(Tables(asteroids, t.approaches));
      DerivedInsertCommits(Tables(asteroids, t.approaches), AllApproaches(batch));
    }
  }
}
