/** The hazard events of a load: what each batch announces, and what the load passes on. */
module Announcements {
  import opened Prelude
  import opened Repository
  import opened Load

  /** A row the second table has and the first has not. */
  predicate NewRow(before: ApproachTable, after: ApproachTable, k: ApproachKey) {
    k in after && k !in before
  }

  // ----- The returned ids are those of the new rows -----

  lemma {:induction false} InsertKeeps(t: ApproachTable, asteroids: AsteroidTable, ps: seq<Approach>, k: ApproachKey)
    requires InsertApproaches(t, asteroids, ps).Ok? && k in t
    ensures k in InsertApproaches(t, asteroids, ps).value && InsertApproaches(t, asteroids, ps).value[k] == t[k]
    decreases |ps|
  {
    if ps != [] {
      InsertKeeps(InsertApproach(t, asteroids, ps[0]).value, asteroids, ps[1..], k);
    }
  }

  /** A new row has a returned id, and holds what some approach of the statement offered under that id. */
  lemma {:induction false} NewRowIsReturned(t: ApproachTable, asteroids: AsteroidTable, ps: seq<Approach>,
        k: ApproachKey)
      returns (p: Approach)
    requires InsertApproaches(t, asteroids, ps).Ok? && NewRow(t, InsertApproaches(t, asteroids, ps).value, k)
    ensures p in ps && InsertApproaches(t, asteroids, ps).value[k] == ApproachRow(p.id, p.facts)
    ensures p.id in NewApproachIds(t, ps)
    decreases |ps|
  {
    var next := InsertApproach(t, asteroids, ps[0]).value;
    if KeyOf(ps[0]) == k {
      p := ps[0];
      InsertKeeps(next, asteroids, ps[1..], k);
    } else {
      p := NewRowIsReturned(next, asteroids, ps[1..], k);
    }
  }

  lemma {:induction false} ReturnedIsNewRow(t: ApproachTable, asteroids: AsteroidTable, ps: seq<Approach>, id: Uuid)
      returns (k: ApproachKey)
    requires InsertApproaches(t, asteroids, ps).Ok? && id in NewApproachIds(t, ps)
    ensures NewRow(t, InsertApproaches(t, asteroids, ps).value, k)
    ensures InsertApproaches(t, asteroids, ps).value[k].id == id
    decreases |ps|
  {
    var next := InsertApproach(t, asteroids, ps[0]).value;
    if KeyOf(ps[0]) !in t && ps[0].id == id {
      k := KeyOf(ps[0]);
      InsertKeeps(next, asteroids, ps[1..], k);
    } else {
      k := ReturnedIsNewRow(next, asteroids, ps[1..], id);
    }
  }

  // ----- What one batch announces -----

  lemma {:induction false} EventsIn(os: seq<Offer>, ids: seq<Uuid>, e: HazardEvent)
    ensures e in EventsFor(os, ids)
      <==> e.approachId in ids && EventFor(LastOffer(os, e.approachId), e.approachId) == [e]
  {
    if ids != [] {
      EventsIn(os, ids[1..], e);
      assert ids == [ids[0]] + ids[1..];
    }
  }

  lemma {:induction false} LastOfferIsAnOffer(os: seq<Offer>, o: Offer)
    requires o in os
    ensures
      var last := LastOffer(os, o.approach.id);
      last.Some? && last.value in os && last.value.approach.id == o.approach.id
    decreases |os|
  {
    var n := |os| - 1;
    if os[n].approach.id != o.approach.id {
      assert o in os[..n];
      LastOfferIsAnOffer(os[..n], o);
    }
  }

  lemma {:induction false} OfferOf(rs: seq<Record>, p: Approach) returns (o: Offer)
    requires p in AllApproaches(rs)
    ensures o in Offers(rs) && o.approach == p
    decreases |rs|
  {
    if p in rs[0].approaches {
      var i :| 0 <= i < |rs[0].approaches| && rs[0].approaches[i] == p;
      o := OffersOf(rs[0].asteroid.facts.name, rs[0].approaches)[i];
    } else {
      o := OfferOf(rs[1..], p);
    }
  }

  /** The class of the last approach the batch offers under an id. */
  function LastClass(batch: seq<Record>, id: Uuid): Option<string> {
    var o := LastOffer(Offers(batch), id);
    if o.None? then None else Some(o.value.approach.facts.hazard)
  }

  predicate Announced(events: seq<HazardEvent>, id: Uuid, hazard: string) {
    exists e :: e in events && e.approachId == id && e.hazard == hazard
  }

  function NewApproachTable(t: Tables, batch: seq<Record>): ApproachTable
    requires ApplyBatch(t, batch).Ok?
  {
    ApplyBatch(t, batch).value.approaches
  }

  /** Each event is about a row this batch inserted. */
  lemma EventIsAboutANewRow(t: Tables, batch: seq<Record>, e: HazardEvent) returns (k: ApproachKey)
    requires ApplyBatch(t, batch).Ok? && e in HazardEvents(t.approaches, batch)
    ensures NewRow(t.approaches, NewApproachTable(t, batch), k) && NewApproachTable(t, batch)[k].id == e.approachId
    ensures LastClass(batch, e.approachId) == Some(e.hazard) && Notable(e.hazard)
  {
    EventsIn(Offers(batch), NewApproachIds(t.approaches, AllApproaches(batch)), e);
    k := ReturnedIsNewRow(t.approaches, UpsertAsteroids(t.asteroids, {}, batch).value, AllApproaches(batch),
      e.approachId);
  }

  lemma NewRowsOffer(t: Tables, batch: seq<Record>, k: ApproachKey) returns (o: Offer)
    requires ApplyBatch(t, batch).Ok? && NewRow(t.approaches, NewApproachTable(t, batch), k)
    ensures o in Offers(batch) && NewApproachTable(t, batch)[k] == ApproachRow(o.approach.id, o.approach.facts)
    ensures o.approach.id in NewApproachIds(t.approaches, AllApproaches(batch))
  {
    var p := NewRowIsReturned(t.approaches, UpsertAsteroids(t.asteroids, {}, batch).value, AllApproaches(batch), k);
    o := OfferOf(batch, p);
  }

  /** A new row is announced with a class exactly if that class is notable and is the one the batch
      offered last under the row's id. */
  lemma NewRowIsAnnouncedIff(t: Tables, batch: seq<Record>, k: ApproachKey, hazard: string)
    requires ApplyBatch(t, batch).Ok? && NewRow(t.approaches, NewApproachTable(t, batch), k)
    ensures
      var id := NewApproachTable(t, batch)[k].id;
      Announced(HazardEvents(t.approaches, batch), id, hazard)
      <==> Notable(hazard) && LastClass(batch, id) == Some(hazard)
  {
    var o := NewRowsOffer(t, batch, k);
    var id, os := o.approach.id, Offers(batch);
    LastOfferIsAnOffer(os, o);
    var last := LastOffer(os, id).value;
    EventsIn(os, NewApproachIds(t.approaches, AllApproaches(batch)),
      HazardEvent(id, last.name, last.approach.facts.hazard));
    forall e | e in HazardEvents(t.approaches, batch) && e.approachId == id
      ensures e.hazard == last.approach.facts.hazard && Notable(e.hazard)
    {
      EventsIn(os, NewApproachIds(t.approaches, AllApproaches(batch)), e);
    }
  }

  /** The batch offers each approach id with one class only. */
  ghost predicate OneClassPerId(batch: seq<Record>) {
    forall a, b :: a in Offers(batch) && b in Offers(batch) && a.approach.id == b.approach.id
      ==> a.approach.facts.hazard == b.approach.facts.hazard
  }

  lemma OneClassIsTheLast(t: Tables, batch: seq<Record>, k: ApproachKey)
    requires ApplyBatch(t, batch).Ok? && NewRow(t.approaches, NewApproachTable(t, batch), k) && OneClassPerId(batch)
    ensures
      var row := NewApproachTable(t, batch)[k];
      LastClass(batch, row.id) == Some(row.facts.hazard)
  {
    var o := NewRowsOffer(t, batch, k);
    LastOfferIsAnOffer(Offers(batch), o);
  }

  ghost predicate NoNewHazard(before: ApproachTable, after: ApproachTable) {
    forall k :: NewRow(before, after, k) ==> !Notable(after[k].facts.hazard)
  }

  /** Such a batch announces nothing exactly if it inserts no Critical or High approach. */
  lemma SilentIff(t: Tables, batch: seq<Record>)
    requires ApplyBatch(t, batch).Ok? && OneClassPerId(batch)
    ensures HazardEvents(t.approaches, batch) == [] <==> NoNewHazard(t.approaches, NewApproachTable(t, batch))
  {
    var events, after := HazardEvents(t.approaches, batch), NewApproachTable(t, batch);
    if events != [] {
      var k := EventIsAboutANewRow(t, batch, events[0]);
      OneClassIsTheLast(t, batch, k);
    } else {
      forall k | NewRow(t.approaches, after, k) ensures !Notable(after[k].facts.hazard) {
        OneClassIsTheLast(t, batch, k);
        NewRowIsAnnouncedIff(t, batch, k, after[k].facts.hazard);
      }
    }
  }

  lemma OneUpsert(t: AsteroidTable, rs: seq<Record>, id: Uuid)
    requires |rs| == 1 && rs[0].asteroid.neo in t && IdInUse(t, id)
    ensures UpsertAsteroids(t, {}, rs).Ok? && IdInUse(UpsertAsteroids(t, {}, rs).value, id)
  {
    var next := UpsertAsteroid(t, {}, rs[0].asteroid).value;
    assert rs[1..] == [] && UpsertAsteroids(t, {}, rs) == Ok(next);
    var n :| n in t && t[n].id == id;
    assert next[n].id == id;
  }

  lemma TwoInserts(t: ApproachTable, asteroids: AsteroidTable, ps: seq<Approach>)
    requires |ps| == 2 && KeyOf(ps[0]) == KeyOf(ps[1]) && KeyOf(ps[0]) !in t
    requires !ApproachIdInUse(t, ps[0].id) && IdInUse(asteroids, ps[0].asteroidId)
    ensures InsertApproaches(t, asteroids, ps) == Ok(t[KeyOf(ps[0]) := ApproachRow(ps[0].id, ps[0].facts)])
    ensures NewApproachIds(t, ps) == [ps[0].id]
  {
    var next := t[KeyOf(ps[0]) := ApproachRow(ps[0].id, ps[0].facts)];
    var rest := ps[1..];
    assert rest[0] == ps[1] && rest[1..] == [] && KeyOf(rest[0]) in next;
    assert NewApproachIds(next, rest) == NewApproachIds(next, rest[1..]);
    assert InsertApproaches(next, asteroids, rest) == InsertApproaches(next, asteroids, rest[1..]);
  }

  /** Two classes for one approach: the row keeps the first and the event tells the last. */
  lemma LastClassSpeaks(t: Tables, batch: seq<Record>, p: Approach, q: Approach)
    requires |batch| == 1 && batch[0].asteroid.neo in t.asteroids && batch[0].approaches == [p, q]
    requires IdInUse(t.asteroids, p.asteroidId) && KeyOf(p) == KeyOf(q) && p.id == q.id
    requires KeyOf(p) !in t.approaches && !ApproachIdInUse(t.approaches, p.id)
    requires p.facts.hazard == "Low" && q.facts.hazard == "High"
    ensures ApplyBatch(t, batch).Ok? && NewRow(t.approaches, NewApproachTable(t, batch), KeyOf(p))
    ensures NewApproachTable(t, batch)[KeyOf(p)] == ApproachRow(p.id, p.facts)
    ensures Announced(HazardEvents(t.approaches, batch), p.id, "High")
  {
    OneUpsert(t.asteroids, batch, p.asteroidId);
    assert batch[1..] == [] && AllApproaches(batch) == [p, q];
    TwoInserts(t.approaches, UpsertAsteroids(t.asteroids, {}, batch).value, AllApproaches(batch));
    var name := batch[0].asteroid.facts.name;
    assert Offers(batch) == OffersOf(name, [p, q]);
    assert OffersOf(name, [p, q])[1] == Offer(name, q);
    NewRowIsAnnouncedIff(t, batch, KeyOf(p), "High");
  }

  // ----- What a load passes on -----

  /** The events of all batches of a run, in order. */
  function RunEvents(t: Tables, bs: seq<seq<Record>>): seq<HazardEvent>
    decreases |bs|
  {
    if bs == [] then []
    else
      var next := ApplyBatch(t, bs[0]);
      if next.Err? then [] else HazardEvents(t.approaches, bs[0]) + RunEvents(next.value, bs[1..])
  }

  lemma {:induction false} RunKeepsApproaches(t: Tables, bs: seq<seq<Record>>, k: ApproachKey)
    requires k in t.approaches
    ensures
      var after := RunBatches(t, bs).tables.approaches;
      k in after && after[k] == t.approaches[k]
    decreases |bs|
  {
    if bs != [] && ApplyBatch(t, bs[0]).Ok? {
      InsertKeeps(t.approaches, UpsertAsteroids(t.asteroids, {}, bs[0]).value, AllApproaches(bs[0]), k);
      RunKeepsApproaches(ApplyBatch(t, bs[0]).value, bs[1..], k);
    }
  }

  lemma NoNewHazardInTwoSteps(t: ApproachTable, u: ApproachTable, v: ApproachTable)
    requires forall k :: k in t ==> k in u
    requires forall k :: k in u ==> k in v && v[k] == u[k]
    ensures NoNewHazard(t, v) <==> NoNewHazard(t, u) && NoNewHazard(u, v)
  {
    if NoNewHazard(t, v) {
      forall k | NewRow(t, u, k) ensures !Notable(u[k].facts.hazard) {
        assert NewRow(t, v, k);
      }
      forall k | NewRow(u, v, k) ensures !Notable(v[k].facts.hazard) {
        assert NewRow(t, v, k);
      }
    }
    if NoNewHazard(t, u) && NoNewHazard(u, v) {
      forall k | NewRow(t, v, k) ensures !Notable(v[k].facts.hazard) {
        assert NewRow(t, u, k) || NewRow(u, v, k);
      }
    }
  }

  lemma {:induction false} SilentRunIff(t: Tables, bs: seq<seq<Record>>)
    requires RunBatches(t, bs).error.None? && forall i :: 0 <= i < |bs| ==> OneClassPerId(bs[i])
    ensures RunEvents(t, bs) == [] <==> NoNewHazard(t.approaches, RunBatches(t, bs).tables.approaches)
    decreases |bs|
  {
    if bs != [] {
      var next := ApplyBatch(t, bs[0]).value;
      SilentIff(t, bs[0]);
      assert forall i :: 0 <= i < |bs[1..]| ==> bs[1..][i] == bs[i + 1];
      SilentRunIff(next, bs[1..]);
      forall k | k in t.approaches ensures k in next.approaches {
        InsertKeeps(t.approaches, UpsertAsteroids(t.asteroids, {}, bs[0]).value, AllApproaches(bs[0]), k);
      }
      var after := RunBatches(next, bs[1..]).tables.approaches;
      forall k | k in next.approaches ensures k in after && after[k] == next.approaches[k] {
        RunKeepsApproaches(next, bs[1..], k);
      }
      NoNewHazardInTwoSteps(t.approaches, next.approaches, after);
    }
  }

  /** The line loop adds up its batches' counters but never their events: what a successful load reports
      is what its batches announced if and only if the file brought no Critical or High approach. */
  lemma HazardEventsReportedIff(t: Tables, lines: seq<Line>, fault: Option<Fault>)
    requires LoadFile(t, lines, fault).Ok?
    requires forall i :: 0 <= i < |FileBatches(lines)| ==> OneClassPerId(FileBatches(lines)[i])
    ensures LoadFile(t, lines, fault).value.hazardEvents == RunEvents(t, FileBatches(lines))
      <==> NoNewHazard(t.approaches, RunFile(t, FileBatches(lines), fault).tables.approaches)
  {
    NoErrorNoFault(t, FileBatches(lines), fault);
    SilentRunIff(t, FileBatches(lines));
  }
}
