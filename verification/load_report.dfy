/** What the counters and ids of a batch and of a load say about the tables and the file. */
module LoadReport {
  import opened Prelude
  import opened Repository
  import opened Load

  lemma Grown<K>(before: set<K>, after: set<K>)
    requires before <= after
    ensures |after - before| == |after| - |before|
  {
    assert after == before + (after - before);
  }

  lemma AbsorbedKeys(t: Tables, rs: seq<Record>)
    ensures Absorb(t, rs).asteroids.Keys == t.asteroids.Keys + Neos(rs)
    ensures Absorb(t, rs).approaches.Keys == t.approaches.Keys + ApproachKeys(AllApproaches(rs))
  {
  }

  /** How many approaches the records offer, one record after the other. */
  function Offered(rs: seq<Record>): nat {
    if rs == [] then 0 else |rs[0].approaches| + Offered(rs[1..])
  }

  lemma {:induction false} OfferedIs(rs: seq<Record>)
    ensures |AllApproaches(rs)| == Offered(rs)
  {
    if rs != [] {
      OfferedIs(rs[1..]);
    }
  }

  /** Every approach of every record is offered, and no other. */
  lemma {:induction false} OfferedApproaches(rs: seq<Record>, p: Approach)
    ensures p in AllApproaches(rs) <==> exists i :: 0 <= i < |rs| && p in rs[i].approaches
  {
    if rs != [] {
      OfferedApproaches(rs[1..], p);
      if p in AllApproaches(rs[1..]) {
        var i :| 0 <= i < |rs[1..]| && p in rs[1..][i].approaches;
        assert p in rs[i + 1].approaches;
      }
      if i :| 0 <= i < |rs| && p in rs[i].approaches {
        assert i > 0 ==> p in rs[1..][i - 1].approaches;
      }
    }
  }

  lemma {:induction false} ReturnedIdsCounted(t: ApproachTable, asteroids: AsteroidTable, ps: seq<Approach>)
    requires InsertApproaches(t, asteroids, ps).Ok?
    ensures |InsertApproaches(t, asteroids, ps).value| == |t| + |NewApproachIds(t, ps)|
    decreases |ps|
  {
    if ps != [] {
      ReturnedIdsCounted(InsertApproach(t, asteroids, ps[0]).value, asteroids, ps[1..]);
    }
  }

  /** The records of a batch whose asteroid was in the table before. */
  function Known(t: AsteroidTable, batch: seq<Record>): set<string> {
    set i | 0 <= i < |batch| && batch[i].asteroid.neo in t :: batch[i].asteroid.neo
  }

  lemma {:induction false} NeosCounted(batch: seq<Record>)
    requires DistinctNeos(batch)
    ensures |Neos(batch)| == |batch|
  {
    if batch != [] {
      NeosCons(batch);
      DistinctCons(batch);
      NeosCounted(batch[1..]);
    }
  }

  /** What counters say if they are read as the growth of two tables. */
  ghost predicate Counts(counts: UpsertStats, t: Tables, after: Tables, rs: seq<Record>) {
    && counts.asteroidsInserted == |after.asteroids.Keys - t.asteroids.Keys|
    && counts.asteroidsInserted + counts.asteroidsUpdated == |rs|
    && counts.approachesInserted == |after.approaches.Keys - t.approaches.Keys|
    && counts.approachesInserted + counts.approachesSkipped == Offered(rs)
  }

  lemma MapGrown<K, V>(before: map<K, V>, after: map<K, V>)
    requires before.Keys <= after.Keys
    ensures |after| - |before| == |after.Keys - before.Keys|
  {
    Grown(before.Keys, after.Keys);
    assert |after.Keys| == |after| && |before.Keys| == |before|;
  }

  lemma GrowthCounts(t: Tables, after: Tables, rs: seq<Record>)
    requires t.asteroids.Keys <= after.asteroids.Keys && t.approaches.Keys <= after.approaches.Keys
    ensures Counts(Growth(t, after, rs), t, after, rs)
  {
    MapGrown(t.asteroids, after.asteroids);
    MapGrown(t.approaches, after.approaches);
    OfferedIs(rs);
  }

  /** A committed batch counts as inserted the asteroids and approaches that are new in the tables, and as
      updated and skipped the rest of the records and of the approaches they offer. */
  lemma BatchCountsMean(t: Tables, batch: seq<Record>)
    requires ApplyBatch(t, batch).Ok?
    ensures BatchReport(t, batch, Up).Ok?
    ensures Counts(BatchReport(t, batch, Up).value.counts, t, ApplyBatch(t, batch).value, batch)
  {
    CommittedBatchMeans(t, batch);
    AbsorbedKeys(t, batch);
    GrowthCounts(t, ApplyBatch(t, batch).value, batch);
  }

  /** There are as many new ids as inserted asteroids, as many returned ids as inserted approaches, and what
      is counted as updated are the batch's asteroids that were there before. */
  lemma BatchCountsAgree(t: Tables, batch: seq<Record>)
    requires ApplyBatch(t, batch).Ok?
    ensures
      var report := BatchReport(t, batch, Up).value;
      && report.counts.asteroidsInserted == |report.newIds|
      && report.counts.asteroidsUpdated == |Known(t.asteroids, batch)|
      && report.counts.approachesInserted == |NewApproachIds(t.approaches, AllApproaches(batch))|
  {
    UpsertGrowth(t.asteroids, t.asteroids, {}, batch);
    ReturnedIdsCounted(t.approaches, UpsertAsteroids(t.asteroids, {}, batch).value, AllApproaches(batch));
    BatchCountsMean(t, batch);
    KnownCounted(t, batch);
  }

  lemma SplitSet(all: set<string>, a: set<string>, b: set<string>)
    requires all == a + b && a !! b
    ensures |all| == |a| + |b|
  {
  }

  lemma KnownCounted(t: Tables, batch: seq<Record>)
    requires ApplyBatch(t, batch).Ok?
    ensures |Known(t.asteroids, batch)| == |batch| - |ApplyBatch(t, batch).value.asteroids.Keys - t.asteroids.Keys|
  {
    CommittedBatchMeans(t, batch);
    AbsorbedKeys(t, batch);
    NeosCounted(batch);
    KnownOrNew(t.asteroids, batch);
    var added := ApplyBatch(t, batch).value.asteroids.Keys - t.asteroids.Keys;
    assert added == Neos(batch) - t.asteroids.Keys;
    SplitSet(Neos(batch), Known(t.asteroids, batch), added);
  }

  lemma KnownOrNew(t: AsteroidTable, batch: seq<Record>)
    ensures Known(t, batch) == Neos(batch) * t.Keys
    ensures Neos(batch) == Known(t, batch) + (Neos(batch) - t.Keys)
  {
  }

  lemma {:induction false} NewIdIsOfNewRow(t: AsteroidTable, a: AsteroidTable, written: set<string>, rows: seq<Record>,
        id: Uuid)
      returns (neo: string)
    requires a.Keys == t.Keys + written && UpsertAsteroids(a, written, rows).Ok? && id in NewIds(t, rows)
    ensures HasNewId(t, UpsertAsteroids(a, written, rows).value, neo, id)
    decreases |rows|
  {
    var row := rows[0].asteroid;
    var next := UpsertAsteroid(a, written, row).value;
    UpsertOneGrowth(t, a, written, row);
    if row.neo !in t && row.id == id {
      neo := row.neo;
      IdStays(next, written + {row.neo}, rows[1..], neo);
    } else {
      neo := NewIdIsOfNewRow(t, next, written + {row.neo}, rows[1..], id);
    }
  }

  predicate HasNewId(t: AsteroidTable, after: AsteroidTable, neo: string, id: Uuid) {
    neo !in t && neo in after && after[neo].id == id
  }

  /** An upsert never changes the id of a row. */
  lemma {:induction false} IdStays(a: AsteroidTable, written: set<string>, rows: seq<Record>, neo: string)
    requires UpsertAsteroids(a, written, rows).Ok? && neo in a
    ensures neo in UpsertAsteroids(a, written, rows).value
    ensures UpsertAsteroids(a, written, rows).value[neo].id == a[neo].id
    decreases |rows|
  {
    if rows != [] {
      var next := UpsertAsteroid(a, written, rows[0].asteroid).value;
      IdStays(next, written + {rows[0].asteroid.neo}, rows[1..], neo);
    }
  }

  /** The ids a batch reports are ids of asteroids that are new in the table. */
  lemma NewIdsAreOfNewRows(t: Tables, batch: seq<Record>, id: Uuid) returns (neo: string)
    requires ApplyBatch(t, batch).Ok? && id in BatchReport(t, batch, Up).value.newIds
    ensures HasNewId(t.asteroids, ApplyBatch(t, batch).value.asteroids, neo, id)
  {
    neo := NewIdIsOfNewRow(t.asteroids, t.asteroids, {}, batch, id);
  }

  /** A connection lost before the commit leaves the tables as they were; one lost after it leaves what the
      batch committed, though both report the same error. */
  lemma LostConnection(t: Tables, batch: seq<Record>)
    ensures AfterBatch(t, batch, LostBefore) == t
    ensures ApplyBatch(t, batch).Ok? ==> AfterBatch(t, batch, LostAfter) == Absorb(t, batch)
    ensures ApplyBatch(t, batch).Err? ==> AfterBatch(t, batch, LostAfter) == t && AfterBatch(t, batch, Up) == t
    ensures BatchReport(t, batch, LostBefore) == BatchReport(t, batch, LostAfter) == Err(ConnectionLost)
  {
    if ApplyBatch(t, batch).Ok? {
      CommittedBatchMeans(t, batch);
    }
  }

  // ----- The rows of a committed batch -----

  lemma {:induction false} OnlyRecordOf(rs: seq<Record>, i: nat)
    requires DistinctNeos(rs) && i < |rs|
    ensures rs[i].asteroid.neo in Neos(rs)
    ensures First(rs, rs[i].asteroid.neo) == Last(rs, rs[i].asteroid.neo) == rs[i]
    decreases |rs|
  {
    var neo := rs[i].asteroid.neo;
    assert neo in Neos(rs);
    NeosCons(rs);
    DistinctCons(rs);
    if i > 0 {
      assert rs[1..][i - 1] == rs[i];
      OnlyRecordOf(rs[1..], i - 1);
    }
  }

  /** The row of each record of a committed batch: its facts are the record's; a row that was there keeps its
      id, its creation time and its risk-list columns, and a new one has the record's own and no columns. */
  lemma AsteroidRowAfter(t: Tables, batch: seq<Record>, i: nat)
    requires ApplyBatch(t, batch).Ok? && i < |batch|
    ensures
      var a, after := batch[i].asteroid, ApplyBatch(t, batch).value.asteroids;
      && a.neo in after && after[a.neo].facts == a.facts
      && (if a.neo in t.asteroids then
            && after[a.neo].id == t.asteroids[a.neo].id && after[a.neo].createdAt == t.asteroids[a.neo].createdAt
            && after[a.neo].sentry == t.asteroids[a.neo].sentry
          else
            && after[a.neo].id == a.id && after[a.neo].createdAt == a.createdAt
            && after[a.neo].sentry.torino == None && after[a.neo].sentry.palermo == None
            && after[a.neo].sentry.checkedAt == None)
  {
    CommittedBatchMeans(t, batch);
    OnlyRecordOf(batch, i);
  }

  /** Rows no record speaks of stay as they are. */
  lemma OtherRowsStay(t: Tables, batch: seq<Record>, neo: string, k: ApproachKey)
    requires ApplyBatch(t, batch).Ok?
    ensures
      var after := ApplyBatch(t, batch).value;
      && (neo in t.asteroids && neo !in Neos(batch) ==>
            neo in after.asteroids && after.asteroids[neo] == t.asteroids[neo])
      && (k in t.approaches ==> k in after.approaches && after.approaches[k] == t.approaches[k])
  {
    CommittedBatchMeans(t, batch);
  }

  // ----- The constraints of the two tables -----

  /** Primary keys are unique, and every approach has its asteroid. */
  ghost predicate Constrained(t: Tables) {
    && (forall m, n :: m in t.asteroids && n in t.asteroids && t.asteroids[m].id == t.asteroids[n].id ==> m == n)
    && (forall j, k :: j in t.approaches && k in t.approaches && t.approaches[j].id == t.approaches[k].id ==> j == k)
    && (forall k :: k in t.approaches ==> IdInUse(t.asteroids, k.0))
  }

  lemma {:induction false} UpsertKeepsConstraints(t: Tables, written: set<string>, rs: seq<Record>)
    requires Constrained(t) && UpsertAsteroids(t.asteroids, written, rs).Ok?
    ensures Constrained(t.(asteroids := UpsertAsteroids(t.asteroids, written, rs).value))
    decreases |rs|
  {
    if rs != [] {
      var a := rs[0].asteroid;
      var next := UpsertAsteroid(t.asteroids, written, a).value;
      forall id | IdInUse(t.asteroids, id) ensures IdInUse(next, id) {
        var n :| n in t.asteroids && t.asteroids[n].id == id;
        assert n in next && next[n].id == id;
      }
      UpsertKeepsConstraints(t.(asteroids := next), written + {a.neo}, rs[1..]);
    }
  }

  lemma {:induction false} InsertKeepsConstraints(t: Tables, ps: seq<Approach>)
    requires Constrained(t) && InsertApproaches(t.approaches, t.asteroids, ps).Ok?
    ensures Constrained(t.(approaches := InsertApproaches(t.approaches, t.asteroids, ps).value))
    decreases |ps|
  {
    if ps != [] {
      var next := InsertApproach(t.approaches, t.asteroids, ps[0]).value;
      InsertKeepsConstraints(t.(approaches := next), ps[1..]);
    }
  }

  /** Whatever a batch holds, if it commits the constraints hold afterwards: a record that would break
      one makes the batch fail. */
  lemma CommittedBatchKeepsConstraints(t: Tables, batch: seq<Record>)
    requires Constrained(t) && ApplyBatch(t, batch).Ok?
    ensures Constrained(ApplyBatch(t, batch).value)
  {
    UpsertKeepsConstraints(t, {}, batch);
    InsertKeepsConstraints(t.(asteroids := UpsertAsteroids(t.asteroids, {}, batch).value), AllApproaches(batch));
  }

  // ----- Lines -----

  predicate IsRecord(line: Line) {
    line.Parsed?
  }

  /** The records of a readable file are its parsed lines in order: blank and malformed lines count for
      nothing, wherever they stand. */
  lemma {:induction false} RecordsAreTheParsedLines(lines: seq<Line>)
    requires Readable(lines)
    ensures
      var parsed := Filter(IsRecord, lines);
      && |Records(lines)| == |parsed|
      && forall i :: 0 <= i < |parsed| ==> parsed[i] == Parsed(Records(lines)[i])
  {
    if lines != [] {
      assert forall i :: 0 <= i < |lines[1..]| ==> lines[1..][i] == lines[i + 1];
      RecordsAreTheParsedLines(lines[1..]);
    }
  }

  /** An unreadable line hides everything after it. */
  lemma {:induction false} RecordsStopAtUnreadable(a: seq<Line>, b: seq<Line>)
    requires Readable(a)
    ensures Records(a + [Unreadable] + b) == Records(a) && !Readable(a + [Unreadable] + b)
  {
    var lines := a + [Unreadable] + b;
    assert lines[|a|] == Unreadable;
    if a != [] {
      assert lines[1..] == a[1..] + [Unreadable] + b;
      assert forall i :: 0 <= i < |a[1..]| ==> a[1..][i] == a[i + 1];
      RecordsStopAtUnreadable(a[1..], b);
    }
  }

  // ----- What a load reports -----

  /** A load succeeds exactly if the file can be read to its end, holds a record, every batch of it
      commits, and the connection lasts through the last of them. */
  lemma LoadOkIff(t: Tables, lines: seq<Line>, fault: Option<Fault>)
    ensures LoadFile(t, lines, fault).Ok? <==>
      && Readable(lines) && Records(lines) != []
      && RunBatches(t, FileBatches(lines)).error.None?
      && (fault.Some? ==> fault.value.at >= |FileBatches(lines)|)
  {
    var bs := FileBatches(lines);
    if RunFile(t, bs, fault).error.None? {
      NoErrorNoFault(t, bs, fault);
      if fault.Some? && fault.value.at < |bs| {
        FaultStrikes(t, bs, fault);
      }
    } else if fault.None? || fault.value.at >= |bs| {
      SparedRun(t, bs, fault);
    }
  }

  /** After a successful load the tables hold all the file's records. */
  lemma LoadedTables(t: Tables, lines: seq<Line>, fault: Option<Fault>)
    requires LoadFile(t, lines, fault).Ok?
    ensures RunFile(t, FileBatches(lines), fault).tables == Absorb(t, Records(lines))
    ensures Flatten(FileBatches(lines)) == Records(lines)
  {
    NoErrorNoFault(t, FileBatches(lines), fault);
    RunMeans(t, FileBatches(lines));
    FlattenChunks(Records(lines), BATCH);
  }

  /** The counters of a successful load: the asteroids and approaches by which the tables grew, and the rest
      of the file's records and of the approaches they offer. */
  lemma LoadCountsMean(t: Tables, lines: seq<Line>, fault: Option<Fault>)
    requires LoadFile(t, lines, fault).Ok?
    ensures Counts(LoadFile(t, lines, fault).value.totals, t, RunFile(t, FileBatches(lines), fault).tables,
      Records(lines))
  {
    NoErrorNoFault(t, FileBatches(lines), fault);
    LoadedTables(t, lines, fault);
    TotalsAreGrowth(t, FileBatches(lines));
    AbsorbedKeys(t, Records(lines));
    GrowthCounts(t, RunFile(t, FileBatches(lines), fault).tables, Records(lines));
  }

  lemma FirstBatches(bs: seq<seq<Record>>, n: nat)
    requires 0 < n <= |bs|
    ensures bs[..n][0] == bs[0] && bs[..n][1..] == bs[1..][..n - 1]
  {
  }

  /** A lost connection leaves the batches before it, and the one it struck only if its commit had gone
      through. */
  lemma {:induction false} FaultLeaves(t: Tables, bs: seq<seq<Record>>, at: nat, committed: bool)
    requires RunBatches(t, bs).error.None? && at < |bs|
    ensures RunFile(t, bs, Some(Fault(at, committed))).error == Some(ConnectionLost)
    ensures RunFile(t, bs, Some(Fault(at, committed))).tables
      == RunBatches(t, bs[..if committed then at + 1 else at]).tables
    decreases |bs|
  {
    FaultStrikes(t, bs, Some(Fault(at, committed)));
    var n := if committed then at + 1 else at;
    if at > 0 {
      FirstBatches(bs, n);
      FaultLeaves(ApplyBatch(t, bs[0]).value, bs[1..], at - 1, committed);
    } else if committed {
      FirstBatches(bs, 1);
      assert bs[1..][..0] == [];
    }
  }

  /** An unreadable line fails the load; the full batches of 1000 before it stay committed, the records of
      the batch being filled are lost. */
  lemma UnreadableFileKeepsFullBatches(t: Tables, lines: seq<Line>)
    requires !Readable(lines) && RunBatches(t, FileBatches(lines)).error.None?
    ensures LoadFile(t, lines, None) == Err(ReadFailed)
    ensures RunFile(t, FileBatches(lines), None).tables
      == Absorb(t, Records(lines)[..|Records(lines)| - |Records(lines)| % 1000])
  {
    var bs := FileBatches(lines);
    SparedRun(t, bs, None);
    RunMeans(t, bs);
    FlattenChunks(FullPrefix(Records(lines), BATCH), BATCH);
  }

  /** A readable file without a record is an error and changes nothing. */
  lemma EmptyFileFails(t: Tables, lines: seq<Line>, fault: Option<Fault>)
    requires Readable(lines) && Records(lines) == []
    ensures LoadFile(t, lines, fault) == Err(NoValidRecords) && RunFile(t, FileBatches(lines), fault).tables == t
  {
  }
}
