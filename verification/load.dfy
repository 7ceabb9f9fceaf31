/** `src/cli/load.rs`: streaming a file into the tables, and running it again after a crash. */
module Load {
  import opened Prelude
  import opened Repository

  /** A line of the input: unreadable ends the run, blank and malformed lines are skipped. */
  datatype Line = Blank | Malformed | Unreadable | Parsed(record: Record)

  datatype LoadError = OpenFailed | ReadFailed | UpsertFailed(cause: DbError) | NoValidRecords

  const BATCH := 1000

  /** The records before the first unreadable line. */
  function Records(lines: seq<Line>): seq<Record> {
    if lines == [] || lines[0].Unreadable? then []
    else (if lines[0].Parsed? then [lines[0].record] else []) + Records(lines[1..])
  }

  predicate Readable(lines: seq<Line>) {
    forall i :: 0 <= i < |lines| ==> !lines[i].Unreadable?
  }

  /** Consecutive groups of `n`, the last one possibly short. */
  function Chunks(rs: seq<Record>, n: nat): seq<seq<Record>>
    requires n > 0
    decreases |rs|
  {
    if rs == [] then [] else if |rs| <= n then [rs] else [rs[..n]] + Chunks(rs[n..], n)
  }

  // ----- Runs -----

  /** Batches in order, each its own transaction, stopping at the first that fails. */
  datatype Run = Run(tables: Tables, committed: nat, error: Option<DbError>)

  function RunBatches(t: Tables, bs: seq<seq<Record>>): Run
    decreases |bs|
  {
    if bs == [] then Run(t, 0, None)
    else
      var next := ApplyBatch(t, bs[0]);
      if next.Err? then Run(t, 0, Some(next.error))
      else
        var rest := RunBatches(next.value, bs[1..]);
        Run(rest.tables, rest.committed + 1, rest.error)
  }

  lemma {:induction false} RunConcat(t: Tables, a: seq<seq<Record>>, b: seq<seq<Record>>)
    requires RunBatches(t, a).error.None?
    ensures
      var first := RunBatches(t, a);
      var second := RunBatches(first.tables, b);
      RunBatches(t, a + b) == Run(second.tables, first.committed + second.committed, second.error)
    decreases |a|
  {
    if a == [] {
      assert a + b == b;
    } else {
      assert (a + b)[1..] == a[1..] + b;
      RunConcat(ApplyBatch(t, a[0]).value, a[1..], b);
    }
  }

  /** A failed batch ends the run: what follows it does not matter. */
  lemma {:induction false} RunStopsAtError(t: Tables, a: seq<seq<Record>>, b: seq<seq<Record>>)
    requires RunBatches(t, a).error.Some?
    ensures RunBatches(t, a + b) == RunBatches(t, a)
    decreases |a|
  {
    assert (a + b)[1..] == a[1..] + b;
    if ApplyBatch(t, a[0]).Ok? {
      RunStopsAtError(ApplyBatch(t, a[0]).value, a[1..], b);
    }
  }

  /** A run without failures leaves what absorbing all its records leaves, however batched. */
  lemma {:induction false} RunMeans(t: Tables, bs: seq<seq<Record>>)
    requires RunBatches(t, bs).error.None?
    ensures RunBatches(t, bs).tables == Absorb(t, Flatten(bs))
    ensures RunBatches(t, bs).committed == |bs|
    ensures forall i :: 0 <= i < |bs| ==> DistinctNeos(bs[i])
    decreases |bs|
  {
    if bs == [] {
      AbsorbNothing(t);
    } else {
      CommittedBatchMeans(t, bs[0]);
      RunMeans(ApplyBatch(t, bs[0]).value, bs[1..]);
      AbsorbConcat(t, bs[0], Flatten(bs[1..]));
      forall i | 0 <= i < |bs| ensures DistinctNeos(bs[i]) {
        if i > 0 {
          assert bs[i] == bs[1..][i - 1];
        }
      }
    }
  }

  // ----- Crash and rerun -----

  /** A process killed after at most `k` commits. */
  function Attempt(t: Tables, bs: seq<seq<Record>>, k: nat): Tables {
    RunBatches(t, Take(k, bs)).tables
  }

  lemma AbsorbedIsCovered(t: Tables, rs: seq<Record>)
    ensures Covers(Absorb(t, rs), rs)
  {
  }

  lemma CoversMore(t: Tables, u: Tables, rs: seq<Record>)
    requires Covers(t, rs) && t.asteroids.Keys <= u.asteroids.Keys && t.approaches.Keys <= u.approaches.Keys
    ensures Covers(u, rs)
  {
  }

  lemma CoversConcat(t: Tables, a: seq<Record>, b: seq<Record>)
    ensures Covers(t, a + b) <==> Covers(t, a) && Covers(t, b)
  {
    NeosConcat(a, b);
    AllApproachesConcat(a, b);
    ApproachKeysConcat(AllApproaches(a), AllApproaches(b));
  }

  lemma {:induction false} CoveredRunCommits(t: Tables, bs: seq<seq<Record>>)
    requires Covers(t, Flatten(bs)) && forall i :: 0 <= i < |bs| ==> DistinctNeos(bs[i])
    ensures RunBatches(t, bs).error.None?
    decreases |bs|
  {
    if bs != [] {
      CoversConcat(t, bs[0], Flatten(bs[1..]));
      CoveredBatchCommits(t, bs[0]);
      CommittedBatchMeans(t, bs[0]);
      var next := ApplyBatch(t, bs[0]).value;
      CoversMore(t, next, Flatten(bs[1..]));
      assert forall i :: 0 <= i < |bs[1..]| ==> bs[1..][i] == bs[i + 1];
      CoveredRunCommits(next, bs[1..]);
    }
  }

  /** Batches that all committed once commit again, and change nothing. */
  lemma RepeatChangesNothing(t: Tables, bs: seq<seq<Record>>)
    requires RunBatches(t, bs).error.None?
    ensures RunBatches(RunBatches(t, bs).tables, bs) == RunBatches(t, bs)
  {
    RunMeans(t, bs);
    var after, all := RunBatches(t, bs).tables, Flatten(bs);
    AbsorbedIsCovered(t, all);
    CoveredRunCommits(after, bs);
    RunMeans(after, bs);
    AbsorbIdempotent(t, all);
  }

  /** The committed part of a run. */
  lemma {:induction false} CommittedPrefix(t: Tables, bs: seq<seq<Record>>)
    ensures
      var r := RunBatches(t, bs);
      && r.committed <= |bs| && (r.error.Some? ==> r.committed < |bs|)
      && RunBatches(t, bs[..r.committed]) == Run(r.tables, r.committed, None)
    decreases |bs|
  {
    if bs != [] && ApplyBatch(t, bs[0]).Ok? {
      var next := ApplyBatch(t, bs[0]).value;
      CommittedPrefix(next, bs[1..]);
      var r := RunBatches(t, bs);
      assert bs[..r.committed][1..] == bs[1..][..r.committed - 1];
    }
  }

  /** After a crash at any point, running the whole file leaves the same tables, commits the
      same batches and meets the same error as if there had been no crash. */
  lemma RerunEqualsCleanRun(t: Tables, bs: seq<seq<Record>>, k: nat)
    ensures RunBatches(Attempt(t, bs, k), bs) == RunBatches(t, bs)
  {
    var part := Take(k, bs);
    CommittedPrefix(t, part);
    var done := RunBatches(t, part).committed;
    var first, rest := part[..done], bs[done..];
    assert bs == first + rest by {
      assert part == bs[..|part|];
    }
    var crashed := Attempt(t, bs, k);
    assert RunBatches(t, first) == Run(crashed, done, None);
    RepeatChangesNothing(t, first);
    RunConcat(t, first, rest);
    RunConcat(crashed, first, rest);
  }

  /** A connection lost while batch `at` was being upserted, before its commit or after it. */
  datatype Fault = Fault(at: nat, committed: bool)

  function LinkAt(fault: Option<Fault>, i: nat): Link {
    if fault.None? || fault.value.at != i then Up else if fault.value.committed then LostAfter else LostBefore
  }

  /** The same fault, counted from `n` batches later. */
  function Later(fault: Option<Fault>, n: nat): Option<Fault>
    requires Spared(fault, n)
  {
    if fault.None? then None else Some(Fault(fault.value.at - n, fault.value.committed))
  }

  /** The fault has not struck among the first `n` batches. */
  predicate Spared(fault: Option<Fault>, n: nat) {
    fault.Some? ==> n <= fault.value.at
  }

  /** A run over a connection that may be lost. It stops at the first batch that fails for any reason,
      so one loss is all a run can meet. */
  function RunFile(t: Tables, bs: seq<seq<Record>>, fault: Option<Fault>): Run
    decreases |bs|
  {
    if bs == [] then Run(t, 0, None)
    else if LinkAt(fault, 0) != Up then
      Run(AfterBatch(t, bs[0], LinkAt(fault, 0)), 0, Some(ConnectionLost))
    else
      var next := ApplyBatch(t, bs[0]);
      if next.Err? then Run(t, 0, Some(next.error))
      else
        var rest := RunFile(next.value, bs[1..], Later(fault, 1));
        Run(rest.tables, rest.committed + 1, rest.error)
  }

  lemma {:induction false} SparedRun(t: Tables, bs: seq<seq<Record>>, fault: Option<Fault>)
    requires Spared(fault, |bs|)
    ensures RunFile(t, bs, fault) == RunBatches(t, bs)
    decreases |bs|
  {
    if bs != [] && ApplyBatch(t, bs[0]).Ok? {
      SparedRun(ApplyBatch(t, bs[0]).value, bs[1..], Later(fault, 1));
    }
  }

  /** A run without an error met no fault. */
  lemma {:induction false} NoErrorNoFault(t: Tables, bs: seq<seq<Record>>, fault: Option<Fault>)
    requires RunFile(t, bs, fault).error.None?
    ensures RunFile(t, bs, fault) == RunBatches(t, bs)
    decreases |bs|
  {
    if bs != [] {
      NoErrorNoFault(ApplyBatch(t, bs[0]).value, bs[1..], Later(fault, 1));
    }
  }

  /** A fault within a run that would not fail otherwise is met. */
  lemma {:induction false} FaultStrikes(t: Tables, bs: seq<seq<Record>>, fault: Option<Fault>)
    requires RunBatches(t, bs).error.None? && fault.Some? && fault.value.at < |bs|
    ensures RunFile(t, bs, fault).error == Some(ConnectionLost)
    decreases |bs|
  {
    if fault.value.at > 0 {
      FaultStrikes(ApplyBatch(t, bs[0]).value, bs[1..], Later(fault, 1));
    }
  }

  lemma {:induction false} RunFileConcat(t: Tables, a: seq<seq<Record>>, b: seq<seq<Record>>, fault: Option<Fault>)
    requires RunBatches(t, a).error.None? && Spared(fault, |a|)
    ensures
      var first := RunBatches(t, a);
      var second := RunFile(first.tables, b, Later(fault, |a|));
      RunFile(t, a + b, fault) == Run(second.tables, first.committed + second.committed, second.error)
    decreases |a|
  {
    if a == [] {
      assert a + b == b;
    } else {
      assert (a + b)[1..] == a[1..] + b;
      RunFileConcat(ApplyBatch(t, a[0]).value, a[1..], b, Later(fault, 1));
    }
  }

  lemma OneBatch(t: Tables, batch: seq<Record>)
    ensures RunBatches(t, [batch]).tables == AfterBatch(t, batch, LostAfter)
  {
    assert [batch][1..] == [];
  }

  /** Whatever a lost connection leaves behind, a process killed at some point could have left. */
  lemma {:induction false} FaultIsAnAttempt(t: Tables, bs: seq<seq<Record>>, fault: Option<Fault>) returns (k: nat)
    ensures RunFile(t, bs, fault).tables == Attempt(t, bs, k)
    decreases |bs|
  {
    if bs == [] || LinkAt(fault, 0) == LostBefore {
      k := 0;
      assert Take(0, bs) == [];
    } else if LinkAt(fault, 0) == Up && ApplyBatch(t, bs[0]).Ok? {
      var more := FaultIsAnAttempt(ApplyBatch(t, bs[0]).value, bs[1..], Later(fault, 1));
      k := more + 1;
      assert Take(k, bs)[0] == bs[0] && Take(k, bs)[1..] == Take(more, bs[1..]);
    } else {
      k := 1;
      assert Take(1, bs) == [bs[0]];
      OneBatch(t, bs[0]);
    }
  }

  /** After a connection lost at any batch, on either side of its commit, running the whole file again
      leaves the tables of one clean run. */
  lemma RerunAfterFault(t: Tables, bs: seq<seq<Record>>, fault: Option<Fault>)
    ensures RunBatches(RunFile(t, bs, fault).tables, bs) == RunBatches(t, bs)
  {
    var k := FaultIsAnAttempt(t, bs, fault);
    RerunEqualsCleanRun(t, bs, k);
  }

  /** Any series of killed runs. */
  function Attempts(t: Tables, bs: seq<seq<Record>>, kills: seq<nat>): Tables {
    if kills == [] then t
    else Attempt(Attempts(t, bs, kills[..|kills| - 1]), bs, kills[|kills| - 1])
  }

  lemma {:induction false} RerunAfterCrashes(t: Tables, bs: seq<seq<Record>>, kills: seq<nat>)
    ensures RunBatches(Attempts(t, bs, kills), bs) == RunBatches(t, bs)
    decreases |kills|
  {
    if kills != [] {
      var n := |kills| - 1;
      RerunAfterCrashes(t, bs, kills[..n]);
      RerunEqualsCleanRun(Attempts(t, bs, kills[..n]), bs, kills[n]);
    }
  }

  // ----- Batching does not show -----

  lemma {:induction false} FlattenChunks(rs: seq<Record>, n: nat)
    requires n > 0
    ensures Flatten(Chunks(rs, n)) == rs
    decreases |rs|
  {
    if |rs| > n {
      FlattenChunks(rs[n..], n);
      assert rs == rs[..n] + rs[n..];
      assert ([rs[..n]] + Chunks(rs[n..], n))[1..] == Chunks(rs[n..], n);
    } else if rs != [] {
      assert Flatten([rs]) == rs + Flatten([]);
    }
  }

  /** What a run reports: the sum of its batches' counters. */
  function Totals(t: Tables, bs: seq<seq<Record>>): UpsertStats
    requires RunBatches(t, bs).error.None?
    decreases |bs|
  {
    if bs == [] then UpsertStats(0, 0, 0, 0)
    else
      var next := ApplyBatch(t, bs[0]).value;
      Growth(t, next, bs[0]).Plus(Totals(next, bs[1..]))
  }

  lemma GrowthAdds(t: Tables, mid: Tables, end: Tables, a: seq<Record>, b: seq<Record>)
    ensures Growth(t, mid, a).Plus(Growth(mid, end, b)) == Growth(t, end, a + b)
  {
    AllApproachesConcat(a, b);
  }

  lemma {:induction false} TotalsAreGrowth(t: Tables, bs: seq<seq<Record>>)
    requires RunBatches(t, bs).error.None?
    ensures Totals(t, bs) == Growth(t, RunBatches(t, bs).tables, Flatten(bs))
    decreases |bs|
  {
    if bs != [] {
      var next := ApplyBatch(t, bs[0]).value;
      TotalsAreGrowth(next, bs[1..]);
      GrowthAdds(t, next, RunBatches(t, bs).tables, bs[0], Flatten(bs[1..]));
    }
  }

  /** Two ways of batching the same records, neither failing, leave the same tables and report
      the same four totals. */
  lemma BatchingDoesNotShow(t: Tables, a: seq<seq<Record>>, b: seq<seq<Record>>)
    requires RunBatches(t, a).error.None? && RunBatches(t, b).error.None?
    requires Flatten(a) == Flatten(b)
    ensures RunBatches(t, a).tables == RunBatches(t, b).tables
    ensures Totals(t, a) == Totals(t, b)
  {
    RunMeans(t, a);
    RunMeans(t, b);
    TotalsAreGrowth(t, a);
    TotalsAreGrowth(t, b);
  }

  lemma {:induction false} WellFormedRunCommits(t: Tables, bs: seq<seq<Record>>)
    requires Consistent(t) && AllWellFormed(Flatten(bs))
    ensures RunBatches(t, bs).error.None? <==> forall i :: 0 <= i < |bs| ==> DistinctNeos(bs[i])
    ensures Consistent(RunBatches(t, bs).tables)
    decreases |bs|
  {
    if bs != [] {
      var here, rest := bs[0], Flatten(bs[1..]);
      assert AllWellFormed(here) by {
        assert forall i :: 0 <= i < |here| ==> here[i] == (here + rest)[i];
      }
      assert AllWellFormed(rest) by {
        assert forall i :: 0 <= i < |rest| ==> rest[i] == (here + rest)[|here| + i];
      }
      WellFormedBatchCommits(t, here);
      if DistinctNeos(here) {
        WellFormedRunCommits(ApplyBatch(t, here).value, bs[1..]);
        assert forall i :: 1 <= i < |bs| ==> bs[i] == bs[1..][i - 1];
        assert forall i :: 0 <= i < |bs[1..]| ==> bs[1..][i] == bs[i + 1];
      }
    }
  }

  /** Transformed records upserted one by one never fail on consistent tables. Upserted 1000 at
      a time they fail exactly when some batch repeats a natural key; otherwise tables and
      totals are those of the record-by-record run. */
  lemma BatchedLikeOneByOne(t: Tables, rs: seq<Record>)
    requires Consistent(t) && AllWellFormed(rs)
    ensures
      var batched, single := Chunks(rs, BATCH), Chunks(rs, 1);
      && RunBatches(t, single).error.None?
      && (RunBatches(t, batched).error.None? <==> forall i :: 0 <= i < |batched| ==> DistinctNeos(batched[i]))
      && (RunBatches(t, batched).error.None? ==>
            && RunBatches(t, batched).tables == RunBatches(t, single).tables
            && Totals(t, batched) == Totals(t, single))
  {
    FlattenChunks(rs, BATCH);
    FlattenChunks(rs, 1);
    WellFormedRunCommits(t, Chunks(rs, BATCH));
    ChunkSizes(rs, 1);
    WellFormedRunCommits(t, Chunks(rs, 1));
    if RunBatches(t, Chunks(rs, BATCH)).error.None? {
      BatchingDoesNotShow(t, Chunks(rs, BATCH), Chunks(rs, 1));
    }
  }

  lemma {:induction false} ChunkSizes(rs: seq<Record>, n: nat)
    requires n > 0
    ensures forall i :: 0 <= i < |Chunks(rs, n)| ==> 0 < |Chunks(rs, n)[i]| <= n
    decreases |rs|
  {
    if |rs| > n {
      ChunkSizes(rs[n..], n);
    }
  }

  /** In particular a file in which no natural key occurs twice. */
  lemma {:induction false} DistinctFileCommits(t: Tables, rs: seq<Record>, n: nat)
    requires Consistent(t) && AllWellFormed(rs) && DistinctNeos(rs) && n > 0
    ensures RunBatches(t, Chunks(rs, n)).error.None?
  {
    FlattenChunks(rs, n);
    WellFormedRunCommits(t, Chunks(rs, n));
    ChunksDistinct(rs, n);
  }

  lemma {:induction false} ChunksDistinct(rs: seq<Record>, n: nat)
    requires n > 0 && DistinctNeos(rs)
    ensures forall i :: 0 <= i < |Chunks(rs, n)| ==> DistinctNeos(Chunks(rs, n)[i])
    decreases |rs|
  {
    if |rs| > n {
      ChunksDistinct(rs[n..], n);
    }
  }

  // ----- Streaming -----

  datatype FileStats = FileStats(totals: UpsertStats, newIds: seq<Uuid>, hazardEvents: seq<HazardEvent>)

  /** The batches a file is cut into. An unreadable line loses the batch being filled. */
  function FileBatches(lines: seq<Line>): seq<seq<Record>> {
    var rs := Records(lines);
    if Readable(lines) then Chunks(rs, BATCH) else Chunks(FullPrefix(rs, BATCH), BATCH)
  }

  /** Only the batch left over at the end of the file contributes its new ids. */
  function FileNewIds(t: Tables, lines: seq<Line>): seq<Uuid> {
    var rs := Records(lines);
    NewIds(RunBatches(t, Chunks(FullPrefix(rs, BATCH), BATCH)).tables.asteroids, ShortSuffix(rs, BATCH))
  }

  function LoadFile(t: Tables, lines: seq<Line>, fault: Option<Fault>): Result<FileStats, LoadError> {
    var run := RunFile(t, FileBatches(lines), fault);
    if run.error.Some? then Err(UpsertFailed(run.error.value))
    else if !Readable(lines) then Err(ReadFailed)
    else if Records(lines) == [] then Err(NoValidRecords)
    else
      assert RunBatches(t, FileBatches(lines)).error.None? by { NoErrorNoFault(t, FileBatches(lines), fault); }
      Ok(FileStats(Totals(t, FileBatches(lines)), FileNewIds(t, lines), []))
  }

  lemma {:induction false} RecordsSplit(lines: seq<Line>, i: nat)
    requires i <= |lines| && Readable(lines[..i])
    ensures Records(lines) == Records(lines[..i]) + Records(lines[i..])
    decreases i
  {
    if i == 0 {
      assert lines[0..] == lines;
    } else {
      assert lines[..i][0] == lines[0] && lines[..i][1..] == lines[1..][..i - 1];
      assert lines[1..][i - 1..] == lines[i..];
      assert forall k :: 0 <= k < i - 1 ==> lines[1..][k] == lines[..i][k + 1];
      RecordsSplit(lines[1..], i - 1);
    }
  }

  lemma RecordsSnoc(lines: seq<Line>, i: nat)
    requires i < |lines| && Readable(lines[..i])
    ensures Records(lines[..i + 1])
      == Records(lines[..i]) + if lines[i].Parsed? then [lines[i].record] else []
  {
    assert lines[..i + 1][..i] == lines[..i] && lines[..i + 1][i..] == [lines[i]];
    RecordsSplit(lines[..i + 1], i);
    assert Records([lines[i]]) == if lines[i].Parsed? then [lines[i].record] else [];
  }

  /** Full batches stay what they are when more records follow. */
  lemma {:induction false} ChunksExtend(done: seq<seq<Record>>, more: seq<Record>, n: nat)
    requires n > 0 && forall i :: 0 <= i < |done| ==> |done[i]| == n
    ensures Chunks(Flatten(done) + more, n) == done + Chunks(more, n)
    ensures |Flatten(done)| == |done| * n
    decreases |done|
  {
    if done == [] {
      assert Flatten(done) + more == more;
    } else {
      ChunksExtend(done[1..], more, n);
      var tail := Flatten(done[1..]) + more;
      var all := Flatten(done) + more;
      assert all == done[0] + tail;
      assert all[..n] == done[0] && all[n..] == tail;
      assert |done| * n == n + (|done| - 1) * n;
      if tail == [] {
        assert all == done[0] && done[1..] == [];
      }
    }
  }

  lemma FullPart(full: nat, more: nat, n: nat, total: nat)
    requires n > 0 && total == full * n + more
    ensures total % n == more % n
    ensures total - total % n == full * n + (more - more % n)
  {
    ModAdds(full, more, n);
  }

  lemma {:induction false} ModAdds(full: nat, more: nat, n: nat)
    requires n > 0
    ensures (full * n + more) % n == more % n
  {
    if full > 0 {
      ModAdds(full - 1, more, n);
      var x := (full - 1) * n + more;
      assert full * n + more == x + n;
      assert (x + n) % n == x % n by {
        assert x + n == (x / n + 1) * n + x % n;
        ModUnique(x + n, x / n + 1, x % n, n);
      }
    }
  }

  lemma ModUnique(x: nat, q: nat, r: nat, n: nat)
    requires n > 0 && x == q * n + r && r < n
    ensures x % n == r
  {
    var d := x / n - q;
    assert x % n == r - d * n;
    MultipleBounds(d, n);
  }

  lemma MultipleBounds(d: int, n: nat)
    ensures d >= 1 ==> d * n >= n
    ensures d <= -1 ==> d * n + n <= 0
  {
  }

  function FullPrefix(rs: seq<Record>, n: nat): seq<Record>
    requires n > 0
  {
    rs[..|rs| - |rs| % n]
  }

  function ShortSuffix(rs: seq<Record>, n: nat): seq<Record>
    requires n > 0
  {
    rs[|rs| - |rs| % n..]
  }

  lemma SliceConcat(a: seq<Record>, b: seq<Record>, m: nat)
    requires m <= |b|
    ensures (a + b)[..|a| + m] == a + b[..m] && (a + b)[|a| + m..] == b[m..]
  {
  }

  lemma FullPrefixConcat(a: seq<Record>, full: nat, more: seq<Record>, n: nat)
    requires n > 0 && |a| == full * n
    ensures FullPrefix(a + more, n) == a + FullPrefix(more, n)
    ensures ShortSuffix(a + more, n) == ShortSuffix(more, n)
  {
    FullPart(full, |more|, n, |a + more|);
    SliceConcat(a, more, |more| - |more| % n);
  }

  lemma SplitAtFull(done: seq<seq<Record>>, more: seq<Record>, n: nat)
    requires n > 0 && forall k :: 0 <= k < |done| ==> |done[k]| == n
    ensures FullPrefix(Flatten(done) + more, n) == Flatten(done) + FullPrefix(more, n)
    ensures ShortSuffix(Flatten(done) + more, n) == ShortSuffix(more, n)
    ensures Chunks(FullPrefix(Flatten(done) + more, n), n) == done + Chunks(FullPrefix(more, n), n)
  {
    ChunksExtend(done, FullPrefix(more, n), n);
    FullPrefixConcat(Flatten(done), |done|, more, n);
  }

  lemma ShortIsAllSuffix(rs: seq<Record>, n: nat)
    requires |rs| < n
    ensures FullPrefix(rs, n) == [] && ShortSuffix(rs, n) == rs
  {
  }

  /** Once the first `i` lines have filled `done` and left `batch`, the batches of the whole
      file are `done`, then those of what is left. */
  lemma BatchesAfter(lines: seq<Line>, i: nat, done: seq<seq<Record>>, batch: seq<Record>)
    requires i <= |lines| && Readable(lines[..i])
    requires Records(lines[..i]) == Flatten(done) + batch
    requires forall k :: 0 <= k < |done| ==> |done[k]| == BATCH
    ensures
      var more := batch + Records(lines[i..]);
      && FileBatches(lines) == done + Chunks(if Readable(lines) then more else FullPrefix(more, BATCH), BATCH)
      && Records(lines) == Flatten(done) + more
  {
    var more := batch + Records(lines[i..]);
    RecordsSplit(lines, i);
    assert Records(lines) == Flatten(done) + more;
    ChunksExtend(done, more, BATCH);
    SplitAtFull(done, more, BATCH);
  }

  /** New ids are those of the batch left over. */
  lemma LeftOver(t: Tables, lines: seq<Line>, done: seq<seq<Record>>, batch: seq<Record>)
    requires Records(lines) == Flatten(done) + batch && |batch| < BATCH
    requires forall k :: 0 <= k < |done| ==> |done[k]| == BATCH
    ensures FileNewIds(t, lines) == NewIds(RunBatches(t, done).tables.asteroids, batch)
  {
    SplitAtFull(done, batch, BATCH);
    ShortIsAllSuffix(batch, BATCH);
    assert done + Chunks([], BATCH) == done;
  }

  lemma {:induction false} TotalsSnoc(t: Tables, done: seq<seq<Record>>, batch: seq<Record>)
    requires RunBatches(t, done).error.None? && ApplyBatch(RunBatches(t, done).tables, batch).Ok?
    ensures
      var before := RunBatches(t, done).tables;
      var after := ApplyBatch(before, batch).value;
      && RunBatches(t, done + [batch]) == Run(after, RunBatches(t, done).committed + 1, None)
      && Totals(t, done + [batch]) == Totals(t, done).Plus(Growth(before, after, batch))
    decreases |done|
  {
    RunConcat(t, done, [batch]);
    if done == [] {
      assert done + [batch] == [batch];
    } else {
      assert (done + [batch])[1..] == done[1..] + [batch];
      TotalsSnoc(ApplyBatch(t, done[0]).value, done[1..], batch);
    }
  }

  /** Where the line loop stands: `done` committed, `batch` filling. */
  ghost predicate Filled(t: Tables, lines: seq<Line>, i: nat, done: seq<seq<Record>>, batch: seq<Record>) {
    && i <= |lines| && Readable(lines[..i])
    && Records(lines[..i]) == Flatten(done) + batch
    && (forall k :: 0 <= k < |done| ==> |done[k]| == BATCH)
    && RunBatches(t, done).error.None? && RunBatches(t, done).committed == |done|
  }

  /** What the loop keeps between lines. */
  ghost predicate Loading(t: Tables, lines: seq<Line>, i: nat, done: seq<seq<Record>>, batch: seq<Record>,
        contents: Tables,
        totals: UpsertStats, recordCount: nat, fault: Option<Fault>, sent: nat) {
    && Filled(t, lines, i, done, batch) && |batch| < BATCH && sent == |done| && Spared(fault, sent)
    && contents == RunBatches(t, done).tables && totals == Totals(t, done)
    && (recordCount == 0 <==> Flatten(done) + batch == [])
  }

  lemma LoadingBegins(t: Tables, lines: seq<Line>, fault: Option<Fault>)
    ensures Loading(t, lines, 0, [], [], t, UpsertStats(0, 0, 0, 0), 0, fault, 0)
  {
  }

  /** The last, partial batch, and the verdict on an empty file. */
  method UpsertRest(db: Database, ghost t: Tables, ghost lines: seq<Line>, ghost done: seq<seq<Record>>,
        batch: seq<Record>, totals: UpsertStats, recordCount: nat, fault: Option<Fault>, sent: nat)
      returns (r: Result<FileStats, LoadError>)
    requires Loading(t, lines, |lines|, done, batch, db.Contents(), totals, recordCount, fault, sent)
    modifies db
    ensures db.Contents() == RunFile(t, FileBatches(lines), fault).tables
    ensures r == LoadFile(t, lines, fault)
  {
    EndOfFile(t, lines, done, batch, fault);
    var all, newIds := totals, [];
    if batch != [] {
      var stats := db.UpsertBatch(batch, LinkAt(fault, sent));
      if stats.Err? {
        return Err(UpsertFailed(stats.error));
      }
      all := totals.Plus(stats.value.counts);
      newIds := stats.value.newIds;
    }
    if recordCount == 0 {
      return Err(NoValidRecords);
    }
    return Ok(FileStats(all, newIds, []));
  }

  /** Upserts a full batch and adds up its counters. */
  method UpsertFull(db: Database, ghost t: Tables, ghost lines: seq<Line>, ghost i: nat, ghost done: seq<seq<Record>>,
        batch: seq<Record>, totals: UpsertStats, fault: Option<Fault>, sent: nat)
      returns (r: Result<UpsertStats, DbError>)
    requires Filled(t, lines, i, done, batch) && |batch| == BATCH && sent == |done| && Spared(fault, sent)
    requires db.Contents() == RunBatches(t, done).tables && totals == Totals(t, done)
    modifies db
    ensures r.Ok? ==> Filled(t, lines, i, done + [batch], []) && Spared(fault, sent + 1)
    ensures r.Ok? ==> Flatten(done + [batch]) + [] == Flatten(done) + batch
    ensures r.Ok? ==> db.Contents() == RunBatches(t, done + [batch]).tables && r.value == Totals(t, done + [batch])
    ensures r.Err? ==> db.Contents() == RunFile(t, FileBatches(lines), fault).tables
    ensures r.Err? ==> LoadFile(t, lines, fault) == Err(UpsertFailed(r.error))
  {
    var stats := db.UpsertBatch(batch, LinkAt(fault, sent));
    if stats.Err? {
      FullBatch(t, lines, i, done, batch, fault);
      return Err(stats.error);
    }
    Flushed(t, lines, i, done, batch);
    return Ok(totals.Plus(stats.value.counts));
  }

  /** One parsed line: the record joins the batch, and a full batch is upserted. */
  method TakeRecord(db: Database, ghost t: Tables, ghost lines: seq<Line>, ghost i: nat, ghost done: seq<seq<Record>>,
        batch: seq<Record>, record: Record, totals: UpsertStats, recordCount: nat, fault: Option<Fault>,
        sent: nat)
      returns (error: Option<DbError>, ghost done': seq<seq<Record>>, batch': seq<Record>, totals': UpsertStats,
            sent': nat)
    requires Loading(t, lines, i, done, batch, db.Contents(), totals, recordCount, fault, sent)
    requires i < |lines| && lines[i] == Parsed(record)
    modifies db
    ensures error.None? ==>
      Loading(t, lines, i + 1, done', batch', db.Contents(), totals', recordCount + 1, fault, sent')
    ensures error.Some? ==> db.Contents() == RunFile(t, FileBatches(lines), fault).tables
    ensures error.Some? ==> LoadFile(t, lines, fault) == Err(UpsertFailed(error.value))
  {
    ReadRecord(t, lines, i, done, batch);
    error, done', batch', totals', sent' := None, done, batch + [record], totals, sent;
    if |batch'| >= BATCH {
      var added := UpsertFull(db, t, lines, i + 1, done, batch', totals, fault, sent);
      if added.Err? {
        error := Some(added.error);
      } else {
        done', totals', batch', sent' := done + [batch'], added.value, [], sent + 1;
      }
    }
  }

  /** One line: unreadable ends the load, blank and malformed are skipped, and a record is taken in. */
  method TakeLine(db: Database, ghost t: Tables, lines: seq<Line>, i: nat, ghost done: seq<seq<Record>>,
        batch: seq<Record>, totals: UpsertStats, recordCount: nat, fault: Option<Fault>, sent: nat)
      returns (error: Option<LoadError>, ghost done': seq<seq<Record>>, batch': seq<Record>, totals': UpsertStats,
               recordCount': nat, sent': nat)
    requires i < |lines| && Loading(t, lines, i, done, batch, db.Contents(), totals, recordCount, fault, sent)
    modifies db
    ensures error.None? ==>
      Loading(t, lines, i + 1, done', batch', db.Contents(), totals', recordCount', fault, sent')
    ensures error.Some? ==> db.Contents() == RunFile(t, FileBatches(lines), fault).tables
    ensures error.Some? ==> LoadFile(t, lines, fault) == Err(error.value)
  {
    error, done', batch', totals', recordCount', sent' := None, done, batch, totals, recordCount, sent;
    match lines[i] {
      case Unreadable =>
        UnreadableEnds(t, lines, i, done, batch, fault);
        error := Some(ReadFailed);
      case Parsed(record) =>
        var failed;
        failed, done', batch', totals', sent' :=
          TakeRecord(db, t, lines, i, done, batch, record, totals, recordCount, fault, sent);
        recordCount' := recordCount + 1;
        if failed.Some? {
          error := Some(UpsertFailed(failed.value));
        }
      case _ =>
        SkipLine(t, lines, i, done, batch, db.Contents(), totals, recordCount, fault, sent);
    }
  }

  method StreamLines(db: Database, lines: seq<Line>, fault: Option<Fault>)
      returns (r: Result<FileStats, LoadError>)
    modifies db
    ensures db.Contents() == RunFile(old(db.Contents()), FileBatches(lines), fault).tables
    ensures r == LoadFile(old(db.Contents()), lines, fault)
  {
    ghost var t := db.Contents();
    var totals, batch: seq<Record> := UpsertStats(0, 0, 0, 0), [];
    var recordCount: nat, sent: nat, i: nat := 0, 0, 0;
    ghost var done: seq<seq<Record>> := [];
    LoadingBegins(t, lines, fault);
    while i < |lines|
      invariant i <= |lines|
      invariant Loading(t, lines, i, done, batch, db.Contents(), totals, recordCount, fault, sent)
    {
      var error;
      error, done, batch, totals, recordCount, sent :=
        TakeLine(db, t, lines, i, done, batch, totals, recordCount, fault, sent);
      if error.Some? {
        return Err(error.value);
      }
      i := i + 1;
    }
    r := UpsertRest(db, t, lines, done, batch, totals, recordCount, fault, sent);
  }

  /** A file that does not open ends the load before anything is read or written. */
  method StreamAndProcessFile(db: Database, opens: bool, lines: seq<Line>, fault: Option<Fault>)
      returns (r: Result<FileStats, LoadError>)
    modifies db
    ensures db.Contents() ==
      if opens then RunFile(old(db.Contents()), FileBatches(lines), fault).tables else old(db.Contents())
    ensures r == if opens then LoadFile(old(db.Contents()), lines, fault) else Err(OpenFailed)
  {
    if !opens {
      return Err(OpenFailed);
    }
    r := StreamLines(db, lines, fault);
  }

  lemma ReadRecord(t: Tables, lines: seq<Line>, i: nat, done: seq<seq<Record>>, batch: seq<Record>)
    requires Filled(t, lines, i, done, batch) && i < |lines| && lines[i].Parsed?
    ensures Filled(t, lines, i + 1, done, batch + [lines[i].record])
  {
    RecordsSnoc(lines, i);
    assert Flatten(done) + (batch + [lines[i].record]) == Flatten(done) + batch + [lines[i].record];
    assert lines[..i + 1] == lines[..i] + [lines[i]];
  }

  lemma SkipLine(t: Tables, lines: seq<Line>, i: nat, done: seq<seq<Record>>, batch: seq<Record>, contents: Tables,
        totals: UpsertStats, recordCount: nat, fault: Option<Fault>, sent: nat)
    requires Loading(t, lines, i, done, batch, contents, totals, recordCount, fault, sent)
    requires i < |lines| && (lines[i].Blank? || lines[i].Malformed?)
    ensures Loading(t, lines, i + 1, done, batch, contents, totals, recordCount, fault, sent)
  {
    RecordsSnoc(lines, i);
    assert lines[..i + 1] == lines[..i] + [lines[i]];
  }

  lemma Flushed(t: Tables, lines: seq<Line>, i: nat, done: seq<seq<Record>>, batch: seq<Record>)
    requires Filled(t, lines, i, done, batch) && |batch| == BATCH
    requires ApplyBatch(RunBatches(t, done).tables, batch).Ok?
    ensures Filled(t, lines, i, done + [batch], [])
    ensures Flatten(done + [batch]) + [] == Flatten(done) + batch
    ensures
      var before := RunBatches(t, done).tables;
      var after := ApplyBatch(before, batch).value;
      && RunBatches(t, done + [batch]).tables == after
      && Totals(t, done + [batch]) == Totals(t, done).Plus(Growth(before, after, batch))
  {
    TotalsSnoc(t, done, batch);
    FlattenSnoc(done, batch);
  }

  lemma UnreadableEnds(t: Tables, lines: seq<Line>, i: nat, done: seq<seq<Record>>, batch: seq<Record>,
        fault: Option<Fault>)
    requires i < |lines| && lines[i].Unreadable? && Filled(t, lines, i, done, batch) && |batch| < BATCH
    requires Spared(fault, |done|)
    ensures FileBatches(lines) == done && LoadFile(t, lines, fault) == Err(ReadFailed)
    ensures RunFile(t, done, fault) == RunBatches(t, done)
  {
    BatchesAfter(lines, i, done, batch);
    assert batch + Records(lines[i..]) == batch;
    assert !Readable(lines);
    ShortIsAllSuffix(batch, BATCH);
    assert done + Chunks([], BATCH) == done;
    SparedRun(t, done, fault);
  }

  /** How the upsert of `batch`, next after `done`, ends the run: it fails by itself, or the link is lost. */
  ghost predicate EndsHere(t: Tables, lines: seq<Line>, done: seq<seq<Record>>, batch: seq<Record>,
        fault: Option<Fault>)
  {
    var before, link := RunBatches(t, done).tables, LinkAt(fault, |done|);
    && RunFile(t, FileBatches(lines), fault).tables == AfterBatch(before, batch, link)
    && (link == Up ==>
          && ApplyBatch(before, batch).Err?
          && LoadFile(t, lines, fault) == Err(UpsertFailed(ApplyBatch(before, batch).error)))
    && (link != Up ==> LoadFile(t, lines, fault) == Err(UpsertFailed(ConnectionLost)))
  }

  lemma NextBatchEnds(t: Tables, lines: seq<Line>, done: seq<seq<Record>>, batch: seq<Record>, rest: seq<seq<Record>>,
        fault: Option<Fault>)
    requires RunBatches(t, done).error.None? && FileBatches(lines) == done + ([batch] + rest) && Spared(fault, |done|)
    requires LinkAt(fault, |done|) != Up || ApplyBatch(RunBatches(t, done).tables, batch).Err?
    ensures EndsHere(t, lines, done, batch, fault)
  {
    RunFileConcat(t, done, [batch] + rest, fault);
    assert LinkAt(Later(fault, |done|), 0) == LinkAt(fault, |done|);
  }

  /** A batch that is full is the next of the file's batches. */
  lemma FullBatchIsNext(lines: seq<Line>, i: nat, done: seq<seq<Record>>, batch: seq<Record>)
      returns (rest: seq<seq<Record>>)
    requires i <= |lines| && Readable(lines[..i]) && Records(lines[..i]) == Flatten(done) + batch && |batch| == BATCH
    requires forall k :: 0 <= k < |done| ==> |done[k]| == BATCH
    ensures FileBatches(lines) == done + ([batch] + rest)
  {
    FlattenSnoc(done, batch);
    var more := done + [batch];
    assert Flatten(more) + [] == Flatten(more);
    BatchesAfter(lines, i, more, []);
    rest := FileBatches(lines)[|more|..];
    assert more + rest == done + ([batch] + rest);
  }

  /** What failing the next full batch means for the whole file. */
  lemma FullBatch(t: Tables, lines: seq<Line>, i: nat, done: seq<seq<Record>>, batch: seq<Record>, fault: Option<Fault>)
    requires Filled(t, lines, i, done, batch) && |batch| == BATCH && Spared(fault, |done|)
    requires LinkAt(fault, |done|) != Up || ApplyBatch(RunBatches(t, done).tables, batch).Err?
    ensures EndsHere(t, lines, done, batch, fault)
  {
    var rest := FullBatchIsNext(lines, i, done, batch);
    NextBatchEnds(t, lines, done, batch, rest, fault);
  }

  lemma EndOfFile(t: Tables, lines: seq<Line>, done: seq<seq<Record>>, batch: seq<Record>, fault: Option<Fault>)
    requires Filled(t, lines, |lines|, done, batch) && |batch| < BATCH && Spared(fault, |done|)
    ensures Readable(lines) && Records(lines) == Flatten(done) + batch
    ensures
      var before := RunBatches(t, done).tables;
      var last := ApplyBatch(before, batch);
      && (batch == [] ==>
            && FileBatches(lines) == done && FileNewIds(t, lines) == []
            && RunFile(t, done, fault) == RunBatches(t, done))
      && (batch != [] && last.Ok? && LinkAt(fault, |done|) == Up ==>
            && RunFile(t, FileBatches(lines), fault) == Run(last.value, RunBatches(t, done).committed + 1, None)
            && RunBatches(t, FileBatches(lines)).error.None?
            && Totals(t, FileBatches(lines)) == Totals(t, done).Plus(Growth(before, last.value, batch))
            && FileNewIds(t, lines) == NewIds(before.asteroids, batch))
      && (batch != [] && (LinkAt(fault, |done|) != Up || last.Err?) ==> EndsHere(t, lines, done, batch, fault))
  {
    assert lines[..|lines|] == lines && lines[|lines|..] == [];
    BatchesAfter(lines, |lines|, done, batch);
    assert batch + Records([]) == batch;
    LeftOver(t, lines, done, batch);
    if batch != [] {
      assert FileBatches(lines) == done + [batch];
      assert [batch] + [] == [batch];
      if LinkAt(fault, |done|) != Up || ApplyBatch(RunBatches(t, done).tables, batch).Err? {
        NextBatchEnds(t, lines, done, batch, [], fault);
      } else {
        TotalsSnoc(t, done, batch);
        SparedRun(t, done + [batch], fault);
      }
    } else {
      SparedRun(t, done, fault);
    }
  }

  // ----- Which new ids a load reports -----

  lemma {:induction false} NewIdsConcat(t: AsteroidTable, a: seq<Record>, b: seq<Record>)
    ensures NewIds(t, a + b) == NewIds(t, a) + NewIds(t, b)
  {
    if a == [] {
      assert a + b == b;
    } else {
      assert (a + b)[1..] == a[1..] + b;
      NewIdsConcat(t, a[1..], b);
    }
  }

  lemma {:induction false} NoNewIdsIff(t: AsteroidTable, rs: seq<Record>)
    ensures NewIds(t, rs) == [] <==> Neos(rs) <= t.Keys
  {
    if rs != [] {
      NoNewIdsIff(t, rs[1..]);
      NeosCons(rs);
    }
  }

  /** A table with more rows sees fewer new ids, and the same table the same. */
  lemma {:induction false} NewIdsShrink(t: AsteroidTable, u: AsteroidTable, rs: seq<Record>)
    requires t.Keys <= u.Keys
    ensures |NewIds(u, rs)| <= |NewIds(t, rs)|
    ensures t.Keys == u.Keys ==> NewIds(u, rs) == NewIds(t, rs)
  {
    if rs != [] {
      NewIdsShrink(t, u, rs[1..]);
    }
  }

  /** Cutting a file into batches, or its full batches and its rest apart, is the same. */
  lemma {:induction false} ChunksSplit(rs: seq<Record>, n: nat)
    requires n > 0
    ensures rs == FullPrefix(rs, n) + ShortSuffix(rs, n)
    ensures Chunks(rs, n) == Chunks(FullPrefix(rs, n), n) + Chunks(ShortSuffix(rs, n), n)
    decreases |rs|
  {
    if |rs| < n {
      ShortIsAllSuffix(rs, n);
    } else {
      var first, rest := rs[..n], rs[n..];
      assert rs == first + rest && Flatten([first]) == first;
      ChunksSplit(rest, n);
      FullPrefixConcat(first, 1, rest, n);
      ChunksExtend([first], rest, n);
      ChunksExtend([first], FullPrefix(rest, n), n);
    }
  }

  /** The keys the full batches of a successful run leave in the table. */
  lemma FullBatchesLeave(t: Tables, lines: seq<Line>, fault: Option<Fault>)
    ensures
      var prefix := FullPrefix(Records(lines), BATCH);
      LoadFile(t, lines, fault).Ok? ==>
        RunBatches(t, Chunks(prefix, BATCH)).tables.asteroids.Keys == t.asteroids.Keys + Neos(prefix)
  {
    if LoadFile(t, lines, fault).Ok? {
      var rs := Records(lines);
      var prefix, suffix := FullPrefix(rs, BATCH), ShortSuffix(rs, BATCH);
      var full, last := Chunks(prefix, BATCH), Chunks(suffix, BATCH);
      ChunksSplit(rs, BATCH);
      NoErrorNoFault(t, FileBatches(lines), fault);
      if RunBatches(t, full).error.Some? {
        RunStopsAtError(t, full, last);
      }
      RunMeans(t, full);
      FlattenChunks(prefix, BATCH);
    }
  }

  /** Only the last partial batch's ids are kept. What a successful load reports is all its new ids if
      and only if every asteroid of its full batches was in the catalog already. */
  lemma NewIdsCompleteIff(t: Tables, lines: seq<Line>, fault: Option<Fault>)
    ensures
      var loaded := LoadFile(t, lines, fault);
      loaded.Ok? ==>
        (loaded.value.newIds == NewIds(t.asteroids, Records(lines))
         <==> Neos(FullPrefix(Records(lines), BATCH)) <= t.asteroids.Keys)
  {
    var rs := Records(lines);
    var prefix, suffix := FullPrefix(rs, BATCH), ShortSuffix(rs, BATCH);
    var mid := RunBatches(t, Chunks(prefix, BATCH)).tables.asteroids;
    FullBatchesLeave(t, lines, fault);
    ChunksSplit(rs, BATCH);
    NewIdsConcat(t.asteroids, prefix, suffix);
    NoNewIdsIff(t.asteroids, prefix);
    if LoadFile(t, lines, fault).Ok? {
      NewIdsShrink(t.asteroids, mid, suffix);
      if Neos(prefix) <= t.asteroids.Keys {
        assert t.asteroids.Keys + Neos(prefix) == t.asteroids.Keys;
      }
    }
  }

  /** A file of fewer than 1000 records loses none. */
  lemma ShortFileReportsAllNewIds(t: Tables, lines: seq<Line>, fault: Option<Fault>)
    requires |Records(lines)| < BATCH
    ensures
      var loaded := LoadFile(t, lines, fault);
      loaded.Ok? ==> loaded.value.newIds == NewIds(t.asteroids, Records(lines))
  {
    NewIdsCompleteIff(t, lines, fault);
    ShortIsAllSuffix(Records(lines), BATCH);
  }

  // ----- A file whose new ids are lost -----

  /** `n` letters. */
  function Name(n: nat): (s: string)
    ensures |s| == n
  {
    if n == 0 then "" else Name(n - 1) + "x"
  }

  function NewRecord(n: nat): Record {
    Record(Asteroid(AsteroidV5(Name(n)), Name(n), AsteroidFacts("", 0.0, 0.0, 0.0, false, false, "", 0), 0), [])
  }

  function NewRecords(n: nat): seq<Record> {
    seq(n, i requires 0 <= i => NewRecord(i))
  }

  function LinesOf(rs: seq<Record>): seq<Line> {
    seq(|rs|, i requires 0 <= i < |rs| => Parsed(rs[i]))
  }

  lemma {:induction false} RecordsOfLines(rs: seq<Record>)
    ensures Records(LinesOf(rs)) == rs && Readable(LinesOf(rs))
    decreases |rs|
  {
    if rs != [] {
      assert LinesOf(rs)[1..] == LinesOf(rs[1..]);
      RecordsOfLines(rs[1..]);
    }
  }

  lemma {:induction false} EmptyTableSeesAll(rs: seq<Record>)
    ensures |NewIds(map[], rs)| == |rs|
  {
    if rs != [] {
      EmptyTableSeesAll(rs[1..]);
    }
  }

  lemma NewRecordsAreFine(n: nat)
    ensures DistinctNeos(NewRecords(n)) && AllWellFormed(NewRecords(n))
  {
  }

  /** A file that fills one batch exactly reports no new id. */
  lemma OneFullBatchReportsNone(t: Tables, rs: seq<Record>)
    requires |rs| == BATCH && Chunks(rs, BATCH) == [rs] && RunBatches(t, [rs]).error.None?
    ensures LoadFile(t, LinesOf(rs), None).Ok? && LoadFile(t, LinesOf(rs), None).value.newIds == []
  {
    RecordsOfLines(rs);
    SparedRun(t, [rs], None);
    assert ShortSuffix(rs, BATCH) == [];
  }

  /** A thousand new asteroids fill one batch exactly: all are inserted and none is reported. */
  lemma FullBatchLosesItsIds()
    ensures
      var t, lines := Tables(map[], map[]), LinesOf(NewRecords(BATCH));
      && LoadFile(t, lines, None).Ok? && LoadFile(t, lines, None).value.newIds == []
      && |NewIds(t.asteroids, Records(lines))| == BATCH
  {
    var t, rs := Tables(map[], map[]), NewRecords(BATCH);
    NewRecordsAreFine(BATCH);
    DistinctFileCommits(t, rs, BATCH);
    assert Chunks(rs, BATCH) == [rs];
    OneFullBatchReportsNone(t, rs);
    RecordsOfLines(rs);
    EmptyTableSeesAll(rs);
  }
}
