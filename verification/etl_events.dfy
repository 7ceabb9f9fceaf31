/** The `etl_events` log and the runs of `process_file` that write it. */
module EtlEvents {
  import opened Prelude
  import opened Repository
  import opened Load
  import opened LoadReport

  datatype EtlStatus = Running | Completed | Failed

  datatype EventRow = EventRow(sourceFile: string, status: EtlStatus)

  /** By primary key: the random id the creating run drew. `source_file` is unique by conflict
      handling, which `OneRowPerFile` checks. */
  type EventTable = map<nat, EventRow>

  predicate HasRow(events: EventTable, file: string) {
    exists id :: id in events && events[id].sourceFile == file
  }

  predicate IsFileProcessed(events: EventTable, file: string) {
    exists id :: id in events && events[id] == EventRow(file, Completed)
  }

  /** `INSERT ... ON CONFLICT (source_file) DO UPDATE`: an existing row is reset but keeps its id. A new
      row whose id is taken is refused. */
  function RecordStart(events: EventTable, id: nat, file: string): EventTable {
    if HasRow(events, file) then
      map e | e in events ::
        if events[e].sourceFile == file then events[e].(status := Running) else events[e]
    else if id in events then events
    else events[id := EventRow(file, Running)]
  }

  /** `UPDATE ... WHERE id = $1`. */
  function RecordFinish(events: EventTable, id: nat, status: EtlStatus): EventTable {
    if id in events then events[id := events[id].(status := status)] else events
  }

  datatype State = State(tables: Tables, events: EventTable)

  /** Where a process is killed, if it is. */
  datatype Kill = Never | BeforeStart | AfterCommits(k: nat) | BeforeFinish

  /** One call of `process_file`. The log's own statements may each fail, and the run goes on; `fault`
      is a connection lost while a batch was being upserted, which ends the load with an error, and so
      does a file that does not open. */
  datatype LoadRun = LoadRun(
    id: nat, file: string, opens: bool, lines: seq<Line>, force: bool,
    checkFails: bool, startFails: bool, finishFails: bool, fault: Option<Fault>, kill: Kill)

  predicate Skips(s: State, r: LoadRun) {
    !r.force && !r.checkFails && IsFileProcessed(s.events, r.file)
  }

  /** The run's start reaches the log. */
  predicate Starts(s: State, r: LoadRun) {
    !Skips(s, r) && r.kill != BeforeStart && !r.startFails
  }

  /** The run reaches its last statement, and that statement succeeds. */
  predicate Reports(s: State, r: LoadRun) {
    !Skips(s, r) && r.kill == Never && !r.finishFails
  }

  /** The batches the run gets to see. */
  function Batches(r: LoadRun): seq<seq<Record>> {
    if r.opens then FileBatches(r.lines) else []
  }

  function Loaded(t: Tables, r: LoadRun): Result<FileStats, LoadError> {
    if r.opens then LoadFile(t, r.lines, r.fault) else Err(OpenFailed)
  }

  function Verdict(s: State, r: LoadRun): EtlStatus {
    if Loaded(s.tables, r).Ok? then Completed else Failed
  }

  function ProcessFile(s: State, r: LoadRun): State {
    if Skips(s, r) || r.kill == BeforeStart then s
    else
      var started := if r.startFails then s.events else RecordStart(s.events, r.id, r.file);
      if r.kill.AfterCommits? then State(Attempt(s.tables, Batches(r), r.kill.k), started)
      else
        State(
          RunFile(s.tables, Batches(r), r.fault).tables,
          if Reports(s, r) then RecordFinish(started, r.id, Verdict(s, r)) else started)
  }

  /** The rows of every file but `f` are the same rows as before. */
  predicate OthersKept(before: EventTable, after: EventTable, f: string) {
    && (forall id :: id in before && before[id].sourceFile != f ==> id in after && after[id] == before[id])
    && (forall id :: id in after && after[id].sourceFile != f ==> id in before)
  }

  class EventLog {
    var events: EventTable

    /** The file has a running row under the id it already had, or under `id` if it had none. */
    method RecordEtlEventStart(id: nat, file: string)
      modifies this
      ensures events == RecordStart(old(events), id, file)
      ensures OthersKept(old(events), events, file)
      ensures events.Keys == if HasRow(old(events), file) then old(events).Keys else old(events).Keys + {id}
      ensures !IsFileProcessed(events, file)
      ensures HasRow(events, file) <==> HasRow(old(events), file) || id !in old(events)
    {
      if HasRow(events, file) {
        ghost var row :| row in events && events[row].sourceFile == file;
        events := map e | e in events ::
          if events[e].sourceFile == file then events[e].(status := Running) else events[e];
        assert row in events && events[row].sourceFile == file;
      } else if id !in events {
        events := events[id := EventRow(file, Running)];
        assert events[id].sourceFile == file;
      }
    }

    /** The row `id` gets the verdict; without such a row nothing happens, and no other row changes. */
    method RecordEtlEventFinish(id: nat, status: EtlStatus)
      modifies this
      ensures events == RecordFinish(old(events), id, status)
      ensures events.Keys == old(events).Keys
      ensures forall e :: e in events ==> events[e].sourceFile == old(events)[e].sourceFile
      ensures forall e :: e in events ==> events[e].status == if e == id then status else old(events)[e].status
    {
      if id in events {
        events := events[id := events[id].(status := status)];
      }
    }
  }

  /** A call that returns: a killed one never does, and `ProcessFile` says what it leaves behind.
      The log's own statements may still fail. */
  method RunProcessFile(db: Database, log: EventLog, r: LoadRun)
    requires r.kill == Never
    modifies db, log
    ensures State(db.Contents(), log.events) == ProcessFile(State(old(db.Contents()), old(log.events)), r)
  {
    if !r.force && !r.checkFails && IsFileProcessed(log.events, r.file) {
      return;
    }
    if !r.startFails {
      log.RecordEtlEventStart(r.id, r.file);
    }
    var loaded := StreamAndProcessFile(db, r.opens, r.lines, r.fault);
    if !r.finishFails {
      log.RecordEtlEventFinish(r.id, if loaded.Ok? then Completed else Failed);
    }
  }

  // ----- Histories -----

  /** Between loads other commands may leave any tables, and pruning may delete any rows of the log. */
  datatype Op = RunLoad(run: LoadRun) | Elsewhere(tables: Tables, pruned: set<nat>)

  function Step(s: State, op: Op): State {
    match op
    case RunLoad(r) => ProcessFile(s, r)
    case Elsewhere(tables, pruned) => State(tables, s.events - pruned)
  }

  /** The states a history goes through, from any tables and an empty log. */
  ghost predicate History(ops: seq<Op>, states: seq<State>) {
    && |states| == |ops| + 1 && states[0].events == map[]
    && forall i :: 0 <= i < |ops| ==> Follows(ops, states, i)
  }

  ghost predicate Follows(ops: seq<Op>, states: seq<State>, i: nat)
    requires |states| == |ops| + 1 && i < |ops|
  {
    states[i + 1] == Step(states[i], ops[i])
  }

  /** Each run draws its own id. */
  ghost predicate FreshIds(ops: seq<Op>) {
    forall i, j :: 0 <= i < j < |ops| && ops[i].RunLoad? && ops[j].RunLoad? ==> ops[i].run.id != ops[j].run.id
  }

  ghost predicate UniqueFiles(events: EventTable) {
    forall a, b :: a in events && b in events && events[a].sourceFile == events[b].sourceFile ==> a == b
  }

  /** Operation `i` is a run of `f` whose start reaches the log. */
  predicate StartOf(ops: seq<Op>, states: seq<State>, f: string, i: nat)
    requires |states| == |ops| + 1 && i < |ops|
  {
    ops[i].RunLoad? && ops[i].run.file == f && Starts(states[i], ops[i].run)
  }

  /** Operation `i` deletes the log row of `f`. */
  predicate PruneOf(ops: seq<Op>, states: seq<State>, f: string, i: nat)
    requires |states| == |ops| + 1 && i < |ops|
  {
    var events := states[i].events;
    ops[i].Elsewhere? && exists id :: id in events && events[id].sourceFile == f && id in ops[i].pruned
  }

  /** One of the first `n` operations is the run that drew `id`. */
  predicate Drawn(ops: seq<Op>, n: nat, id: nat)
    requires n <= |ops|
  {
    exists i :: 0 <= i < n && ops[i].RunLoad? && ops[i].run.id == id
  }

  lemma NewIdIsDrawn(s: State, r: LoadRun, id: nat)
    requires id in ProcessFile(s, r).events
    ensures id in s.events || id == r.id
  {
  }

  lemma {:induction false} IdComesFromRun(ops: seq<Op>, states: seq<State>, n: nat, id: nat)
    requires History(ops, states) && n <= |ops| && id in states[n].events
    ensures Drawn(ops, n, id)
    decreases n
  {
    assert n > 0;
    assert Follows(ops, states, n - 1);
    if ops[n - 1].RunLoad? {
      NewIdIsDrawn(states[n - 1], ops[n - 1].run, id);
    }
    if id in states[n - 1].events {
      IdComesFromRun(ops, states, n - 1, id);
    }
  }

  lemma IdIsFresh(ops: seq<Op>, states: seq<State>, n: nat)
    requires History(ops, states) && FreshIds(ops) && n < |ops| && ops[n].RunLoad?
    ensures ops[n].run.id !in states[n].events
  {
    if ops[n].run.id in states[n].events {
      IdComesFromRun(ops, states, n, ops[n].run.id);
    }
  }

  lemma StepKeepsFilesUnique(s: State, r: LoadRun)
    requires UniqueFiles(s.events) && r.id !in s.events
    ensures UniqueFiles(ProcessFile(s, r).events)
  {
  }

  /** In every history each file has at most one row. */
  lemma {:induction false} OneRowPerFile(ops: seq<Op>, states: seq<State>, n: nat)
    requires History(ops, states) && FreshIds(ops) && n <= |ops|
    ensures UniqueFiles(states[n].events)
    decreases n
  {
    if n > 0 {
      OneRowPerFile(ops, states, n - 1);
      assert Follows(ops, states, n - 1);
      if ops[n - 1].RunLoad? {
        IdIsFresh(ops, states, n - 1);
        StepKeepsFilesUnique(states[n - 1], ops[n - 1].run);
      }
    }
  }

  // ----- What the log of one file says -----

  /** One run, seen from the log of file `f`: a start creates the row or resets it to running,
      and only the run that created the row writes its verdict. */
  lemma StepOnFile(s: State, r: LoadRun, f: string)
    requires UniqueFiles(s.events) && r.id !in s.events
    ensures
      var after := ProcessFile(s, r).events;
      if r.file != f || !Starts(s, r) then
        && (HasRow(after, f) <==> HasRow(s.events, f))
        && (IsFileProcessed(after, f) <==> IsFileProcessed(s.events, f))
      else if HasRow(s.events, f) then HasRow(after, f) && !IsFileProcessed(after, f)
      else
        && HasRow(after, f)
        && (IsFileProcessed(after, f) <==> Reports(s, r) && Verdict(s, r) == Completed)
  {
    var after := ProcessFile(s, r).events;
    if r.file != f || !Starts(s, r) {
      OtherRunKeepsRows(s, r, f);
    } else if HasRow(s.events, f) {
      var row :| row in s.events && s.events[row].sourceFile == f;
      assert after[row] == EventRow(f, Running);
      assert UniqueFiles(after) by { StepKeepsFilesUnique(s, r); }
    } else {
      assert after[r.id].sourceFile == f;
      assert UniqueFiles(after) by { StepKeepsFilesUnique(s, r); }
    }
  }

  lemma OtherRunKeepsRows(s: State, r: LoadRun, f: string)
    requires r.id !in s.events && (r.file != f || !Starts(s, r))
    ensures
      var after := ProcessFile(s, r).events;
      && (forall id :: id in s.events && s.events[id].sourceFile == f ==> id in after && after[id] == s.events[id])
      && (forall id :: id in after && after[id].sourceFile == f ==> id in s.events && after[id] == s.events[id])
  {
  }

  /** A prune, seen from the log of file `f`. */
  lemma PruneOnFile(events: EventTable, pruned: set<nat>, f: string)
    requires UniqueFiles(events)
    ensures
      var after := events - pruned;
      if exists id :: id in events && events[id].sourceFile == f && id in pruned then !HasRow(after, f)
      else
        && (HasRow(after, f) <==> HasRow(events, f))
        && (IsFileProcessed(after, f) <==> IsFileProcessed(events, f))
  {
    var after := events - pruned;
    if !(exists id :: id in events && events[id].sourceFile == f && id in pruned) {
      assert forall id :: id in events && events[id].sourceFile == f ==> id in after;
    }
  }

  /** Run `i` of the file did it all: it recorded a start, committed every batch and said so. */
  predicate LoadedBy(ops: seq<Op>, states: seq<State>, f: string, i: nat)
    requires |states| == |ops| + 1 && i < |ops|
  {
    && StartOf(ops, states, f, i)
    && Reports(states[i], ops[i].run) && Verdict(states[i], ops[i].run) == Completed
  }

  /** The last of the first `n` operations, seen from the log of `f`. */
  lemma LastOp(ops: seq<Op>, states: seq<State>, f: string, n: nat)
    requires History(ops, states) && FreshIds(ops) && 0 < n <= |ops|
    ensures
      var before, after := states[n - 1].events, states[n].events;
      if PruneOf(ops, states, f, n - 1) then !HasRow(after, f)
      else if !StartOf(ops, states, f, n - 1) then
        && (HasRow(after, f) <==> HasRow(before, f))
        && (IsFileProcessed(after, f) <==> IsFileProcessed(before, f))
      else if HasRow(before, f) then HasRow(after, f) && !IsFileProcessed(after, f)
      else HasRow(after, f) && (IsFileProcessed(after, f) <==> LoadedBy(ops, states, f, n - 1))
  {
    OneRowPerFile(ops, states, n - 1);
    assert Follows(ops, states, n - 1);
    var s := states[n - 1];
    match ops[n - 1] {
      case RunLoad(r) =>
        IdIsFresh(ops, states, n - 1);
        StepOnFile(s, r, f);
      case Elsewhere(_, pruned) =>
        PruneOnFile(s.events, pruned, f);
    }
  }

  /** The row of `f` is pruned by none of the operations from `i` up to `n`. */
  ghost predicate Unpruned(ops: seq<Op>, states: seq<State>, f: string, i: nat, n: nat)
    requires |states| == |ops| + 1 && n <= |ops|
  {
    forall j :: i <= j < n ==> !PruneOf(ops, states, f, j)
  }

  /** A file has a row exactly when some run of it recorded a start and its row has not been pruned since. */
  lemma {:induction false} RowIffStarted(ops: seq<Op>, states: seq<State>, f: string, n: nat)
    requires History(ops, states) && FreshIds(ops) && n <= |ops|
    ensures HasRow(states[n].events, f)
      <==> exists i :: 0 <= i < n && StartOf(ops, states, f, i) && Unpruned(ops, states, f, i, n)
    decreases n
  {
    if n > 0 {
      RowIffStarted(ops, states, f, n - 1);
      LastOp(ops, states, f, n);
      if PruneOf(ops, states, f, n - 1) {
        assert forall i :: 0 <= i < n ==> !Unpruned(ops, states, f, i, n);
      } else if StartOf(ops, states, f, n - 1) {
        assert Unpruned(ops, states, f, n - 1, n);
      } else {
        forall i | 0 <= i < n - 1 ensures Unpruned(ops, states, f, i, n) <==> Unpruned(ops, states, f, i, n - 1) {
        }
      }
    }
  }

  /** From `i` up to `n` the log of `f` is as operation `i` left it: no start, no prune. */
  ghost predicate Undisturbed(ops: seq<Op>, states: seq<State>, f: string, i: nat, n: nat)
    requires |states| == |ops| + 1 && n <= |ops|
  {
    forall j :: i < j < n ==> Quiet(ops, states, f, j)
  }

  predicate Quiet(ops: seq<Op>, states: seq<State>, f: string, j: nat)
    requires |states| == |ops| + 1 && j < |ops|
  {
    !StartOf(ops, states, f, j) && !PruneOf(ops, states, f, j)
  }

  /** Operation `i` found no row of `f`, recorded the only start since, and loaded and reported the file. */
  ghost predicate OnlyLoader(ops: seq<Op>, states: seq<State>, f: string, i: nat, n: nat)
    requires |states| == |ops| + 1 && i < n <= |ops|
  {
    !HasRow(states[i].events, f) && LoadedBy(ops, states, f, i) && Undisturbed(ops, states, f, i, n)
  }

  lemma QuietExtends(ops: seq<Op>, states: seq<State>, f: string, i: nat, n: nat)
    requires |states| == |ops| + 1 && n < |ops| && Undisturbed(ops, states, f, i, n) && Quiet(ops, states, f, n)
    ensures Undisturbed(ops, states, f, i, n + 1)
  {
    forall j | i < j < n + 1 ensures Quiet(ops, states, f, j) {
    }
  }

  lemma QuietKeepsLoader(ops: seq<Op>, states: seq<State>, f: string, i: nat, n: nat)
    requires |states| == |ops| + 1 && i < n < |ops| && OnlyLoader(ops, states, f, i, n) && Quiet(ops, states, f, n)
    ensures OnlyLoader(ops, states, f, i, n + 1)
  {
    QuietExtends(ops, states, f, i, n);
  }

  lemma {:induction false} CompletedHasLoader(ops: seq<Op>, states: seq<State>, f: string, n: nat) returns (i: nat)
    requires History(ops, states) && FreshIds(ops) && n <= |ops| && IsFileProcessed(states[n].events, f)
    ensures i < n && OnlyLoader(ops, states, f, i, n)
    decreases n
  {
    assert n > 0;
    LastOp(ops, states, f, n);
    if StartOf(ops, states, f, n - 1) {
      i := n - 1;
    } else {
      assert Quiet(ops, states, f, n - 1) && IsFileProcessed(states[n - 1].events, f);
      i := CompletedHasLoader(ops, states, f, n - 1);
      QuietKeepsLoader(ops, states, f, i, n - 1);
    }
  }

  lemma {:induction false} LoaderCompletes(ops: seq<Op>, states: seq<State>, f: string, i: nat, n: nat)
    requires History(ops, states) && FreshIds(ops) && i < n <= |ops| && OnlyLoader(ops, states, f, i, n)
    ensures IsFileProcessed(states[n].events, f)
    decreases n
  {
    LastOp(ops, states, f, n);
    if i < n - 1 {
      assert Quiet(ops, states, f, n - 1) && Undisturbed(ops, states, f, i, n - 1);
      LoaderCompletes(ops, states, f, i, n - 1);
    }
  }

  /** The exact meaning of a completed row: after any history of loads and prunes, a file is marked
      completed if and only if exactly one start was recorded since its row was last absent, and that
      run loaded the file and reported it. */
  lemma CompletedIff(ops: seq<Op>, states: seq<State>, f: string, n: nat)
    requires History(ops, states) && FreshIds(ops) && n <= |ops|
    ensures IsFileProcessed(states[n].events, f) <==> exists i :: 0 <= i < n && OnlyLoader(ops, states, f, i, n)
  {
    if IsFileProcessed(states[n].events, f) {
      var i := CompletedHasLoader(ops, states, f, n);
    }
    if i :| 0 <= i < n && OnlyLoader(ops, states, f, i, n) {
      LoaderCompletes(ops, states, f, i, n);
    }
  }

  /** A completed row vouches for the data: some run of the file committed every batch of it. */
  lemma CompletedFileWasLoaded(ops: seq<Op>, states: seq<State>, f: string) returns (i: nat)
    requires History(ops, states) && FreshIds(ops) && IsFileProcessed(states[|ops|].events, f)
    ensures i < |ops| && ops[i].RunLoad? && ops[i].run.file == f && ops[i].run.opens
    ensures Readable(ops[i].run.lines) && Records(ops[i].run.lines) != []
    ensures
      var s, lines := states[i], ops[i].run.lines;
      && RunBatches(s.tables, FileBatches(lines)).error.None?
      && states[i + 1].tables == Absorb(s.tables, Records(lines))
  {
    i := CompletedHasLoader(ops, states, f, |ops|);
    assert Follows(ops, states, i);
    var s, r := states[i], ops[i].run;
    NoErrorNoFault(s.tables, FileBatches(r.lines), r.fault);
    RunMeans(s.tables, FileBatches(r.lines));
    FlattenChunks(Records(r.lines), BATCH);
  }

  /** Once two runs of a file have recorded a start, it is not completed before its row is pruned. */
  lemma SecondStartLastsUntilPruned(ops: seq<Op>, states: seq<State>, f: string, i: nat, j: nat, n: nat)
    requires History(ops, states) && FreshIds(ops) && i < j < n <= |ops|
    requires StartOf(ops, states, f, i) && StartOf(ops, states, f, j) && Unpruned(ops, states, f, i, n)
    ensures !IsFileProcessed(states[n].events, f)
  {
    if IsFileProcessed(states[n].events, f) {
      var k := CompletedHasLoader(ops, states, f, n);
      assert k < j ==> Quiet(ops, states, f, j);
      RowIffStarted(ops, states, f, k);
      assert Unpruned(ops, states, f, i, k);
    }
  }

  /** Pruning is what lets such a file complete again: a run that finds no row, and loads and reports
      the file, completes it, however many starts came before. */
  lemma AbsentRowCompletes(ops: seq<Op>, states: seq<State>, f: string, n: nat)
    requires History(ops, states) && FreshIds(ops) && 0 < n <= |ops|
    requires LoadedBy(ops, states, f, n - 1) && !HasRow(states[n - 1].events, f)
    ensures IsFileProcessed(states[n].events, f)
  {
    LastOp(ops, states, f, n);
  }

  /** Nothing about this run fails. */
  predicate Smooth(r: LoadRun) {
    !r.checkFails && !r.startFails && !r.finishFails && r.opens && r.fault.None? && r.kill == Never
  }

  lemma FirstLoad(s: State, r: LoadRun)
    requires s.events == map[] && Smooth(r)
    ensures Starts(s, r) && ProcessFile(s, r).events == map[r.id := EventRow(r.file, Verdict(s, r))]
  {
    assert RecordStart(s.events, r.id, r.file) == map[r.id := EventRow(r.file, Running)];
  }

  lemma ForcedLoad(s: State, row: nat, r: LoadRun)
    requires s.events.Keys == {row} && s.events[row].sourceFile == r.file && r.id != row && Smooth(r) && r.force
    ensures Starts(s, r) && ProcessFile(s, r).events == map[row := EventRow(r.file, Running)]
  {
    assert row in s.events && s.events[row].sourceFile == r.file;
    assert RecordStart(s.events, r.id, r.file) == map[row := EventRow(r.file, Running)];
  }

  /** A load, a forced load, a prune and an unforced load of one file. */
  ghost predicate PrunedHistory(ops: seq<Op>, f: string) {
    && |ops| == 4 && ops[0].RunLoad? && ops[1].RunLoad? && ops[3].RunLoad?
    && Smooth(ops[0].run) && Smooth(ops[1].run) && Smooth(ops[3].run)
    && ops[0].run.file == f && ops[1].run.file == f && ops[3].run.file == f && ops[1].run.force
    && FreshIds(ops) && ops[2].Elsewhere? && ops[2].pruned == {ops[0].run.id}
  }

  /** The history that tells a start from a start since the row was absent: the second start
      un-completes the file, and after the prune the third completes it. */
  lemma PrunedFileCompletesAgain(ops: seq<Op>, states: seq<State>, f: string)
    requires History(ops, states) && PrunedHistory(ops, f) && LoadFile(states[3].tables, ops[3].run.lines, None).Ok?
    ensures StartOf(ops, states, f, 0) && StartOf(ops, states, f, 1) && StartOf(ops, states, f, 3)
    ensures !IsFileProcessed(states[2].events, f) && IsFileProcessed(states[4].events, f)
  {
    var a := ops[0].run;
    assert Follows(ops, states, 0);
    FirstLoad(states[0], a);
    assert Follows(ops, states, 1);
    ForcedLoad(states[1], a.id, ops[1].run);
    assert Follows(ops, states, 2);
    assert states[3].events == map[];
    assert Follows(ops, states, 3);
    FirstLoad(states[3], ops[3].run);
    assert ops[3].run.id in states[4].events;
  }

  /** Only the run that created a file's row can finish it: another run's last statement changes
      no row at all. */
  lemma OnlyTheCreatorFinishes(s: State, r: LoadRun)
    requires r.id !in s.events && HasRow(s.events, r.file)
    ensures RecordFinish(RecordStart(s.events, r.id, r.file), r.id, Verdict(s, r))
      == RecordStart(s.events, r.id, r.file)
    ensures RecordFinish(s.events, r.id, Verdict(s, r)) == s.events
  {
  }

  /** The log of a completed file stays as it is exactly when no start is recorded, and a recorded
      start un-completes it; an unforced load whose check succeeds changes nothing at all. */
  lemma CompletedFileUntouchedIff(s: State, r: LoadRun)
    requires UniqueFiles(s.events) && r.id !in s.events && IsFileProcessed(s.events, r.file)
    ensures ProcessFile(s, r).events == s.events <==> !Starts(s, r)
    ensures Starts(s, r) ==> !IsFileProcessed(ProcessFile(s, r).events, r.file)
    ensures !r.force && !r.checkFails ==> ProcessFile(s, r) == s
  {
    var row :| row in s.events && s.events[row] == EventRow(r.file, Completed);
    StepOnFile(s, r, r.file);
    if !Starts(s, r) {
      assert ProcessFile(s, r).events == s.events;
    }
  }

  /** A load that loses its connection is recorded as failed, and the next load of the file is not
      skipped and leaves the tables of one clean run. */
  lemma FaultyLoadIsRedone(s: State, r: LoadRun, again: LoadRun)
    requires UniqueFiles(s.events) && r.id !in s.events && !HasRow(s.events, r.file)
    requires Smooth(r.(fault := None)) && r.fault.Some? && r.fault.value.at < |FileBatches(r.lines)|
    requires RunBatches(s.tables, FileBatches(r.lines)).error.None?
    requires Smooth(again) && again.file == r.file && again.lines == r.lines
    requires again.id !in s.events && again.id != r.id
    ensures
      var failed := ProcessFile(s, r);
      && failed.events == s.events[r.id := EventRow(r.file, Failed)]
      && ProcessFile(failed, again).tables == RunBatches(s.tables, FileBatches(r.lines)).tables
  {
    var bs := FileBatches(r.lines);
    FaultStrikes(s.tables, bs, r.fault);
    var failed := ProcessFile(s, r);
    assert failed.events == s.events[r.id := EventRow(r.file, Failed)];
    RerunAfterFault(s.tables, bs, r.fault);
    SparedRun(failed.tables, bs, None);
    assert !IsFileProcessed(failed.events, r.file);
  }

  // ----- What one run does -----

  /** A run that is not killed leaves the tables alone if it may skip the file, which takes an unforced run,
      a check that succeeds, and a completed row; otherwise it loads the file. */
  lemma RunLoadsIff(s: State, r: LoadRun)
    requires r.kill == Never
    ensures
      var skips := !r.force && !r.checkFails
        && exists id :: id in s.events && s.events[id] == EventRow(r.file, Completed);
      ProcessFile(s, r).tables
      == if skips || !r.opens then s.tables else RunFile(s.tables, FileBatches(r.lines), r.fault).tables
  {
  }

  /** The first run of a file, none of its log statements failing, leaves its verdict: completed exactly if
      the file opens, can be read, holds a record, and every batch of it commits. */
  lemma FirstRunIsRecorded(s: State, r: LoadRun)
    requires !HasRow(s.events, r.file) && r.id !in s.events
    requires !r.startFails && !r.finishFails && r.kill == Never
    ensures
      var loads := r.opens && Readable(r.lines) && Records(r.lines) != []
        && RunBatches(s.tables, FileBatches(r.lines)).error.None?
        && (r.fault.Some? ==> r.fault.value.at >= |FileBatches(r.lines)|);
      ProcessFile(s, r).events == s.events[r.id := EventRow(r.file, if loads then Completed else Failed)]
  {
    LoadOkIff(s.tables, r.lines, r.fault);
  }

  /** A killed run completes no file, and leaves the batches it committed. */
  lemma KilledRun(s: State, r: LoadRun)
    requires r.kill != Never && r.opens && !Skips(s, r)
    ensures r.kill == BeforeStart ==> ProcessFile(s, r) == s
    ensures r.kill.AfterCommits? ==>
      ProcessFile(s, r).tables == RunBatches(s.tables, Take(r.kill.k, FileBatches(r.lines))).tables
    ensures r.kill == BeforeFinish ==>
      ProcessFile(s, r).tables == RunFile(s.tables, FileBatches(r.lines), r.fault).tables
    ensures r.id !in s.events ==>
      forall id :: id in ProcessFile(s, r).events && ProcessFile(s, r).events[id].status == Completed ==>
        id in s.events && s.events[id] == ProcessFile(s, r).events[id]
  {
  }
}
