/** `src/alert/service.rs`: sending first and recording after, over many runs with prunes in between. */
module Alerts {
  import opened Prelude
  import opened Limits

  const DISCORD := "discord"

  /** `hazardous`: the asteroid is flagged, or the approach has one of the three listed classes. */
  datatype Approach = Approach(date: int, hazardous: bool)

  type Approaches = map<nat, Approach>

  datatype AlertRow = AlertRow(approach: nat, kind: string)

  /** The `alerts` table in insertion order, and every send the webhook accepted. */
  datatype State = State(alerts: seq<AlertRow>, sends: seq<nat>)

  predicate Recorded(alerts: seq<AlertRow>, id: nat) {
    AlertRow(id, DISCORD) in alerts
  }

  /** The rows the query may return, before its LIMIT. */
  function Due(approaches: Approaches, alerts: seq<AlertRow>, today: int): set<nat> {
    set id | id in approaches
      && approaches[id].hazardous && today <= approaches[id].date && !Recorded(alerts, id)
  }

  function DateOf(approaches: Approaches): nat -> int {
    id => if id in approaches then approaches[id].date else 0
  }

  function Ids(picked: seq<nat>): set<nat> {
    set i | 0 <= i < |picked| :: picked[i]
  }

  /** A possible answer of the query. */
  ghost predicate Picks(approaches: Approaches, alerts: seq<AlertRow>, today: int, limit: nat, picked: seq<nat>) {
    && Distinct(picked)
    && Leads(Due(approaches, alerts, today), DateOf(approaches), limit, Ids(picked))
    && forall i, j :: 0 <= i < j < |picked| ==> DateOf(approaches)(picked[i]) <= DateOf(approaches)(picked[j])
  }

  /** What becomes of one task: a crash leaves a task in one of the first two. */
  datatype Fate = NotSent | SentOnly | SentAndRecorded

  /** `UNIQUE (approach_id, alert_type)`. */
  function Insert(alerts: seq<AlertRow>, row: AlertRow): seq<AlertRow> {
    if row in alerts then alerts else alerts + [row]
  }

  function Deliver(s: State, id: nat, fate: Fate): State {
    match fate
    case NotSent => s
    case SentOnly => State(s.alerts, s.sends + [id])
    case SentAndRecorded => State(Insert(s.alerts, AlertRow(id, DISCORD)), s.sends + [id])
  }

  function DeliverAll(s: State, picked: seq<nat>, fates: seq<Fate>): State
    requires |picked| == |fates|
    decreases |picked|
  {
    if picked == [] then s
    else
      var n := |picked| - 1;
      Deliver(DeliverAll(s, picked[..n], fates[..n]), picked[n], fates[n])
  }

  class AlertService {
    var alerts: seq<AlertRow>
    var sends: seq<nat>

    constructor ()
      ensures alerts == [] && sends == []
    {
      alerts, sends := [], [];
    }

    /** One INSERT; `fails` is any failure other than the unique key. */
    method RecordAlert(id: nat, kind: string, fails: bool) returns (ok: bool)
      modifies this`alerts
      ensures ok <==> !fails && AlertRow(id, kind) !in old(alerts)
      ensures alerts == if ok then old(alerts) + [AlertRow(id, kind)] else old(alerts)
    {
      ok := !fails && AlertRow(id, kind) !in alerts;
      if ok {
        alerts := alerts + [AlertRow(id, kind)];
      }
    }

    /** The tasks of one run. Each touches only its own approach, so their order is not observable. */
    method SendAlerts(picked: seq<nat>, fates: seq<Fate>)
      requires |picked| == |fates|
      modifies this
      ensures State(alerts, sends) == DeliverAll(State(old(alerts), old(sends)), picked, fates)
    {
      ghost var s := State(alerts, sends);
      for i := 0 to |picked|
        invariant State(alerts, sends) == DeliverAll(s, picked[..i], fates[..i])
      {
        assert picked[..i + 1][..i] == picked[..i] && fates[..i + 1][..i] == fates[..i];
        if fates[i] != NotSent {
          sends := sends + [picked[i]];
          var recorded := RecordAlert(picked[i], DISCORD, fates[i] == SentOnly);
        }
      }
      assert picked[..|picked|] == picked && fates[..|picked|] == fates;
    }
  }

  // ----- Histories -----

  /** One call of `check_and_send_alerts`; approaches, date and limit may differ from call to call. */
  datatype Run = Run(approaches: Approaches, today: int, limit: nat, picked: seq<nat>, fates: seq<Fate>)

  /** What changes the table: a run, or a prune of the approaches dated before `cutoff`, whose alerts go
      with them. `today` is the date at that moment. */
  datatype Op = Send(run: Run) | Prune(today: int, cutoff: int) {
    function Day(): int {
      if Send? then run.today else today
    }
  }

  ghost predicate ValidRun(s: State, r: Run) {
    |r.picked| == |r.fates| && Picks(r.approaches, s.alerts, r.today, r.limit, r.picked)
  }

  function KeepsAlert(dates: nat -> int, cutoff: int): AlertRow -> bool {
    (row: AlertRow) => cutoff <= dates(row.approach)
  }

  /** An approach keeps its date for good, also when it is deleted and loaded again: its id is derived
      from it. The cutoff of a prune is some years before its day. */
  ghost predicate Fits(dates: nat -> int, s: State, op: Op, t: State) {
    match op
    case Send(r) =>
      && ValidRun(s, r) && t == DeliverAll(s, r.picked, r.fates)
      && forall id :: id in r.approaches ==> r.approaches[id].date == dates(id)
    case Prune(today, cutoff) =>
      cutoff <= today && t == s.(alerts := Filter(KeepsAlert(dates, cutoff), s.alerts))
  }

  ghost predicate OpFits(dates: nat -> int, ops: seq<Op>, states: seq<State>, i: nat)
    requires |states| == |ops| + 1 && i < |ops|
  {
    && Fits(dates, states[i], ops[i], states[i + 1])
    && (i > 0 ==> ops[i - 1].Day() <= ops[i].Day())
  }

  /** Any runs and prunes in turn, under a clock that does not run backwards. */
  ghost predicate History(dates: nat -> int, ops: seq<Op>, states: seq<State>) {
    && |states| == |ops| + 1 && states[0] == State([], [])
    && forall i :: 0 <= i < |ops| ==> OpFits(dates, ops, states, i)
  }

  /** Sends of `id` among `sends`. */
  function Times(sends: seq<nat>, id: nat): nat
    decreases |sends|
  {
    if sends == [] then 0 else Times(sends[..|sends| - 1], id) + if sends[|sends| - 1] == id then 1 else 0
  }

  function FateOf(picked: seq<nat>, fates: seq<Fate>, id: nat): Fate
    requires |picked| == |fates|
    decreases |picked|
  {
    if picked == [] then NotSent
    else if picked[|picked| - 1] == id then fates[|fates| - 1]
    else FateOf(picked[..|picked| - 1], fates[..|fates| - 1], id)
  }

  lemma TimesSnoc(sends: seq<nat>, x: nat, id: nat)
    ensures Times(sends + [x], id) == Times(sends, id) + if x == id then 1 else 0
  {
    assert (sends + [x])[..|sends|] == sends;
  }

  /** What one run does to one approach. */
  lemma {:induction false} RunOnOne(s: State, picked: seq<nat>, fates: seq<Fate>, id: nat)
    requires |picked| == |fates| && Distinct(picked)
    ensures
      var t := DeliverAll(s, picked, fates);
      var fate := FateOf(picked, fates, id);
      && (Recorded(t.alerts, id) <==> Recorded(s.alerts, id) || fate == SentAndRecorded)
      && Times(t.sends, id) == Times(s.sends, id) + (if fate == NotSent then 0 else 1)
    ensures id !in picked ==> FateOf(picked, fates, id) == NotSent
    decreases |picked|
  {
    if picked != [] {
      var n := |picked| - 1;
      RunOnOne(s, picked[..n], fates[..n], id);
      var u := DeliverAll(s, picked[..n], fates[..n]);
      if picked[n] == id {
        assert id !in picked[..n];
      }
      DeliverOnOne(u, picked[n], fates[n], id);
    }
  }

  lemma InsertHas(alerts: seq<AlertRow>, row: AlertRow, other: AlertRow)
    ensures other in Insert(alerts, row) <==> other in alerts || other == row
  {
  }

  lemma DeliverOnOne(s: State, picked: nat, fate: Fate, id: nat)
    ensures
      var t := Deliver(s, picked, fate);
      && (Recorded(t.alerts, id) <==> Recorded(s.alerts, id) || (picked == id && fate == SentAndRecorded))
      && Times(t.sends, id) == Times(s.sends, id) + (if picked != id || fate == NotSent then 0 else 1)
  {
    TimesSnoc(s.sends, picked, id);
    InsertHas(s.alerts, AlertRow(picked, DISCORD), AlertRow(id, DISCORD));
  }

  lemma {:induction false} RunKeepsRowsDistinct(s: State, picked: seq<nat>, fates: seq<Fate>)
    requires |picked| == |fates| && Distinct(s.alerts)
    ensures Distinct(DeliverAll(s, picked, fates).alerts)
    decreases |picked|
  {
    if picked != [] {
      RunKeepsRowsDistinct(s, picked[..|picked| - 1], fates[..|picked| - 1]);
    }
  }

  lemma {:induction false} FilterDistinct(keep: AlertRow -> bool, s: seq<AlertRow>)
    requires Distinct(s)
    ensures Distinct(Filter(keep, s))
  {
    if s != [] {
      FilterDistinct(keep, s[1..]);
      FilterIn(keep, s[1..], s[0]);
    }
  }

  /** Whatever failed, crashed or was pruned, an approach has at most one row per channel. */
  lemma {:induction false} AtMostOneRow(dates: nat -> int, ops: seq<Op>, states: seq<State>, n: nat)
    requires History(dates, ops, states) && n <= |ops|
    ensures Distinct(states[n].alerts)
    decreases n
  {
    if n > 0 {
      AtMostOneRow(dates, ops, states, n - 1);
      assert OpFits(dates, ops, states, n - 1);
      match ops[n - 1] {
        case Send(r) => RunKeepsRowsDistinct(states[n - 1], r.picked, r.fates);
        case Prune(_, cutoff) => FilterDistinct(KeepsAlert(dates, cutoff), states[n - 1].alerts);
      }
    }
  }

  /** What becomes of `id` in one operation. */
  function FateIn(op: Op, id: nat): Fate {
    if op.Send? && |op.run.picked| == |op.run.fates| then FateOf(op.run.picked, op.run.fates, id) else NotSent
  }

  /** One operation and one approach: what is sent was due, a recorded row comes only from a send and
      goes only with an approach whose date has passed. */
  lemma OpOnOne(dates: nat -> int, s: State, op: Op, t: State, id: nat)
    requires Fits(dates, s, op, t)
    ensures FateIn(op, id) != NotSent ==> !Recorded(s.alerts, id) && op.Day() <= dates(id)
    ensures Recorded(t.alerts, id) ==> Recorded(s.alerts, id) || FateIn(op, id) == SentAndRecorded
    ensures Recorded(s.alerts, id) || FateIn(op, id) == SentAndRecorded ==>
      Recorded(t.alerts, id) || dates(id) < op.Day()
    ensures Times(t.sends, id) == Times(s.sends, id) + if FateIn(op, id) == NotSent then 0 else 1
  {
    match op {
      case Send(r) =>
        RunOnOne(s, r.picked, r.fates, id);
        if id in r.picked {
          assert id in Ids(r.picked);
        }
      case Prune(_, cutoff) => FilterIn(KeepsAlert(dates, cutoff), s.alerts, AlertRow(id, DISCORD));
    }
  }

  /** The approach's date had passed when the last of the first `n` operations took place. */
  predicate Passed(dates: nat -> int, ops: seq<Op>, n: nat, id: nat)
    requires n <= |ops|
  {
    n > 0 && dates(id) < ops[n - 1].Day()
  }

  lemma PassedStays(dates: nat -> int, ops: seq<Op>, states: seq<State>, n: nat, id: nat)
    requires History(dates, ops, states) && n < |ops| && Passed(dates, ops, n, id)
    ensures Passed(dates, ops, n + 1, id) && FateIn(ops[n], id) == NotSent
  {
    assert OpFits(dates, ops, states, n);
    OpOnOne(dates, states[n], ops[n], states[n + 1], id);
  }

  /** A row, once there, stays until its approach's date has passed. */
  lemma {:induction false} RecordedStays(dates: nat -> int, ops: seq<Op>, states: seq<State>, i: nat, j: nat, id: nat)
    requires History(dates, ops, states) && i <= j <= |ops| && Recorded(states[i].alerts, id)
    ensures Recorded(states[j].alerts, id) || Passed(dates, ops, j, id)
    decreases j
  {
    if i < j {
      RecordedStays(dates, ops, states, i, j - 1, id);
      assert OpFits(dates, ops, states, j - 1);
      if Passed(dates, ops, j - 1, id) {
        PassedStays(dates, ops, states, j - 1, id);
      } else {
        OpOnOne(dates, states[j - 1], ops[j - 1], states[j], id);
      }
    }
  }

  /** A recorded approach is never sent again, even after a prune has deleted its row. */
  lemma RecordedNeverSent(dates: nat -> int, ops: seq<Op>, states: seq<State>, i: nat, j: nat, id: nat)
    requires History(dates, ops, states) && i <= j < |ops| && Recorded(states[i].alerts, id)
    ensures FateIn(ops[j], id) == NotSent
  {
    RecordedStays(dates, ops, states, i, j, id);
    assert OpFits(dates, ops, states, j);
    OpOnOne(dates, states[j], ops[j], states[j + 1], id);
  }

  lemma PickedIsDue(dates: nat -> int, ops: seq<Op>, states: seq<State>, i: nat, id: nat)
    requires History(dates, ops, states) && i < |ops| && ops[i].Send? && id in ops[i].run.picked
    ensures !Recorded(states[i].alerts, id) && !Passed(dates, ops, i, id)
  {
    assert OpFits(dates, ops, states, i);
    assert id in Ids(ops[i].run.picked);
  }

  /** Nor is it selected again. */
  lemma RecordedNeverPicked(dates: nat -> int, ops: seq<Op>, states: seq<State>, i: nat, j: nat, id: nat)
    requires History(dates, ops, states) && i <= j < |ops| && Recorded(states[i].alerts, id) && ops[j].Send?
    ensures id !in ops[j].run.picked
  {
    RecordedStays(dates, ops, states, i, j, id);
    if id in ops[j].run.picked {
      PickedIsDue(dates, ops, states, j, id);
    }
  }

  /** A second send happens only if the first was never recorded: when two runs both send an
      approach, the earlier one lost its record. */
  lemma ResentOnlyIfUnrecorded(dates: nat -> int, ops: seq<Op>, states: seq<State>, i: nat, j: nat, id: nat)
    requires History(dates, ops, states) && i < j < |ops|
    requires FateIn(ops[i], id) != NotSent && FateIn(ops[j], id) != NotSent
    ensures FateIn(ops[i], id) == SentOnly && !Recorded(states[j].alerts, id)
  {
    assert OpFits(dates, ops, states, i) && OpFits(dates, ops, states, j);
    OpOnOne(dates, states[i], ops[i], states[i + 1], id);
    OpOnOne(dates, states[j], ops[j], states[j + 1], id);
    if Recorded(states[i + 1].alerts, id) {
      RecordedNeverSent(dates, ops, states, i + 1, j, id);
    }
  }

  /** How many of the first `n` operations ended that way for `id`. */
  function Fates(ops: seq<Op>, id: nat, fate: Fate, n: nat): nat
    requires n <= |ops|
  {
    if n == 0 then 0 else Fates(ops, id, fate, n - 1) + if FateIn(ops[n - 1], id) == fate then 1 else 0
  }

  /** Sending is at least once and recording at most once, over any history: every send of an approach
      is one whose record was lost, or the only one ever recorded, and only a prune after its date
      takes that record away. */
  lemma {:induction false} SendsAreAccounted(dates: nat -> int, ops: seq<Op>, states: seq<State>, id: nat, n: nat)
    requires History(dates, ops, states) && n <= |ops|
    ensures Times(states[n].sends, id) == Fates(ops, id, SentOnly, n) + Fates(ops, id, SentAndRecorded, n)
    ensures Fates(ops, id, SentAndRecorded, n) <= 1
    ensures Recorded(states[n].alerts, id) ==> Fates(ops, id, SentAndRecorded, n) == 1
    ensures Fates(ops, id, SentAndRecorded, n) == 1 ==> Recorded(states[n].alerts, id) || Passed(dates, ops, n, id)
    decreases n
  {
    if n > 0 {
      SendsAreAccounted(dates, ops, states, id, n - 1);
      assert OpFits(dates, ops, states, n - 1);
      OpOnOne(dates, states[n - 1], ops[n - 1], states[n], id);
    }
  }

  /** Over any history, whatever a run picks is an approach that exists, is hazardous, is not past, and has
      no row for the channel. */
  lemma PickedIsAlertable(dates: nat -> int, ops: seq<Op>, states: seq<State>, i: nat, id: nat)
    requires History(dates, ops, states) && i < |ops| && ops[i].Send? && id in ops[i].run.picked
    ensures
      var r := ops[i].run;
      && id in r.approaches && r.approaches[id].hazardous && r.today <= r.approaches[id].date
      && forall row :: row in states[i].alerts ==> !(row.approach == id && row.kind == "discord")
  {
    assert OpFits(dates, ops, states, i);
    assert id in Ids(ops[i].run.picked);
    assert id in Due(ops[i].run.approaches, states[i].alerts, ops[i].run.today);
  }

  /** Only such approaches are ever sent. */
  lemma SentIsHazardous(dates: nat -> int, ops: seq<Op>, states: seq<State>, i: nat, id: nat)
    requires History(dates, ops, states) && i < |ops| && Times(states[i + 1].sends, id) > Times(states[i].sends, id)
    ensures ops[i].Send? && id in ops[i].run.approaches && ops[i].run.approaches[id].hazardous
    ensures ops[i].run.today <= ops[i].run.approaches[id].date
  {
    assert OpFits(dates, ops, states, i);
    OpOnOne(dates, states[i], ops[i], states[i + 1], id);
    RunOnOne(states[i], ops[i].run.picked, ops[i].run.fates, id);
    PickedIsAlertable(dates, ops, states, i, id);
  }

  // ----- Runs without faults -----

  /** Same approaches, day and limit every time, and every task succeeds. */
  ghost predicate Faultless(approaches: Approaches, today: int, limit: nat, r: Run) {
    && r.approaches == approaches && r.today == today && r.limit == limit
    && forall i :: 0 <= i < |r.fates| ==> r.fates[i] == SentAndRecorded
  }

  ghost predicate FaultlessOp(approaches: Approaches, today: int, limit: nat, op: Op) {
    op.Send? && Faultless(approaches, today, limit, op.run)
  }

  lemma {:induction false} FaultlessFate(picked: seq<nat>, fates: seq<Fate>, id: nat)
    requires |picked| == |fates| && forall i :: 0 <= i < |fates| ==> fates[i] == SentAndRecorded
    ensures FateOf(picked, fates, id) == if id in Ids(picked) then SentAndRecorded else NotSent
    decreases |picked|
  {
    if picked != [] {
      var n := |picked| - 1;
      FaultlessFate(picked[..n], fates[..n], id);
      assert picked[n] in Ids(picked);
      if id in Ids(picked) && picked[n] != id {
        var i :| 0 <= i < |picked| && picked[i] == id;
        assert picked[..n][i] == id;
      }
      if id in Ids(picked[..n]) {
        var i :| 0 <= i < n && picked[..n][i] == id;
        assert picked[i] == id;
      }
    }
  }

  /** A faultless run clears exactly what it picked: the earliest `limit` approaches due. */
  lemma FaultlessRun(s: State, r: Run)
    requires ValidRun(s, r) && Faultless(r.approaches, r.today, r.limit, r)
    ensures
      var due := Due(r.approaches, s.alerts, r.today);
      var left := Due(r.approaches, DeliverAll(s, r.picked, r.fates).alerts, r.today);
      && left == due - Ids(r.picked) && |left| == Max(0, |due| - r.limit)
      && forall done, later :: done in due - left && later in left ==>
        r.approaches[done].date <= r.approaches[later].date
  {
    var due := Due(r.approaches, s.alerts, r.today);
    var t := DeliverAll(s, r.picked, r.fates);
    forall id ensures Recorded(t.alerts, id) <==> Recorded(s.alerts, id) || id in Ids(r.picked) {
      RunOnOne(s, r.picked, r.fates, id);
      FaultlessFate(r.picked, r.fates, id);
    }
    var left := Due(r.approaches, t.alerts, r.today);
    assert left == due - Ids(r.picked);
    assert |due| == |left| + |Ids(r.picked)| by {
      assert due == left + Ids(r.picked);
    }
    forall done, later | done in due - left && later in left
      ensures r.approaches[done].date <= r.approaches[later].date
    {
      assert done in Ids(r.picked) && later in due - Ids(r.picked);
      assert DateOf(r.approaches)(done) == r.approaches[done].date;
      assert DateOf(r.approaches)(later) == r.approaches[later].date;
    }
  }

  lemma FaultlessOpClears(dates: nat -> int, ops: seq<Op>, states: seq<State>, i: nat, approaches: Approaches,
        today: int, limit: nat)
    requires History(dates, ops, states) && i < |ops| && FaultlessOp(approaches, today, limit, ops[i])
    ensures |Due(approaches, states[i + 1].alerts, today)| == Max(0, |Due(approaches, states[i].alerts, today)| - limit)
  {
    assert OpFits(dates, ops, states, i);
    FaultlessRun(states[i], ops[i].run);
  }

  /** The approaches alerts are for: hazardous, not past, and without a row for the channel. */
  ghost predicate Awaits(approaches: Approaches, alerts: seq<AlertRow>, today: int, id: nat) {
    && id in approaches && approaches[id].hazardous && approaches[id].date >= today
    && forall row :: row in alerts ==> row.approach != id || row.kind != "discord"
  }

  /** If no more than `limit` approaches await an alert, a faultless run sends and records every one. */
  lemma FaultlessRunServesAll(s: State, r: Run, awaiting: set<nat>, id: nat)
    requires ValidRun(s, r) && Faultless(r.approaches, r.today, r.limit, r)
    requires forall a :: a in awaiting <==> Awaits(r.approaches, s.alerts, r.today, a)
    requires |awaiting| <= r.limit && id in awaiting
    ensures
      var t := DeliverAll(s, r.picked, r.fates);
      && AlertRow(id, "discord") in t.alerts
      && Times(t.sends, id) == Times(s.sends, id) + 1
  {
    var due := Due(r.approaches, s.alerts, r.today);
    forall a ensures a in due <==> a in awaiting {
      assert Awaits(r.approaches, s.alerts, r.today, a) ==> AlertRow(a, DISCORD) !in s.alerts;
    }
    assert due == awaiting;
    SubsetSize(Ids(r.picked), due);
    assert id in Ids(r.picked);
    RunOnOne(s, r.picked, r.fates, id);
    FaultlessFate(r.picked, r.fates, id);
  }

  /** What is left of `n` after `k` runs of at most `limit`. */
  function Left(n: nat, limit: nat, k: nat): nat {
    if k == 0 then n else Max(0, Left(n, limit, k - 1) - limit)
  }

  /** After `k` faultless runs from any state, `Left` many approaches are due. */
  lemma {:induction false} FaultlessRunsClear(dates: nat -> int, ops: seq<Op>, states: seq<State>, i: nat, k: nat,
        approaches: Approaches, today: int, limit: nat)
    requires History(dates, ops, states) && i + k <= |ops|
    requires forall j :: i <= j < i + k ==> FaultlessOp(approaches, today, limit, ops[j])
    ensures |Due(approaches, states[i + k].alerts, today)| == Left(|Due(approaches, states[i].alerts, today)|, limit, k)
    decreases k
  {
    if k > 0 {
      FaultlessRunsClear(dates, ops, states, i, k - 1, approaches, today, limit);
      assert FaultlessOp(approaches, today, limit, ops[i + k - 1]);
      FaultlessOpClears(dates, ops, states, i + k - 1, approaches, today, limit);
    }
  }

  lemma LeftIsZeroIff(n: nat, limit: nat, k: nat)
    requires limit > 0
    ensures Left(n, limit, k) == 0 <==> DivCeil(n, limit) <= k
  {
    LeftCloses(n, limit, k);
    DivCeilIff(n, limit, k);
  }

  lemma {:induction false} LeftCloses(n: nat, limit: nat, k: nat)
    ensures Left(n, limit, k) == Max(0, n - k * limit)
    decreases k
  {
    if k > 0 {
      LeftCloses(n, limit, k - 1);
      assert k * limit == (k - 1) * limit + limit;
    }
  }

  /** `n` approaches are cleared after `k` faultless runs exactly when `k` is at least `n / limit`
      rounded up; a limit of zero never clears any. */
  lemma ClearedIff(dates: nat -> int, ops: seq<Op>, states: seq<State>, i: nat, k: nat, approaches: Approaches,
        today: int, limit: nat)
    requires History(dates, ops, states) && i + k <= |ops|
    requires forall j :: i <= j < i + k ==> FaultlessOp(approaches, today, limit, ops[j])
    ensures
      var n := |Due(approaches, states[i].alerts, today)|;
      Due(approaches, states[i + k].alerts, today) == {} <==> n == 0 || (limit > 0 && DivCeil(n, limit) <= k)
  {
    FaultlessRunsClear(dates, ops, states, i, k, approaches, today, limit);
    var n := |Due(approaches, states[i].alerts, today)|;
    if limit > 0 {
      LeftIsZeroIff(n, limit, k);
    } else {
      LeftCloses(n, limit, k);
    }
  }
}
