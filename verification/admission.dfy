/** `src/api/handlers/hazard_events_sse.rs`: the lock-free cap on hazard-stream subscribers. */
module Admission {
  import opened Prelude

  /** `usize` on a 64-bit target. */
  const USIZE_RANGE := 0x1_0000_0000_0000_0000

  type usize = n: nat | n < USIZE_RANGE

  /** Where one client's request is: `Loaded` holds the count it read. */
  datatype Client = Starting | Loaded(current: usize) | Attached | Refused | Gone

  datatype State = State(count: usize, clients: seq<Client>)

  /** A request arrives; a client loads, tries its compare-exchange, or drops its guard. */
  datatype Step = Connect | Load(client: nat) | Cas(client: nat) | Drop(client: nat)

  predicate Enabled(s: State, step: Step) {
    match step
    case Connect => true
    case Load(i) => i < |s.clients| && s.clients[i].Starting?
    case Cas(i) => i < |s.clients| && s.clients[i].Loaded?
    case Drop(i) => i < |s.clients| && s.clients[i].Attached?
  }

  /** `fetch_sub(1)`, which wraps. */
  function FetchSub(count: usize): usize {
    if count == 0 then USIZE_RANGE - 1 else count - 1
  }

  /** `current + 1` in the same width. */
  function Plus1(current: usize): usize {
    if current == USIZE_RANGE - 1 then 0 else current + 1
  }

  /** Both are arithmetic modulo the width. */
  lemma WrapsAround(count: usize)
    ensures FetchSub(count) == (count + USIZE_RANGE - 1) % USIZE_RANGE
    ensures Plus1(count) == (count + 1) % USIZE_RANGE
  {
  }

  function Next(max: usize, s: State, step: Step): State
    requires Enabled(s, step)
  {
    match step
    case Connect => s.(clients := s.clients + [Starting])
    case Load(i) =>
      s.(clients := s.clients[i := if s.count >= max then Refused else Loaded(s.count)])
    case Cas(i) =>
      var current := s.clients[i].current;
      if s.count == current then State(Plus1(current), s.clients[i := Attached])
      else s.(clients := s.clients[i := Starting])
    case Drop(i) => State(FetchSub(s.count), s.clients[i := Gone])
  }

  function Init(): State {
    State(0, [])
  }

  /** Slots held: clients with a live guard. */
  function Held(clients: seq<Client>): nat {
    if clients == [] then 0
    else Held(clients[..|clients| - 1]) + if clients[|clients| - 1].Attached? then 1 else 0
  }

  lemma {:induction false} HeldUpdate(clients: seq<Client>, i: nat, c: Client)
    requires i < |clients|
    ensures Held(clients[i := c]) ==
      Held(clients) - (if clients[i].Attached? then 1 else 0) + (if c.Attached? then 1 else 0)
    decreases |clients|
  {
    var n := |clients| - 1;
    var after := clients[i := c];
    if i < n {
      assert after[..n] == clients[..n][i := c];
      HeldUpdate(clients[..n], i, c);
    } else {
      assert after[..n] == clients[..n];
    }
  }

  lemma {:induction false} HeldHas(clients: seq<Client>, i: nat)
    requires i < |clients| && clients[i].Attached?
    ensures Held(clients) > 0
    decreases |clients|
  {
    if i < |clients| - 1 {
      HeldHas(clients[..|clients| - 1], i);
    }
  }

  /** The counter is the number of held slots, within the cap, and so is every value in hand. */
  ghost predicate Inv(max: usize, s: State) {
    && s.count == Held(s.clients) <= max
    && forall i :: 0 <= i < |s.clients| && s.clients[i].Loaded? ==> s.clients[i].current < max
  }

  lemma StepKeepsInv(max: usize, s: State, step: Step)
    requires Inv(max, s) && Enabled(s, step)
    ensures Inv(max, Next(max, s, step))
    ensures step.Drop? ==> s.count > 0
  {
    match step {
      case Connect =>
        assert (s.clients + [Starting])[..|s.clients|] == s.clients;
      case Load(i) =>
        HeldUpdate(s.clients, i, if s.count >= max then Refused else Loaded(s.count));
      case Cas(i) =>
        HeldUpdate(s.clients, i, if s.count == s.clients[i].current then Attached else Starting);
      case Drop(i) =>
        HeldUpdate(s.clients, i, Gone);
        HeldHas(s.clients, i);
    }
  }

  // ----- Whole runs -----

  ghost predicate IsRun(max: usize, run: seq<Step>, states: seq<State>) {
    && |states| == |run| + 1 && states[0] == Init()
    && forall k :: 0 <= k < |run| ==> StepFits(max, run, states, k)
  }

  ghost predicate StepFits(max: usize, run: seq<Step>, states: seq<State>, k: nat)
    requires |states| == |run| + 1 && k < |run|
  {
    && Enabled(states[k], run[k])
    && states[k + 1] == Next(max, states[k], run[k])
  }

  /** In every interleaving the counter equals the slots held and never passes the cap. */
  lemma {:induction false} InvAlways(max: usize, run: seq<Step>, states: seq<State>, k: nat)
    requires IsRun(max, run, states) && k <= |run|
    ensures Inv(max, states[k])
    decreases k
  {
    if k > 0 {
      InvAlways(max, run, states, k - 1);
      assert StepFits(max, run, states, k - 1);
      StepKeepsInv(max, states[k - 1], run[k - 1]);
    }
  }

  /** In no interleaving does the counter's arithmetic wrap: not in an admission, not in a drop. */
  lemma NoWrapAround(max: usize, run: seq<Step>, states: seq<State>, k: nat, step: Step)
    requires IsRun(max, run, states) && k <= |run| && Enabled(states[k], step)
    ensures step.Cas? ==> Plus1(states[k].clients[step.client].current) == states[k].clients[step.client].current + 1
    ensures step.Drop? ==> states[k].count > 0
  {
    InvAlways(max, run, states, k);
    StepKeepsInv(max, states[k], step);
  }

  predicate IsRefused(s: State, i: nat) {
    i < |s.clients| && s.clients[i].Refused?
  }

  /** A load refuses its client exactly when every slot is held at that moment. */
  lemma RefusedIffFull(max: usize, run: seq<Step>, states: seq<State>, k: nat)
    requires IsRun(max, run, states) && k < |run| && run[k].Load?
    ensures IsRefused(states[k + 1], run[k].client) <==> Held(states[k].clients) == max
  {
    InvAlways(max, run, states, k);
    assert StepFits(max, run, states, k);
  }

  /** A client that is refused was refused by one of its own loads, when every slot was held. */
  lemma {:induction false} RefusalHasAFullMoment(max: usize, run: seq<Step>, states: seq<State>, k: nat, i: nat)
      returns (load: nat)
    requires IsRun(max, run, states) && k <= |run| && IsRefused(states[k], i)
    ensures load < k && run[load] == Load(i) && Held(states[load].clients) == max
    decreases k
  {
    assert k > 0;
    assert StepFits(max, run, states, k - 1);
    var before := states[k - 1];
    if IsRefused(before, i) {
      load := RefusalHasAFullMoment(max, run, states, k - 1, i);
    } else {
      load := k - 1;
      RefusedIffFull(max, run, states, k - 1);
    }
  }

  predicate CasFails(s: State, step: Step, i: nat) {
    step == Cas(i) && i < |s.clients| && s.clients[i].Loaded? && s.count != s.clients[i].current
  }

  /** A step of a client other than `i` that moves the counter: an admission or a drop. */
  predicate OtherProgress(s: State, step: Step, i: nat) {
    match step
    case Connect => false
    case Load(_) => false
    case Cas(j) => j != i && j < |s.clients| && s.clients[j].Loaded? && s.count == s.clients[j].current
    case Drop(j) => j != i
  }

  /** Steps among the first `k` that satisfy `p` in the state they start from. */
  function Tally(p: (State, Step) -> bool, run: seq<Step>, states: seq<State>, k: nat): nat
    requires k <= |run| && |states| == |run| + 1
  {
    if k == 0 then 0 else Tally(p, run, states, k - 1) + if p(states[k - 1], run[k - 1]) then 1 else 0
  }

  function FailsOf(i: nat): (State, Step) -> bool {
    (s, step) => CasFails(s, step, i)
  }

  function ProgressBut(i: nat): (State, Step) -> bool {
    (s, step) => OtherProgress(s, step, i)
  }

  /** The counter has moved since client `i` loaded it. */
  predicate Outdated(s: State, i: nat) {
    i < |s.clients| && s.clients[i].Loaded? && s.clients[i].current != s.count
  }

  lemma OutdatedByOthers(max: usize, s: State, step: Step, i: nat)
    requires Inv(max, s) && Enabled(s, step)
    ensures Outdated(Next(max, s, step), i) ==> Outdated(s, i) || OtherProgress(s, step, i)
    ensures CasFails(s, step, i) ==> Outdated(s, i) && !Outdated(Next(max, s, step), i)
  {
  }

  /** Lock-freedom, counted: a client's compare-exchange fails no more often than other clients
      are admitted or leave. Each failure is paid for by another client's progress. */
  lemma {:induction false} FailuresArePaidFor(max: usize, run: seq<Step>, states: seq<State>, i: nat, k: nat)
    requires IsRun(max, run, states) && k <= |run|
    ensures Tally(FailsOf(i), run, states, k) + (if Outdated(states[k], i) then 1 else 0)
         <= Tally(ProgressBut(i), run, states, k)
    decreases k
  {
    if k > 0 {
      FailuresArePaidFor(max, run, states, i, k - 1);
      InvAlways(max, run, states, k - 1);
      assert StepFits(max, run, states, k - 1);
      OutdatedByOthers(max, states[k - 1], run[k - 1], i);
    }
  }

  /** Client `i` takes no step in `[from, to)`. */
  ghost predicate Idle(run: seq<Step>, i: nat, from: nat, to: nat)
    requires from <= to <= |run|
  {
    forall k :: from <= k < to ==> run[k].Connect? || run[k].client != i
  }

  /** The one failure: between the load and the failed compare-exchange another client was
      admitted or dropped its guard. */
  lemma {:induction false} FailedCasHasACause(max: usize, run: seq<Step>, states: seq<State>, i: nat, load: nat,
        cas: nat)
      returns (cause: nat)
    requires IsRun(max, run, states) && load < cas <= |run| && run[load] == Load(i)
    requires Idle(run, i, load + 1, cas) && Outdated(states[cas], i)
    ensures load < cause < cas && OtherProgress(states[cause], run[cause], i)
    decreases cas
  {
    InvAlways(max, run, states, cas - 1);
    assert StepFits(max, run, states, cas - 1);
    OutdatedByOthers(max, states[cas - 1], run[cas - 1], i);
    if OtherProgress(states[cas - 1], run[cas - 1], i) {
      cause := cas - 1;
    } else {
      cause := FailedCasHasACause(max, run, states, i, load, cas - 1);
    }
  }

  // ----- The handler's own loop -----

  lemma RunSnoc(max: usize, run: seq<Step>, states: seq<State>, step: Step)
    requires IsRun(max, run, states) && Enabled(states[|run|], step)
    ensures IsRun(max, run + [step], states + [Next(max, states[|run|], step)])
  {
    var more, all := run + [step], states + [Next(max, states[|run|], step)];
    forall k | 0 <= k < |more| ensures StepFits(max, more, all, k) {
      if k < |run| {
        assert StepFits(max, run, states, k);
      }
    }
  }

  /** The shared counter and the requests on it. `state` is where some run of the interleaving model has
      got to, and `schedule` is what the other clients will still try to do, in order. */
  class SubscriberCount {
    const max: usize
    var state: State
    var schedule: seq<Step>
    ghost var run: seq<Step>
    ghost var states: seq<State>

    ghost predicate Valid()
      reads this
    {
      IsRun(max, run, states) && state == states[|run|]
    }

    constructor (max: usize, schedule: seq<Step>)
      ensures Valid() && this.max == max && this.schedule == schedule && state == Init()
    {
      this.max, state, this.schedule, run, states := max, Init(), schedule, [], [Init()];
    }

    /** One atomic step of anyone. */
    method Do(step: Step)
      requires Valid() && Enabled(state, step)
      modifies this`state, this`run, this`states
      ensures Valid() && state == Next(max, old(state), step)
      ensures run == old(run) + [step] && states == old(states) + [state]
    {
      RunSnoc(max, run, states, step);
      state := Next(max, state, step);
      run, states := run + [step], states + [state];
    }

    /** The others take any number of their next steps; one that cannot be taken is dropped. */
    method OthersAct(me: nat)
      requires Valid() && me < |state.clients|
      modifies this
      ensures Valid() && me < |state.clients| && state.clients[me] == old(state).clients[me]
      ensures old(run) <= run && |schedule| <= |old(schedule)|
      ensures |schedule| == |old(schedule)| ==> state == old(state)
    {
      var steps: nat := *;
      while steps > 0 && schedule != []
        invariant Valid() && me < |state.clients| && state.clients[me] == old(state).clients[me]
        invariant old(run) <= run && |schedule| <= |old(schedule)|
        invariant |schedule| == |old(schedule)| ==> state == old(state)
      {
        var step := schedule[0];
        if Enabled(state, step) && (step.Connect? || step.client != me) {
          Do(step);
        }
        schedule, steps := schedule[1..], steps - 1;
      }
    }

    /** The admission loop of request `me`. It ends, because an exchange fails only when others moved;
        it attaches, or refuses on a load that saw every slot held. */
    method Admit(me: nat) returns (admitted: bool)
      requires Valid() && me < |state.clients| && state.clients[me].Starting?
      modifies this
      ensures Valid() && old(run) <= run && me < |state.clients|
      ensures admitted ==> state.clients[me].Attached? && Held(state.clients) <= max
      ensures !admitted ==> state.clients[me].Refused? && Held(state.clients) == max
    {
      admitted := false;
      while true
        invariant Valid() && old(run) <= run && me < |state.clients| && state.clients[me].Starting?
        decreases |schedule|
      {
        OthersAct(me);
        var current := state.count;
        Do(Load(me));
        InvAlways(max, run, states, |run|);
        if current >= max {
          InvAlways(max, run, states, |run| - 1);
          return;
        }
        OthersAct(me);
        admitted := state.count == current;
        Do(Cas(me));
        if admitted {
          InvAlways(max, run, states, |run|);
          return;
        }
      }
    }

    /** The guard's drop: exactly one slot comes back. */
    method Release(me: nat)
      requires Valid() && me < |state.clients| && state.clients[me].Attached?
      modifies this`state, this`run, this`states
      ensures Valid() && state.clients == old(state).clients[me := Gone]
      ensures state.count == old(state).count - 1 && Held(state.clients) == Held(old(state).clients) - 1
    {
      InvAlways(max, run, states, |run|);
      StepKeepsInv(max, state, Drop(me));
      HeldUpdate(state.clients, me, Gone);
      Do(Drop(me));
    }
  }
}
