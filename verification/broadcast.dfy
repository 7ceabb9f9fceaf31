/** The hazard stream of one subscriber: a cursor into tokio's broadcast buffer, with shutdown. */
module Broadcast {
  import opened Prelude

  /** `DEFAULT_CHANNEL_CAPACITY`. */
  const CAPACITY := 256

  datatype Event = Event(approach: nat, hazard: string, timestamp: int)

  /** What has happened to one stream so far, oldest first. The client sees the first two. */
  datatype Entry = Hazard(pos: nat, event: Event) | Lagged(skipped: nat) | Unencodable(pos: nat)

  /** The channel: every event sent, whether all senders are gone, and whether the shutdown flag
      has been touched. The buffer keeps the last `CAPACITY` events. */
  datatype Channel = Channel(sent: seq<Event>, closed: bool, shutdown: bool)

  /** A receiver and its guard; `live` until the stream ends. `held` counts all guards. */
  datatype Stream = Stream(start: nat, next: nat, live: bool, held: nat, log: seq<Entry>)

  function Subscribe(c: Channel, held: nat): Stream {
    Stream(|c.sent|, |c.sent|, true, held + 1, [])
  }

  function Backlog(c: Channel, s: Stream): int {
    |c.sent| - s.next
  }

  /** What one turn of the `select!` loop answers. */
  datatype Answer = Pending | Yield(entry: Entry) | Again | Done

  /** One turn: shutdown first, then the receiver. A receiver that fell behind the buffer skips to
      the oldest event kept and is told how many it lost. */
  function Turn(encodable: Event -> bool, c: Channel, s: Stream): (Stream, Answer)
    requires s.next <= |c.sent|
  {
    if !s.live then (s, Done)
    else if c.shutdown then (End(s), Done)
    else if Backlog(c, s) > CAPACITY then
      var skipped := Backlog(c, s) - CAPACITY;
      (Log(s, s.next + skipped, Lagged(skipped)), Yield(Lagged(skipped)))
    else if Backlog(c, s) > 0 then
      var event := c.sent[s.next];
      if encodable(event) then (Log(s, s.next + 1, Hazard(s.next, event)), Yield(Hazard(s.next, event)))
      else (Log(s, s.next + 1, Unencodable(s.next)), Again)
    else if c.closed then (End(s), Done)
    else (s, Pending)
  }

  /** The stream is dropped, and its guard with it. */
  function End(s: Stream): Stream {
    s.(live := false, held := if s.held == 0 then 0 else s.held - 1)
  }

  function Log(s: Stream, next: nat, entry: Entry): Stream {
    s.(next := next, log := s.log + [entry])
  }

  /** One poll: turns until there is something to answer. */
  function Poll(encodable: Event -> bool, c: Channel, s: Stream): (Stream, Answer)
    requires s.next <= |c.sent|
    decreases Backlog(c, s)
  {
    var (t, answer) := Turn(encodable, c, s);
    if answer == Again then Poll(encodable, c, t) else (t, answer)
  }

  class Subscriber {
    var stream: Stream

    constructor (c: Channel, held: nat)
      ensures stream == Subscribe(c, held)
    {
      stream := Subscribe(c, held);
    }

    /** The step of `unfold`. */
    method Next(encodable: Event -> bool, c: Channel) returns (answer: Answer)
      requires stream.next <= |c.sent|
      modifies this
      ensures (stream, answer) == Poll(encodable, c, old(stream))
    {
      while true
        invariant stream.next <= |c.sent|
        invariant Poll(encodable, c, stream) == Poll(encodable, c, old(stream))
        decreases Backlog(c, stream)
      {
        if !stream.live {
          return Done;
        }
        if c.shutdown {
          stream := End(stream);
          return Done;
        }
        if |c.sent| - stream.next > CAPACITY {
          var oldest := |c.sent| - CAPACITY;
          var skipped := oldest - stream.next;
          stream := stream.(next := oldest, log := stream.log + [Lagged(skipped)]);
          return Yield(Lagged(skipped));
        }
        if stream.next == |c.sent| {
          if c.closed {
            stream := End(stream);
            return Done;
          }
          return Pending;
        }
        var pos := stream.next;
        var event := c.sent[pos];
        if encodable(event) {
          stream := stream.(next := pos + 1, log := stream.log + [Hazard(pos, event)]);
          return Yield(Hazard(pos, event));
        }
        stream := stream.(next := pos + 1, log := stream.log + [Unencodable(pos)]);
      }
    }
  }

  // ----- Schedules -----

  datatype Action = Publish(event: Event) | Look | ShutDown | CloseSenders | Disconnect

  function Act(encodable: Event -> bool, c: Channel, s: Stream, a: Action): (Channel, Stream)
    requires s.next <= |c.sent|
  {
    match a
    case Publish(event) => (c.(sent := c.sent + [event]), s)
    case Look => (c, Turn(encodable, c, s).0)
    case ShutDown => (c.(shutdown := true), s)
    case CloseSenders => (c.(closed := true), s)
    case Disconnect => (c, if s.live then End(s) else s)
  }

  /** The channel and the stream after a schedule, oldest action first. */
  function Run(encodable: Event -> bool, c: Channel, s: Stream, schedule: seq<Action>): (r: (Channel, Stream))
    requires s.next <= |c.sent|
    ensures r.1.next <= |r.0.sent|
    decreases |schedule|
  {
    if schedule == [] then (c, s)
    else
      var (c', s') := Run(encodable, c, s, schedule[..|schedule| - 1]);
      Act(encodable, c', s', schedule[|schedule| - 1])
  }

  /** Events an entry accounts for. */
  function Width(e: Entry): nat {
    match e
    case Hazard(_, _) => 1
    case Lagged(skipped) => skipped
    case Unencodable(_) => 1
  }

  function Widths(log: seq<Entry>): nat
    decreases |log|
  {
    if log == [] then 0 else Widths(log[..|log| - 1]) + Width(log[|log| - 1])
  }

  lemma WidthsSnoc(log: seq<Entry>, e: Entry)
    ensures Widths(log + [e]) == Widths(log) + Width(e)
  {
    assert (log + [e])[..|log|] == log;
  }

  lemma {:induction false} WidthsConcat(a: seq<Entry>, b: seq<Entry>)
    ensures Widths(a + b) == Widths(a) + Widths(b)
    decreases |b|
  {
    if b == [] {
      assert a + b == a;
    } else {
      var n := |b| - 1;
      assert a + b == (a + b[..n]) + [b[n]];
      WidthsSnoc(a + b[..n], b[n]);
      WidthsConcat(a, b[..n]);
    }
  }

  /** Entry `k` sits right after everything logged before it, and shows the event sent there. */
  ghost predicate InPlace(c: Channel, s: Stream, k: nat)
    requires k < |s.log|
  {
    var at := s.start + Widths(s.log[..k]);
    match s.log[k]
    case Hazard(pos, event) => pos == at < |c.sent| && event == c.sent[pos]
    case Lagged(skipped) => skipped > 0
    case Unencodable(pos) => pos == at
  }

  ghost predicate Accounted(c: Channel, s: Stream) {
    && s.next == s.start + Widths(s.log) <= |c.sent|
    && forall k :: 0 <= k < |s.log| ==> InPlace(c, s, k)
  }

  lemma LogKeepsAccount(c: Channel, s: Stream, e: Entry)
    requires Accounted(c, s)
    requires match e
      case Hazard(pos, event) => pos == s.next < |c.sent| && event == c.sent[pos]
      case Lagged(skipped) => 0 < skipped <= |c.sent| - s.next
      case Unencodable(pos) => pos == s.next < |c.sent|
    ensures Accounted(c, Log(s, s.next + Width(e), e))
  {
    WidthsSnoc(s.log, e);
    var t := Log(s, s.next + Width(e), e);
    forall k | 0 <= k < |t.log| ensures InPlace(c, t, k) {
      if k < |s.log| {
        assert InPlace(c, s, k);
        assert t.log[..k] == s.log[..k];
      } else {
        assert t.log[..k] == s.log;
      }
    }
  }

  lemma TurnKeepsAccount(encodable: Event -> bool, c: Channel, s: Stream)
    requires Accounted(c, s)
    ensures Accounted(c, Turn(encodable, c, s).0)
  {
    var e := TurnLogs(encodable, c, s);
    if e.Some? {
      LogKeepsAccount(c, s, e.value);
    } else {
      EndKeepsAccount(c, s);
    }
  }

  /** A turn logs one entry, or leaves the log alone. */
  lemma TurnLogs(encodable: Event -> bool, c: Channel, s: Stream) returns (e: Option<Entry>)
    requires s.next <= |c.sent|
    ensures e.None? ==> Turn(encodable, c, s).0 == s || Turn(encodable, c, s).0 == End(s)
    ensures e.Some? ==> Turn(encodable, c, s).0 == Log(s, s.next + Width(e.value), e.value)
    ensures e.Some? ==> match e.value
      case Hazard(pos, event) => pos == s.next < |c.sent| && event == c.sent[pos]
      case Lagged(skipped) => 0 < skipped <= |c.sent| - s.next
      case Unencodable(pos) => pos == s.next < |c.sent|
  {
    e := None;
    if s.live && !c.shutdown && Backlog(c, s) > CAPACITY {
      e := Some(Lagged(Backlog(c, s) - CAPACITY));
    } else if s.live && !c.shutdown && Backlog(c, s) > 0 {
      var event := c.sent[s.next];
      e := Some(if encodable(event) then Hazard(s.next, event) else Unencodable(s.next));
    }
  }

  lemma EndKeepsAccount(c: Channel, s: Stream)
    requires Accounted(c, s)
    ensures Accounted(c, End(s))
  {
    forall k | 0 <= k < |s.log| ensures InPlace(c, End(s), k) {
      assert InPlace(c, s, k);
    }
  }

  /** Flags of the channel do not matter to the account. */
  lemma FlagsKeepAccount(c: Channel, d: Channel, s: Stream)
    requires Accounted(c, s) && c.sent == d.sent
    ensures Accounted(d, s)
  {
    forall k | 0 <= k < |s.log| ensures InPlace(d, s, k) {
      assert InPlace(c, s, k);
    }
  }

  /** Any schedule of publishing, polling and shutting down keeps the account exact. */
  lemma {:induction false} AlwaysAccounted(encodable: Event -> bool, c: Channel, held: nat, schedule: seq<Action>)
    ensures var (c', s') := Run(encodable, c, Subscribe(c, held), schedule); Accounted(c', s')
    decreases |schedule|
  {
    if schedule != [] {
      var n := |schedule| - 1;
      AlwaysAccounted(encodable, c, held, schedule[..n]);
      var (c', s') := Run(encodable, c, Subscribe(c, held), schedule[..n]);
      match schedule[n] {
        case Look => TurnKeepsAccount(encodable, c', s');
        case Publish(event) => PublishKeepsAccount(c', s', event);
        case ShutDown => FlagsKeepAccount(c', c'.(shutdown := true), s');
        case CloseSenders => FlagsKeepAccount(c', c'.(closed := true), s');
        case Disconnect => EndKeepsAccount(c', s');
      }
    }
  }

  lemma PublishKeepsAccount(c: Channel, s: Stream, event: Event)
    requires Accounted(c, s)
    ensures Accounted(c.(sent := c.sent + [event]), s)
  {
    var c' := c.(sent := c.sent + [event]);
    forall k | 0 <= k < |s.log| ensures InPlace(c', s, k) {
      assert InPlace(c, s, k);
    }
  }

  function Delivered(log: seq<Entry>): nat
    decreases |log|
  {
    if log == [] then 0 else Delivered(log[..|log| - 1]) + if log[|log| - 1].Hazard? then 1 else 0
  }

  /** The sum of the `lagged` counts the client was sent. */
  function Reported(log: seq<Entry>): nat
    decreases |log|
  {
    if log == [] then 0 else Reported(log[..|log| - 1]) + if log[|log| - 1].Lagged? then log[|log| - 1].skipped else 0
  }

  function Dropped(log: seq<Entry>): nat
    decreases |log|
  {
    if log == [] then 0 else Dropped(log[..|log| - 1]) + if log[|log| - 1].Unencodable? then 1 else 0
  }

  lemma {:induction false} WidthsSplit(log: seq<Entry>)
    ensures Widths(log) == Delivered(log) + Reported(log) + Dropped(log)
    decreases |log|
  {
    if log != [] {
      WidthsSplit(log[..|log| - 1]);
    }
  }

  lemma {:induction false} StartStays(encodable: Event -> bool, c: Channel, held: nat, schedule: seq<Action>)
    ensures
      var (c', s') := Run(encodable, c, Subscribe(c, held), schedule);
      s'.start == |c.sent| <= |c'.sent| && c'.sent[..|c.sent|] == c.sent
    decreases |schedule|
  {
    if schedule != [] {
      StartStays(encodable, c, held, schedule[..|schedule| - 1]);
    }
  }

  /** A subscriber is shown only what was sent after it subscribed. */
  lemma SeesOnlyLaterEvents(encodable: Event -> bool, c: Channel, held: nat, schedule: seq<Action>, k: nat)
    requires
      var log := Run(encodable, c, Subscribe(c, held), schedule).1.log;
      k < |log| && log[k].Hazard?
    ensures Run(encodable, c, Subscribe(c, held), schedule).1.log[k].pos >= |c.sent|
  {
    AlwaysAccounted(encodable, c, held, schedule);
    StartStays(encodable, c, held, schedule);
    var (c', s') := Run(encodable, c, Subscribe(c, held), schedule);
    assert InPlace(c', s', k);
  }

  /** Nothing is lost unaccounted for: delivered, skipped, unencodable and still pending events add
      up to those sent since the subscription. */
  lemma {:induction false} NothingLost(encodable: Event -> bool, c: Channel, held: nat, schedule: seq<Action>)
    ensures
      var (c', s') := Run(encodable, c, Subscribe(c, held), schedule);
      Delivered(s'.log) + Reported(s'.log) + Dropped(s'.log) + (|c'.sent| - s'.next) == |c'.sent| - |c.sent|
  {
    StartStays(encodable, c, held, schedule);
    AlwaysAccounted(encodable, c, held, schedule);
    WidthsSplit(Run(encodable, c, Subscribe(c, held), schedule).1.log);
  }

  /** Two deliveries with none between them: the later position is larger, and the gap is exactly
      what was reported as lagged plus what could not be encoded, in between. */
  lemma GapsAreReported(c: Channel, s: Stream, i: nat, j: nat)
    requires Accounted(c, s) && i < j < |s.log| && s.log[i].Hazard? && s.log[j].Hazard?
    requires Delivered(s.log[i + 1..j]) == 0
    ensures s.log[j].pos - s.log[i].pos - 1 == Reported(s.log[i + 1..j]) + Dropped(s.log[i + 1..j])
    ensures s.log[i].pos < |c.sent| && s.log[i].event == c.sent[s.log[i].pos]
  {
    assert InPlace(c, s, i) && InPlace(c, s, j);
    assert s.log[..j] == (s.log[..i] + [s.log[i]]) + s.log[i + 1..j];
    WidthsConcat(s.log[..i] + [s.log[i]], s.log[i + 1..j]);
    WidthsSnoc(s.log[..i], s.log[i]);
    WidthsSplit(s.log[i + 1..j]);
  }

  /** Delivered positions strictly increase over the whole log. */
  lemma PositionsIncrease(c: Channel, s: Stream, i: nat, j: nat)
    requires Accounted(c, s) && i < j < |s.log| && s.log[i].Hazard? && s.log[j].Hazard?
    ensures s.log[i].pos < s.log[j].pos
  {
    assert InPlace(c, s, i) && InPlace(c, s, j);
    assert s.log[..j] == (s.log[..i] + [s.log[i]]) + s.log[i + 1..j];
    WidthsConcat(s.log[..i] + [s.log[i]], s.log[i + 1..j]);
    WidthsSnoc(s.log[..i], s.log[i]);
  }

  lemma {:induction false} PollAsTurns(encodable: Event -> bool, c: Channel, s: Stream) returns (turns: nat)
    requires s.next <= |c.sent|
    ensures turns > 0 && Run(encodable, c, s, seq(turns, _ => Look)) == (c, Poll(encodable, c, s).0)
    decreases Backlog(c, s)
  {
    var (t, answer) := Turn(encodable, c, s);
    var one := seq(1, _ => Look);
    assert one[..0] == [];
    assert Run(encodable, c, s, one) == (c, t);
    if answer == Again {
      var more := PollAsTurns(encodable, c, t);
      turns := more + 1;
      RunConcat(encodable, c, s, one, seq(more, _ => Look));
      assert one + seq(more, _ => Look) == seq(turns, _ => Look);
    } else {
      turns := 1;
    }
  }

  lemma {:induction false} RunConcat(encodable: Event -> bool, c: Channel, s: Stream, a: seq<Action>, b: seq<Action>)
    requires s.next <= |c.sent|
    ensures
      var (c', s') := Run(encodable, c, s, a);
      Run(encodable, c, s, a + b) == Run(encodable, c', s', b)
    decreases |b|
  {
    if b == [] {
      assert a + b == a;
    } else {
      var n := |b| - 1;
      assert (a + b)[..|a| + n] == a + b[..n];
      RunConcat(encodable, c, s, a, b[..n]);
    }
  }

  // ----- Shutdown -----

  /** Once shutdown flips, whatever happened before, the next poll ends the stream and gives its slot
      back, even with events waiting; and no later schedule delivers anything or releases twice. */
  lemma {:induction false} ShutdownEndsTheStream(encodable: Event -> bool, c: Channel, s: Stream, schedule: seq<Action>)
    requires s.next <= |c.sent| && s.live && s.held > 0 && c.shutdown
    ensures Poll(encodable, c, s) == (s.(live := false, held := s.held - 1), Done)
    ensures Run(encodable, c, Poll(encodable, c, s).0, schedule).1 == s.(live := false, held := s.held - 1)
    decreases |schedule|
  {
    if schedule != [] {
      ShutdownEndsTheStream(encodable, c, s, schedule[..|schedule| - 1]);
    }
  }

  /** A slot is held exactly as long as the stream lives. */
  lemma {:induction false} SlotHeldWhileLive(encodable: Event -> bool, c: Channel, held: nat, schedule: seq<Action>)
    ensures
      var s := Run(encodable, c, Subscribe(c, held), schedule).1;
      s.held == held + if s.live then 1 else 0
    decreases |schedule|
  {
    if schedule != [] {
      SlotHeldWhileLive(encodable, c, held, schedule[..|schedule| - 1]);
    }
  }

  /** A lagged notice appears exactly when the buffer has dropped events the stream had not read,
      counts exactly those, and leaves it at the oldest event kept. */
  lemma LaggedIffOverrun(encodable: Event -> bool, c: Channel, s: Stream)
    requires s.next <= |c.sent| && s.live && !c.shutdown
    ensures
      var (t, answer) := Poll(encodable, c, s);
      && ((answer.Yield? && answer.entry.Lagged?) <==> Backlog(c, s) > 256)
      && (Backlog(c, s) > 256 ==> answer.entry.skipped == Backlog(c, s) - 256 && Backlog(c, t) == 256)
    decreases Backlog(c, s)
  {
    var (t, answer) := Turn(encodable, c, s);
    if answer == Again {
      LaggedIffOverrun(encodable, c, t);
    }
  }

  predicate NothingEncodable(encodable: Event -> bool, c: Channel, from: nat) {
    forall i :: from <= i < |c.sent| ==> !encodable(c.sent[i])
  }

  lemma {:induction false} IdleIff(encodable: Event -> bool, c: Channel, s: Stream)
    requires s.next <= |c.sent| && s.live && !c.shutdown && Backlog(c, s) <= CAPACITY
    ensures
      var answer := Poll(encodable, c, s).1;
      if NothingEncodable(encodable, c, s.next) then answer == (if c.closed then Done else Pending) else answer.Yield?
    decreases Backlog(c, s)
  {
    var (t, answer) := Turn(encodable, c, s);
    if answer == Again {
      IdleIff(encodable, c, t);
      assert NothingEncodable(encodable, c, s.next) <==> NothingEncodable(encodable, c, t.next);
    }
  }

  /** Events are neither skipped nor held back: a live stream within the buffer yields the very next
      event if it can be encoded; a poll is pending only when nothing is left to read, and ends the stream
      only when nothing is left and the senders are gone. */
  lemma NextEventIsDelivered(encodable: Event -> bool, c: Channel, s: Stream)
    requires s.next <= |c.sent| && s.live && !c.shutdown && Backlog(c, s) <= CAPACITY
    ensures Backlog(c, s) > 0 && encodable(c.sent[s.next]) ==>
      Poll(encodable, c, s).1 == Yield(Hazard(s.next, c.sent[s.next]))
    ensures Poll(encodable, c, s).1 == Pending <==> !c.closed && NothingEncodable(encodable, c, s.next)
    ensures Poll(encodable, c, s).1 == Done <==> c.closed && NothingEncodable(encodable, c, s.next)
  {
    IdleIff(encodable, c, s);
  }
}
