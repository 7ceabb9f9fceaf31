/** `src/database/cache.rs`: a TTL store in front of a repository query, over whole runs. */
module Cache {
  import opened Prelude
  import opened CatalogTypes
  import opened CacheKeys

  datatype Entry<V> = Entry(value: V, storedAt: int)

  type Entries<K(==), V> = map<K, Entry<V>>

  datatype DbError = QueryFailed

  predicate Live<V>(e: Entry<V>, ttl: nat, now: int) {
    now < e.storedAt + ttl
  }

  /** How `try_get_with` begins: a live entry answers at once. */
  function Hit<K, V>(enabled: bool, ttl: nat, entries: Entries<K, V>, key: K, now: int): Option<V> {
    if enabled && key in entries && Live(entries[key], ttl, now) then Some(entries[key].value) else None
  }

  /** How it ends otherwise: the query has run, and only Ok is stored. */
  function Stored<K, V>(enabled: bool, entries: Entries<K, V>, key: K, now: int, fetched: Result<V, DbError>)
      : Entries<K, V>
  {
    if enabled && fetched.Ok? then entries[key := Entry(fetched.value, now)] else entries
  }

  /** One store of the dashboard cache. */
  class Store<K(==), V(!new)> {
    const enabled: bool
    const ttl: nat
    var entries: Entries<K, V>

    constructor (enabled: bool, ttl: nat)
      ensures this.enabled == enabled && this.ttl == ttl && entries == map[]
    {
      this.enabled, this.ttl, entries := enabled, ttl, map[];
    }

    /** The first half of a cached wrapper: an answer only if the cache is on and holds one that is
        younger than the TTL. */
    method Begin(key: K, now: int) returns (hit: Option<V>)
      ensures hit == Hit(enabled, ttl, entries, key, now)
      ensures hit.Some? <==> enabled && key in entries && now - entries[key].storedAt < ttl
      ensures hit.Some? ==> hit.value == entries[key].value
    {
      hit := None;
      if enabled {
        if key in entries && now < entries[key].storedAt + ttl {
          hit := Some(entries[key].value);
        }
      }
    }

    /** The second half, when the query has run: an error or a disabled cache changes no entry, an Ok
        is kept from now on, and no other key is touched. */
    method Finish(key: K, now: int, fetched: Result<V, DbError>) returns (r: Result<V, DbError>)
      modifies this
      ensures r == fetched && entries == Stored(enabled, old(entries), key, now, fetched)
      ensures fetched.Err? || !enabled ==> entries == old(entries)
      ensures fetched.Ok? && ttl > 0 ==>
        Hit(enabled, ttl, entries, key, now) == if enabled then Some(fetched.value) else None
      ensures entries - {key} == old(entries) - {key}
    {
      r := fetched;
      if enabled && fetched.Ok? {
        entries := entries[key := Entry(fetched.value, now)];
      }
    }

    method InvalidateAll()
      modifies this
      ensures entries == map[]
    {
      entries := map[];
    }

    /** The size bound may push any entry out. */
    method Evict(key: K)
      modifies this
      ensures entries == old(entries) - {key}
    {
      entries := entries - {key};
    }
  }

  // ----- Runs -----

  /** A request that found no live entry and is waiting for its query. */
  datatype Flight<P> = Flight(params: P, begun: int)

  /** Requests begin and finish separately, so anything may happen while a query runs; `readAt` is
      when the query saw the database. */
  datatype Op<P, K> =
    | Begin(ticket: nat, params: P)
    | Finish(ticket: nat, readAt: int)
    | InvalidateAll
    | Evict(victim: K)

  /** A store, the requests under way, the time, and when the store was last emptied. */
  datatype State<P, K(==), V> = State(entries: Entries<K, V>, flights: map<nat, Flight<P>>, now: int, emptied: int)

  /** A cached query: its key function and what the repository answers, which changes with time. */
  datatype Query<!P, !K, !V> = Query(key: P -> K, repository: (P, int) -> Result<V, DbError>, enabled: bool, ttl: nat)

  function HitFor<P, K(==), V>(q: Query<P, K, V>, s: State<P, K, V>, params: P): Option<V> {
    Hit(q.enabled, q.ttl, s.entries, q.key(params), s.now)
  }

  /** When the query of a finishing request read: some time while it was under way. */
  function ReadTime<P>(f: Flight<P>, readAt: int, now: int): int {
    Max(f.begun, Min(readAt, now))
  }

  /** One operation at time `at`; the clock never runs backwards. */
  function Step<P, K(==), V>(q: Query<P, K, V>, s: State<P, K, V>, op: Op<P, K>, at: int): State<P, K, V> {
    var t := s.(now := Max(s.now, at));
    match op
    case Begin(ticket, params) =>
      if ticket in t.flights || HitFor(q, t, params).Some? then t
      else t.(flights := t.flights[ticket := Flight(params, t.now)])
    case Finish(ticket, readAt) =>
      if ticket !in t.flights then t
      else
        var f := t.flights[ticket];
        var fetched := q.repository(f.params, ReadTime(f, readAt, t.now));
        t.(flights := t.flights - {ticket},
           entries := Stored(q.enabled, t.entries, q.key(f.params), t.now, fetched))
    case InvalidateAll => t.(entries := map[], emptied := t.now)
    case Evict(victim) => t.(entries := t.entries - {victim})
  }

  function Run<P, K(==), V>(q: Query<P, K, V>, start: int, ops: seq<(Op<P, K>, int)>): State<P, K, V>
    decreases |ops|
  {
    if ops == [] then State(map[], map[], start, start)
    else
      var (op, at) := ops[|ops| - 1];
      Step(q, Run(q, start, ops[..|ops| - 1]), op, at)
  }

  /** Distinct requests among those callers make have distinct keys. */
  ghost predicate Injective<P(!new), K, V>(q: Query<P, K, V>, asked: P -> bool) {
    forall a, b :: asked(a) && asked(b) && q.key(a) == q.key(b) ==> a == b
  }

  ghost predicate OnlyAsks<P, K>(ops: seq<(Op<P, K>, int)>, asked: P -> bool) {
    forall i :: 0 <= i < |ops| && ops[i].0.Begin? ==> asked(ops[i].0.params)
  }

  /** No request is under way whenever the store is emptied. */
  ghost predicate Quiet<P, K, V>(q: Query<P, K, V>, start: int, ops: seq<(Op<P, K>, int)>) {
    forall i :: 0 <= i < |ops| && ops[i].0.InvalidateAll? ==> Run(q, start, ops[..i]).flights == map[]
  }

  /** The entry under `key` is what the repository said to `params` at `at`, stored later but since the
      last emptying; in a quiet run it was also read since then. */
  ghost predicate Origin<P, K, V>(q: Query<P, K, V>, s: State<P, K, V>, quiet: bool, params: P, at: int, key: K)
    requires key in s.entries
  {
    var e := s.entries[key];
    && q.key(params) == key
    && q.repository(params, at) == Ok(e.value)
    && at <= e.storedAt <= s.now && s.emptied <= e.storedAt
    && (quiet ==> s.emptied <= at)
  }

  ghost predicate HasOrigin<P(!new), K, V>(q: Query<P, K, V>, s: State<P, K, V>, asked: P -> bool, quiet: bool, key: K)
    requires key in s.entries
  {
    exists p, at :: asked(p) && Origin(q, s, quiet, p, at, key)
  }

  /** Every entry is an Ok answer of the repository to parameters with its key. */
  ghost predicate Sound<P(!new), K, V>(q: Query<P, K, V>, s: State<P, K, V>, asked: P -> bool, quiet: bool) {
    && s.emptied <= s.now
    && (forall k :: k in s.entries ==> HasOrigin(q, s, asked, quiet, k))
    && (forall t :: t in s.flights ==> asked(s.flights[t].params) && s.flights[t].begun <= s.now)
    && (quiet ==> forall t :: t in s.flights ==> s.emptied <= s.flights[t].begun)
  }

  lemma StepKeepsSound<P(!new), K, V>(
        q: Query<P, K, V>, s: State<P, K, V>, op: Op<P, K>, at: int, asked: P -> bool, quiet: bool)
    requires Sound(q, s, asked, quiet) && (op.Begin? ==> asked(op.params))
    requires quiet && op.InvalidateAll? ==> s.flights == map[]
    ensures Sound(q, Step(q, s, op, at), asked, quiet)
  {
    var t := Step(q, s, op, at);
    forall k | k in t.entries ensures HasOrigin(q, t, asked, quiet, k) {
      if k in s.entries && t.entries[k] == s.entries[k] {
        var p, read :| asked(p) && Origin(q, s, quiet, p, read, k);
        assert Origin(q, t, quiet, p, read, k);
      } else {
        var f := s.flights[op.ticket];
        assert Origin(q, t, quiet, f.params, ReadTime(f, op.readAt, t.now), k);
      }
    }
  }

  lemma {:induction false} AlwaysSound<P(!new), K, V>(
        q: Query<P, K, V>, start: int, ops: seq<(Op<P, K>, int)>, asked: P -> bool, quiet: bool)
    requires OnlyAsks(ops, asked) && (quiet ==> Quiet(q, start, ops))
    ensures Sound(q, Run(q, start, ops), asked, quiet)
    decreases |ops|
  {
    if ops != [] {
      var n := |ops| - 1;
      if quiet {
        forall i | 0 <= i < n && ops[..n][i].0.InvalidateAll? ensures Run(q, start, ops[..n][..i]).flights == map[] {
          assert ops[..n][..i] == ops[..i];
        }
      }
      AlwaysSound(q, start, ops[..n], asked, quiet);
      StepKeepsSound(q, Run(q, start, ops[..n]), ops[n].0, ops[n].1, asked, quiet);
    }
  }

  /** This operation leaves the entry under `key` alone. */
  predicate Spares<P, K(==), V>(q: Query<P, K, V>, s: State<P, K, V>, op: Op<P, K>, key: K) {
    match op
    case Begin(_, _) => true
    case Finish(ticket, _) => ticket in s.flights ==> q.key(s.flights[ticket].params) != key
    case InvalidateAll => false
    case Evict(victim) => victim != key
  }

  /** The entry under `key` is `e`. */
  ghost predicate Has<P, K, V>(s: State<P, K, V>, key: K, e: Entry<V>) {
    key in s.entries && s.entries[key] == e
  }

  /** What is pushed out or emptied is not served, whatever the clock says. */
  lemma GoneIsNotServed<P, K, V>(q: Query<P, K, V>, s: State<P, K, V>, at: int, p: P)
    ensures HitFor(q, Step(q, s, Evict(q.key(p)), at), p) == None
    ensures HitFor(q, Step(q, s, InvalidateAll, at), p) == None
  {
  }

  lemma StepSpares<P, K, V>(q: Query<P, K, V>, s: State<P, K, V>, op: Op<P, K>, at: int, key: K, e: Entry<V>)
    requires Has(s, key, e) && Spares(q, s, op, key)
    ensures Has(Step(q, s, op, at), key, e)
  {
  }

  ghost predicate SparesAt<P, K, V>(q: Query<P, K, V>, start: int, ops: seq<(Op<P, K>, int)>, i: nat, key: K)
    requires i < |ops|
  {
    Spares(q, Run(q, start, ops[..i]), ops[i].0, key)
  }

  lemma {:induction false} EntryStays<P, K, V>(
        q: Query<P, K, V>, start: int, ops: seq<(Op<P, K>, int)>, n: nat, m: nat, key: K, e: Entry<V>)
    requires n <= m <= |ops| && Has(Run(q, start, ops[..n]), key, e)
    requires forall i :: n <= i < m ==> SparesAt(q, start, ops, i, key)
    ensures Has(Run(q, start, ops[..m]), key, e)
    decreases m
  {
    if n < m {
      EntryStays(q, start, ops, n, m - 1, key, e);
      assert SparesAt(q, start, ops, m - 1, key) && ops[..m][..m - 1] == ops[..m - 1];
      StepSpares(q, Run(q, start, ops[..m - 1]), ops[m - 1].0, ops[m - 1].1, key, e);
    }
  }

  /** An answer stored during a run is served for its whole TTL, unless it is replaced, pushed out, or the
      store is emptied. */
  lemma StoredIsServed<P, K, V>(
        q: Query<P, K, V>, start: int, ops: seq<(Op<P, K>, int)>, n: nat, p: P, v: V)
    requires q.enabled && n < |ops| && ops[n].0.Finish?
    requires
      var s, ticket := Run(q, start, ops[..n]), ops[n].0.ticket;
      && ticket in s.flights && s.flights[ticket].params == p
      && q.repository(p, ReadTime(s.flights[ticket], ops[n].0.readAt, Max(s.now, ops[n].1))) == Ok(v)
    requires forall i :: n + 1 <= i < |ops| ==> SparesAt(q, start, ops, i, q.key(p))
    ensures
      var stored := Max(Run(q, start, ops[..n]).now, ops[n].1);
      HitFor(q, Run(q, start, ops), p) == if Run(q, start, ops).now - stored < q.ttl then Some(v) else None
  {
    var stored := Max(Run(q, start, ops[..n]).now, ops[n].1);
    assert ops[..n + 1][..n] == ops[..n];
    assert Has(Run(q, start, ops[..n + 1]), q.key(p), Entry(v, stored));
    EntryStays(q, start, ops, n + 1, |ops|, q.key(p), Entry(v, stored));
    assert ops[..|ops|] == ops;
  }

  /** After any run, whatever began and finished in between: a cached answer is what the repository said
      to these very parameters, stored less than a TTL ago and not before the last invalidation. If
      no request was under way at an invalidation, it was also read after it. */
  lemma AnswersAreTheRepositorys<P(!new), K, V>(
        q: Query<P, K, V>, start: int, ops: seq<(Op<P, K>, int)>, asked: P -> bool, params: P) returns (at: int)
    requires Injective(q, asked) && OnlyAsks(ops, asked) && asked(params)
    requires HitFor(q, Run(q, start, ops), params).Some?
    ensures
      var s := Run(q, start, ops);
      var stored := s.entries[q.key(params)].storedAt;
      && q.repository(params, at) == Ok(HitFor(q, s, params).value)
      && at <= stored <= s.now < stored + q.ttl && s.emptied <= stored
      && (Quiet(q, start, ops) ==> s.emptied <= at)
  {
    var s, k := Run(q, start, ops), q.key(params);
    if Quiet(q, start, ops) {
      AlwaysSound(q, start, ops, asked, true);
      var p, read :| asked(p) && Origin(q, s, true, p, read, k);
      at := read;
    } else {
      AlwaysSound(q, start, ops, asked, false);
      var p, read :| asked(p) && Origin(q, s, false, p, read, k);
      at := read;
    }
  }

  /** From any state, a request that is under way at an invalidation outruns it: what it read before is
      stored after, and answers later requests for up to a TTL. */
  lemma InvalidationCanBeOutrun<P, K, V>(q: Query<P, K, V>, s: State<P, K, V>, ticket: nat, p: P, v: V, later: int)
    requires q.enabled && q.ttl > 0 && ticket !in s.flights && HitFor(q, s, p).None?
    requires s.now < later && q.repository(p, s.now) == Ok(v)
    ensures
      var begun := Step(q, s, Begin(ticket, p), s.now);
      var emptied := Step(q, begun, InvalidateAll, later);
      var finished := Step(q, emptied, Finish(ticket, s.now), later);
      finished.emptied == later && HitFor(q, finished, p) == Some(v)
  {
  }

  /** From any state, two callers sharing a key can be given each other's answers: injectivity on what
      is asked is not only enough but needed, for every TTL above zero. */
  lemma SharedKeyMixesAnswers<P, K, V>(q: Query<P, K, V>, s: State<P, K, V>, ticket: nat, a: P, b: P, v: V)
    requires q.enabled && q.ttl > 0 && ticket !in s.flights && HitFor(q, s, a).None?
    requires q.key(a) == q.key(b) && q.repository(a, s.now) == Ok(v)
    ensures
      var finished := Step(q, Step(q, s, Begin(ticket, a), s.now), Finish(ticket, s.now), s.now);
      HitFor(q, finished, b) == Some(v)
  {
  }

  // ----- The stores -----

  /** The weekly report is asked for by its two dates and keyed by the second. */
  datatype WeekParams = WeekParams(startDate: int, endDate: int)

  function WeeklyKey(p: WeekParams): int {
    p.endDate
  }

  /** What `refresh_weekly_report` asks for on a given day; it is the only caller. */
  function RefreshWeeklyReport(today: int): WeekParams {
    var endDate := today;
    var startDate := endDate - 7;
    WeekParams(startDate, endDate)
  }

  predicate TrailingWeek(p: WeekParams) {
    p.startDate == p.endDate - 7
  }

  /** On any days, the caller's requests are told apart by the key. */
  lemma WeeklyKeySeparatesRefreshes(today: int, other: int)
    ensures TrailingWeek(RefreshWeeklyReport(today))
    ensures RefreshWeeklyReport(today).endDate == today && RefreshWeeklyReport(today).startDate == today - 7
    ensures WeeklyKey(RefreshWeeklyReport(today)) == today
    ensures WeeklyKey(RefreshWeeklyReport(today)) == WeeklyKey(RefreshWeeklyReport(other)) ==>
      RefreshWeeklyReport(today) == RefreshWeeklyReport(other)
  {
  }

  /** For any set of requests that includes what the dashboard asks for, the key is sound if and only if
      no other window ending on the same day is asked for. */
  lemma WeeklyKeySoundIff<V>(q: Query<WeekParams, int, V>, asked: WeekParams -> bool)
    requires forall p :: q.key(p) == WeeklyKey(p)
    requires forall today :: asked(RefreshWeeklyReport(today))
    ensures Injective(q, asked) <==> forall p :: asked(p) ==> TrailingWeek(p)
  {
    if Injective(q, asked) {
      forall p | asked(p) ensures TrailingWeek(p) {
        assert asked(RefreshWeeklyReport(p.endDate));
      }
    }
  }

  function Anything<P>(p: P): bool {
    true
  }

  lemma ApproachStoreIsSound<V>(q: Query<ApproachParams, string, V>, f: Printers)
    requires f.FaithfulDates() && forall p :: q.key(p) == ApproachQueryKey(f, p)
    ensures Injective(q, Anything)
  {
    forall a, b | q.key(a) == q.key(b) ensures a == b {
      ApproachKeyInjective(f, a, b);
    }
  }

  lemma CatalogStoreIsSound<V>(q: Query<CatalogParams, string, V>, f: Printers)
    requires f.Faithful() && forall p :: q.key(p) == CatalogListKey(f, p)
    ensures Injective(q, Anything)
  {
    forall a, b | q.key(a) == q.key(b) ensures a == b {
      CatalogKeyInjective(f, a, b);
    }
  }
}
