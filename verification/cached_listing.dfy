/** `src/database/cache.rs`: the catalog listing behind its cache. */
module CachedListing {
  import opened Prelude
  import opened CatalogTypes
  import opened CacheKeys
  import opened CatalogFilters
  import opened Cache
  import opened Cursor
  import opened CatalogHandler
  import opened CatalogRequest
  import opened CatalogWalk
  import Catalog

  /** The table as it changes with time, nothing where the database does not answer. */
  type History = int -> Option<seq<Row>>

  /** The listing as a cached query over it. */
  function ListingQuery(f: Printers, fold: char -> char, tables: History, enabled: bool, ttl: nat)
      : Query<CatalogParams, string, (seq<Row>, bool)>
  {
    Query(
      (p: CatalogParams) => CatalogListKey(f, p),
      (p: CatalogParams, at: int) => Fetched(Catalog.Answer(tables(at), ParamsFor(fold, p))),
      enabled, ttl)
  }

  function Fetched(answer: Result<(seq<Row>, bool), Catalog.QueryError>): Result<(seq<Row>, bool), DbError> {
    if answer.Err? then Err(QueryFailed) else Ok(answer.value)
  }

  /** Whatever ran before, a cached listing is the page these very parameters describe, of the table as
      it was when the page was read; the page was stored less than a TTL ago. */
  lemma CachedPageIsAPage(
        f: Printers, fold: char -> char, tables: History, ttl: nat, start: int,
        ops: seq<(Op<CatalogParams, string>, int)>, p: CatalogParams) returns (at: int)
    requires f.Faithful()
    requires
      var q := ListingQuery(f, fold, tables, true, ttl);
      HitFor(q, Run(q, start, ops), p).Some?
    ensures
      var q := ListingQuery(f, fold, tables, true, ttl);
      var s := Run(q, start, ops);
      && tables(at).Some? && Catalog.Runs(p.cursor)
      && HitFor(q, s, p).value == Catalog.PageOf(tables(at).value, ParamsFor(fold, p))
      && at <= s.entries[q.key(p)].storedAt <= s.now < s.entries[q.key(p)].storedAt + ttl
  {
    var q := ListingQuery(f, fold, tables, true, ttl);
    CatalogStoreIsSound(q, f);
    at := AnswersAreTheRepositorys(q, start, ops, Anything, p);
  }

  // ----- Walks through cached pages -----

  /** An answer at time `now`: an entry of the store, or what the query of a request under way read. */
  ghost predicate Answered<P(!new), K, V>(q: Query<P, K, V>, s: State<P, K, V>, params: P, answer: V, now: int) {
    || (HitFor(q, s, params) == Some(answer) && now == s.now)
    || exists ticket, readAt :: FinishedWith(q, s, params, answer, now, ticket, readAt)
  }

  ghost predicate FinishedWith<P, K, V>(
      q: Query<P, K, V>, s: State<P, K, V>, params: P, answer: V, now: int, ticket: nat, readAt: int)
  {
    && ticket in s.flights && s.flights[ticket].params == params && s.now <= now
    && q.repository(params, ReadTime(s.flights[ticket], readAt, now)) == Ok(answer)
  }

  /** Either way it is what the repository said to these parameters at some time until then. */
  lemma AnswerWasRead<P(!new), K, V>(
        q: Query<P, K, V>, start: int, ops: seq<(Op<P, K>, int)>, params: P, answer: V, now: int) returns (at: int)
    requires Injective(q, Anything) && Answered(q, Run(q, start, ops), params, answer, now)
    ensures q.repository(params, at) == Ok(answer) && at <= now
  {
    var s := Run(q, start, ops);
    if HitFor(q, s, params) == Some(answer) && now == s.now {
      at := AnswersAreTheRepositorys(q, start, ops, Anything, params);
    } else {
      var ticket, readAt :| FinishedWith(q, s, params, answer, now, ticket, readAt);
      AlwaysSound(q, start, ops, Anything, false);
      at := ReadTime(s.flights[ticket], readAt, now);
    }
  }

  /** A server: its codec, formatters, tables over time, and cache settings. */
  datatype Site = Site(
    codec: JsonCodec, printers: Printers, fold: char -> char, tables: History, enabled: bool, ttl: nat,
    start: int)
  {
    function Listing(): Query<CatalogParams, string, (seq<Row>, bool)> {
      ListingQuery(printers, fold, tables, enabled, ttl)
    }

    ghost predicate Valid() {
      printers.Faithful() && forall at :: tables(at).Some? ==> Catalog.Keyed(tables(at).value)
    }
  }

  type Ops = seq<(Op<CatalogParams, string>, int)>

  /** Page `i` as `catalog_list` makes it: the token decoded, the rows taken from the cached listing after
      whatever the store has been through, and the next token made from them. */
  ghost predicate ServedThrough(site: Site, ops: Ops, now: int, q: Request, pages: seq<CursorPage>, i: nat)
    requires i < |pages|
  {
    var cursor := DecodeCursor(site.codec, RequestFor(QueryOf(site.fold, q), pages, i));
    cursor.Ok? && exists more :: MadeOf(site, ops, now, q, cursor.value, pages[i], more)
  }

  ghost predicate MadeOf(
      site: Site, ops: Ops, now: int, q: Request, cursor: Option<CatalogCursor>, page: CursorPage, more: bool)
  {
    && Answered(site.Listing(), Run(site.Listing(), site.start, ops), ListParamsOf(q, cursor), (page.rows, more), now)
    && page.next == NextCursor(site.codec, page.rows, more, q.sort, q.dir)
  }

  /** Page `i` is the handler's answer from the table as it was at `at`. */
  ghost predicate ReadAt(site: Site, q: Request, pages: seq<CursorPage>, i: nat, at: int)
    requires i < |pages|
  {
    site.tables(at).Some? && Served(site.codec, site.tables(at).value, QueryOf(site.fold, q), pages, i)
  }

  /** A page made from a cached answer is the page the handler would have made of the table as it was when
      the rows were read. */
  lemma CachedPageIsServed(site: Site, ops: Ops, now: int, q: Request, pages: seq<CursorPage>, i: nat)
      returns (at: int)
    requires site.Valid() && i < |pages| && ServedThrough(site, ops, now, q, pages, i)
    ensures at <= now && ReadAt(site, q, pages, i, at)
  {
    CatalogStoreIsSound(site.Listing(), site.printers);
    var cursor := DecodeCursor(site.codec, RequestFor(QueryOf(site.fold, q), pages, i)).value;
    var more :| MadeOf(site, ops, now, q, cursor, pages[i], more);
    at := AnswerWasRead(site.Listing(), site.start, ops, ListParamsOf(q, cursor), (pages[i].rows, more), now);
    PagesOfOneRequest(site.fold, q, cursor);
  }

  /** One time for each index, none later than allowed. */
  lemma {:induction false} ChooseTimes(times: seq<int>, good: (nat, int) -> bool, n: nat) returns (ats: seq<int>)
    requires n <= |times| && forall i :: 0 <= i < n ==> HasTime(times, good, i)
    ensures |ats| == n && forall i :: 0 <= i < n ==> ats[i] <= times[i] && good(i, ats[i])
    decreases n
  {
    if n == 0 {
      ats := [];
    } else {
      var before := ChooseTimes(times, good, n - 1);
      assert HasTime(times, good, n - 1);
      var at :| at <= times[n - 1] && good(n - 1, at);
      ats := before + [at];
    }
  }

  ghost predicate HasTime(times: seq<int>, good: (nat, int) -> bool, i: nat)
    requires i < |times|
  {
    exists at :: at <= times[i] && good(i, at)
  }

  ghost function ReadTest(site: Site, q: Request, pages: seq<CursorPage>): (nat, int) -> bool {
    (i: nat, at: int) => i < |pages| && ReadAt(site, q, pages, i, at)
  }

  lemma CachedPageHasTime(site: Site, ops: Ops, times: seq<int>, q: Request, pages: seq<CursorPage>, i: nat)
    requires site.Valid() && i < |pages| == |times| && ServedThrough(site, ops, times[i], q, pages, i)
    ensures HasTime(times, ReadTest(site, q, pages), i)
  {
    var at := CachedPageIsServed(site, ops, times[i], q, pages, i);
    assert ReadTest(site, q, pages)(i, at);
  }

  function TablesAt(tables: History, ats: seq<int>): seq<seq<Row>>
    requires forall i :: 0 <= i < |ats| ==> tables(ats[i]).Some?
  {
    seq(|ats|, i requires 0 <= i < |ats| => tables(ats[i]).value)
  }

  lemma ReadPagesAreAWalk(site: Site, q: Request, pages: seq<CursorPage>, ats: seq<int>)
    requires site.Valid() && pages != [] && |ats| == |pages|
    requires forall i :: 0 <= i < |pages| ==> ReadTest(site, q, pages)(i, ats[i])
    requires forall i :: 0 <= i < |pages| - 1 ==> pages[i].next.Some?
    ensures forall i :: 0 <= i < |ats| ==> site.tables(ats[i]).Some?
    ensures IsWalk(site.codec, TablesAt(site.tables, ats), QueryOf(site.fold, q), pages)
  {
    forall i | 0 <= i < |ats| ensures site.tables(ats[i]).Some? {
      assert ReadTest(site, q, pages)(i, ats[i]);
    }
    var tables := TablesAt(site.tables, ats);
    forall i | 0 <= i < |pages| ensures Served(site.codec, tables[i], QueryOf(site.fold, q), pages, i) {
      assert ReadTest(site, q, pages)(i, ats[i]);
    }
  }

  /** Pages fetched one after the other through the cache, each after any run of the store, form a walk
      over the tables as they were when each page was read; an older page may follow a newer one. */
  lemma CachedPagesAreAWalk(site: Site, runs: seq<Ops>, times: seq<int>, q: Request, pages: seq<CursorPage>)
      returns (ats: seq<int>)
    requires site.Valid() && pages != [] && |runs| == |times| == |pages|
    requires forall i :: 0 <= i < |pages| ==> ServedThrough(site, runs[i], times[i], q, pages, i)
    requires forall i :: 0 <= i < |pages| - 1 ==> pages[i].next.Some?
    ensures |ats| == |pages| && forall i :: 0 <= i < |pages| ==> ats[i] <= times[i] && site.tables(ats[i]).Some?
    ensures IsWalk(site.codec, TablesAt(site.tables, ats), QueryOf(site.fold, q), pages)
  {
    forall i | 0 <= i < |pages| ensures HasTime(times, ReadTest(site, q, pages), i) {
      CachedPageHasTime(site, runs[i], times, q, pages, i);
    }
    ats := ChooseTimes(times, ReadTest(site, q, pages), |pages|);
    ReadPagesAreAWalk(site, q, pages, ats);
  }
}
