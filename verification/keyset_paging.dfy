/** Keyset paging over places in a listing: page after page is cut from lists that may differ
    from fetch to fetch. `CatalogWalk` applies it to the rows that hold those places. */
module KeysetPaging {
  import opened Prelude
  import opened CatalogTypes

  type Places = seq<Position>

  ghost predicate Ascending(dir: SortDir, s: Places) {
    forall i, j :: 0 <= i < j < |s| ==> Before(dir, s[i], s[j])
  }

  function AfterPlace(dir: SortDir, from: Position): Position -> bool {
    (x: Position) => Before(dir, from, x)
  }

  /** What a list still holds after the cursor. */
  function Rest(dir: SortDir, cursor: Option<Position>, list: Places): Places {
    if cursor.None? then list else Filter(AfterPlace(dir, cursor.value), list)
  }

  function Last(page: Places): Option<Position> {
    if page == [] then None else Some(page[|page| - 1])
  }

  /** The cursor page `i` is fetched with: where page `i - 1` stopped. */
  function CursorBefore(pages: seq<Places>, i: nat): Option<Position>
    requires i <= |pages|
  {
    if i == 0 then None else Last(pages[i - 1])
  }

  function RestAt(dir: SortDir, lists: seq<Places>, pages: seq<Places>, i: nat): Places
    requires i < |pages| == |lists|
  {
    Rest(dir, CursorBefore(pages, i), lists[i])
  }

  /** Page `i` is the next `limit` elements of `lists[i]`. */
  ghost predicate IsPage(dir: SortDir, limit: nat, lists: seq<Places>, pages: seq<Places>, i: nat)
    requires i < |pages| == |lists|
  {
    Ascending(dir, lists[i]) && pages[i] == Take(limit, RestAt(dir, lists, pages, i))
  }

  /** A run of pages; only the last one may be empty. */
  ghost predicate Paging(dir: SortDir, limit: nat, lists: seq<Places>, pages: seq<Places>) {
    && |pages| == |lists| && |pages| > 0
    && (forall i :: 0 <= i < |pages| ==> IsPage(dir, limit, lists, pages, i))
    && (forall i :: 0 <= i < |pages| - 1 ==> pages[i] != [])
  }

  lemma {:induction false} FilterAscending(dir: SortDir, keep: Position -> bool, s: Places)
    requires Ascending(dir, s)
    ensures Ascending(dir, Filter(keep, s))
  {
    if s != [] {
      FilterAscending(dir, keep, s[1..]);
      var rest := Filter(keep, s[1..]);
      forall j | 0 <= j < |rest| ensures Before(dir, s[0], rest[j]) {
        FilterIn(keep, s[1..], rest[j]);
      }
    }
  }

  lemma RestAscends(dir: SortDir, cursor: Option<Position>, list: Places)
    requires Ascending(dir, list)
    ensures Ascending(dir, Rest(dir, cursor, list))
  {
    if cursor.Some? {
      FilterAscending(dir, AfterPlace(dir, cursor.value), list);
    }
  }

  lemma RestIn(dir: SortDir, cursor: Option<Position>, list: Places, x: Position)
    ensures x in Rest(dir, cursor, list)
      <==> x in list && (cursor.Some? ==> Before(dir, cursor.value, x))
  {
    if cursor.Some? {
      FilterIn(AfterPlace(dir, cursor.value), list, x);
    }
  }

  /** A page cut from an ascending list: what it holds, and what it leaves out. */
  lemma PageBounds(dir: SortDir, limit: nat, rest: Places, x: Position)
    requires Ascending(dir, rest)
    ensures x in Take(limit, rest) ==> x in rest && !Before(dir, Last(Take(limit, rest)).value, x)
    ensures x in rest && x !in Take(limit, rest) && limit > 0 ==>
      |rest| > limit && Before(dir, Last(Take(limit, rest)).value, x)
  {
    var page := Take(limit, rest);
    if x in page {
      var k :| 0 <= k < |page| && page[k] == x;
      BeforeTotal(dir, x, page[|page| - 1]);
    } else if x in rest {
      var k :| 0 <= k < |rest| && rest[k] == x;
      assert k >= |page|;
    }
  }

  /** The same, for page `i` of a run of pages. */
  lemma OnPage(dir: SortDir, limit: nat, lists: seq<Places>, pages: seq<Places>, i: nat, x: Position)
    requires i < |pages| == |lists| && IsPage(dir, limit, lists, pages, i)
    ensures x in pages[i] ==> !Before(dir, Last(pages[i]).value, x)
    ensures x in pages[i] && CursorBefore(pages, i).Some? ==> Before(dir, CursorBefore(pages, i).value, x)
    ensures x in RestAt(dir, lists, pages, i)
      <==> x in lists[i] && (CursorBefore(pages, i).Some? ==> Before(dir, CursorBefore(pages, i).value, x))
    ensures x in RestAt(dir, lists, pages, i) && x !in pages[i] && limit > 0 ==>
      |RestAt(dir, lists, pages, i)| > limit && Before(dir, Last(pages[i]).value, x)
  {
    RestAscends(dir, CursorBefore(pages, i), lists[i]);
    RestIn(dir, CursorBefore(pages, i), lists[i], x);
    PageBounds(dir, limit, RestAt(dir, lists, pages, i), x);
  }

  lemma {:induction false} BoundsAdvance(dir: SortDir, limit: nat, lists: seq<Places>, pages: seq<Places>, i: nat,
        j: nat)
    requires Paging(dir, limit, lists, pages)
    requires i <= j < |pages| - 1
    ensures i == j || Before(dir, Last(pages[i]).value, Last(pages[j]).value)
    decreases j
  {
    if i < j {
      assert IsPage(dir, limit, lists, pages, j);
      BoundsAdvance(dir, limit, lists, pages, i, j - 1);
      var last := Last(pages[j]).value;
      OnPage(dir, limit, lists, pages, j, last);
      if i < j - 1 {
        BeforeTransitive(dir, Last(pages[i]).value, Last(pages[j - 1]).value, last);
      }
    }
  }

  /** An element that is in the lists of two fetches is put on at most one of the two pages. */
  lemma AtMostOnce(dir: SortDir, limit: nat, lists: seq<Places>, pages: seq<Places>, x: Position, i: nat, j: nat)
    requires Paging(dir, limit, lists, pages) && i < j < |pages|
    ensures !(x in pages[i] && x in pages[j])
  {
    if x in pages[i] && x in pages[j] {
      assert IsPage(dir, limit, lists, pages, i) && IsPage(dir, limit, lists, pages, j);
      OnPage(dir, limit, lists, pages, i, x);
      OnPage(dir, limit, lists, pages, j, x);
      BoundsAdvance(dir, limit, lists, pages, i, j - 1);
      if i < j - 1 {
        BeforeTransitive(dir, Last(pages[i]).value, Last(pages[j - 1]).value, x);
      }
    }
  }

  /** Once a fetch leaves nothing over, an element that was in every list is on some page. */
  lemma {:induction false} Reached(dir: SortDir, limit: nat, lists: seq<Places>, pages: seq<Places>, x: Position,
        i: nat)
      returns (page: nat)
    requires Paging(dir, limit, lists, pages) && limit > 0 && i < |pages|
    requires |RestAt(dir, lists, pages, |pages| - 1)| <= limit
    requires forall k :: 0 <= k < |lists| ==> x in lists[k]
    requires i > 0 ==> Before(dir, Last(pages[i - 1]).value, x)
    ensures page < |pages| && x in pages[page]
    decreases |pages| - i
  {
    page := i;
    if x !in pages[i] {
      assert IsPage(dir, limit, lists, pages, i);
      OnPage(dir, limit, lists, pages, i, x);
      page := Reached(dir, limit, lists, pages, x, i + 1);
    }
  }
}
