/** What the two lookup runners share: outcomes in join order and the updates they leave behind. */
module Lookups {
  import opened Prelude
  import opened Repository

  /** How one spawned lookup ends. */
  datatype Outcome<+E> = Found(payload: E) | NotFound | LookupFailed | Panicked {
    predicate Failed() {
      LookupFailed? || Panicked?
    }
  }

  /** One row to write back; `None` stamps the row as checked without data. */
  datatype Update<+E> = Update(id: Uuid, found: Option<E>)

  /** A joined lookup: which candidate, how many had been dispatched by then, how it ended. */
  datatype Join<+E> = Join(slot: nat, id: Uuid, dispatched: nat, outcome: Outcome<E>)

  function UpdatesOf<E>(j: Join<E>): seq<Update<E>> {
    match j.outcome
    case Found(payload) => [Update(j.id, Some(payload))]
    case NotFound => [Update(j.id, None)]
    case LookupFailed => []
    case Panicked => []
  }

  /** The updates owed for `joins`: one for every lookup that did not fail, in join order. */
  function Resolved<E>(joins: seq<Join<E>>): seq<Update<E>>
    decreases |joins|
  {
    if joins == [] then [] else Resolved(joins[..|joins| - 1]) + UpdatesOf(joins[|joins| - 1])
  }

  lemma ResolvedSnoc<E>(joins: seq<Join<E>>, j: Join<E>)
    ensures Resolved(joins + [j]) == Resolved(joins) + UpdatesOf(j)
  {
    assert (joins + [j])[..|joins|] == joins;
  }

  /** How many of `joins` satisfy `p`. */
  function Count<E>(p: Outcome<E> -> bool, joins: seq<Join<E>>): nat
    decreases |joins|
  {
    if joins == [] then 0
    else Count(p, joins[..|joins| - 1]) + if p(joins[|joins| - 1].outcome) then 1 else 0
  }

  lemma CountSnoc<E>(p: Outcome<E> -> bool, joins: seq<Join<E>>, j: Join<E>)
    ensures Count(p, joins + [j]) == Count(p, joins) + if p(j.outcome) then 1 else 0
  {
    assert (joins + [j])[..|joins|] == joins;
  }

  function Ids<E>(us: seq<Update<E>>): set<Uuid> {
    set i | 0 <= i < |us| :: us[i].id
  }

  lemma IdsConcat<E>(a: seq<Update<E>>, b: seq<Update<E>>)
    ensures Ids(a + b) == Ids(a) + Ids(b)
  {
    forall id | id in Ids(a) + Ids(b) ensures id in Ids(a + b) {
      if id in Ids(a) {
        var i :| 0 <= i < |a| && a[i].id == id;
        assert (a + b)[i].id == id;
      } else {
        var i :| 0 <= i < |b| && b[i].id == id;
        assert (a + b)[|a| + i].id == id;
      }
    }
  }

  /** The ids of the joins that did not fail. */
  function ResolvedIds<E>(joins: seq<Join<E>>): set<Uuid> {
    set i | 0 <= i < |joins| && !joins[i].outcome.Failed() :: joins[i].id
  }

  lemma {:induction false} ResolvedIdsAreFlushed<E>(joins: seq<Join<E>>)
    ensures Ids(Resolved(joins)) == ResolvedIds(joins)
    decreases |joins|
  {
    if joins != [] {
      var n := |joins| - 1;
      ResolvedIdsAreFlushed(joins[..n]);
      IdsConcat(Resolved(joins[..n]), UpdatesOf(joins[n]));
      assert Ids(UpdatesOf(joins[n])) == if joins[n].outcome.Failed() then {} else {joins[n].id} by {
        if !joins[n].outcome.Failed() {
          assert UpdatesOf(joins[n])[0].id == joins[n].id;
        }
      }
      var last := if joins[n].outcome.Failed() then {} else {joins[n].id};
      assert ResolvedIds(joins) == ResolvedIds(joins[..n]) + last by {
        forall id | id in ResolvedIds(joins[..n]) ensures id in ResolvedIds(joins) {
          var i :| 0 <= i < n && !joins[..n][i].outcome.Failed() && joins[..n][i].id == id;
          assert !joins[i].outcome.Failed() && joins[i].id == id;
        }
        forall id | id in ResolvedIds(joins)
          ensures id in ResolvedIds(joins[..n]) || (!joins[n].outcome.Failed() && id == joins[n].id)
        {
          var i :| 0 <= i < |joins| && !joins[i].outcome.Failed() && joins[i].id == id;
          if i < n {
            assert joins[..n][i] == joins[i];
          }
        }
      }
    }
  }

  /** What the updates write for `id`: the last one wins. */
  function LastFound<E>(us: seq<Update<E>>, id: Uuid): Option<E>
    requires id in Ids(us)
    decreases |us|
  {
    var n := |us| - 1;
    if us[n].id == id then us[n].found
    else
      assert id in Ids(us[..n]) by {
        var i :| 0 <= i < |us| && us[i].id == id;
        assert us[..n][i].id == id;
      }
      LastFound(us[..n], id)
  }

  lemma {:induction false} LastFoundConcat<E>(a: seq<Update<E>>, b: seq<Update<E>>, id: Uuid)
    requires id in Ids(a + b)
    ensures id in Ids(b) ==> LastFound(a + b, id) == LastFound(b, id)
    ensures id !in Ids(b) ==> id in Ids(a) && LastFound(a + b, id) == LastFound(a, id)
    decreases |b|
  {
    IdsConcat(a, b);
    if b == [] {
      assert a + b == a;
    } else {
      var n := |b| - 1;
      var c := a + b;
      assert c[..|c| - 1] == a + b[..n] && c[|c| - 1] == b[n];
      if b[n].id != id {
        assert id in Ids(a + b[..n]) by {
          var i :| 0 <= i < |c| && c[i].id == id;
          assert (a + b[..n])[i].id == id;
        }
        LastFoundConcat(a, b[..n], id);
        if id in Ids(b) {
          var i :| 0 <= i < |b| && b[i].id == id;
          assert b[..n][i].id == id;
        }
        if id in Ids(b[..n]) {
          var i :| 0 <= i < n && b[..n][i].id == id;
          assert b[i].id == id;
        }
      }
    }
  }

  function Slots<E>(joins: seq<Join<E>>): set<nat> {
    set k | 0 <= k < |joins| :: joins[k].slot
  }

  lemma SlotsSnoc<E>(joins: seq<Join<E>>, j: Join<E>)
    ensures Slots(joins + [j]) == Slots(joins) + {j.slot}
  {
    forall s | s in Slots(joins) + {j.slot} ensures s in Slots(joins + [j]) {
      if s in Slots(joins) {
        var k :| 0 <= k < |joins| && joins[k].slot == s;
        assert (joins + [j])[k].slot == s;
      } else {
        assert (joins + [j])[|joins|].slot == s;
      }
    }
  }

  // ----- The flush buffer -----

  /** No flush is empty or above `most`, and every flush but the last is at least `least`. */
  ghost predicate FlushShape<E>(flushed: seq<seq<Update<E>>>, least: nat, most: nat) {
    forall i :: 0 <= i < |flushed| ==> 0 < |flushed[i]| <= most && (i < |flushed| - 1 ==> least <= |flushed[i]|)
  }

  /** What is flushed and what waits add up to the updates owed. */
  ghost predicate Buffered<E>(joins: seq<Join<E>>, flushed: seq<seq<Update<E>>>, pending: seq<Update<E>>, least: nat,
        most: nat)
  {
    && FlushShape(flushed, least, most)
    && (flushed != [] ==> least <= |flushed[|flushed| - 1]|)
    && Flatten(flushed) + pending == Resolved(joins)
  }

  lemma BufferOne<E>(joins: seq<Join<E>>, flushed: seq<seq<Update<E>>>, pending: seq<Update<E>>, j: Join<E>,
        least: nat, most: nat)
    requires Buffered(joins, flushed, pending, least, most)
    ensures Buffered(joins + [j], flushed, pending + UpdatesOf(j), least, most)
  {
    ResolvedSnoc(joins, j);
    assert Flatten(flushed) + (pending + UpdatesOf(j)) == Flatten(flushed) + pending + UpdatesOf(j);
  }

  /** One more flush, full or the last. */
  lemma FlushOne<E>(joins: seq<Join<E>>, flushed: seq<seq<Update<E>>>, pending: seq<Update<E>>, least: nat, most: nat)
    requires Buffered(joins, flushed, pending, least, most) && 0 < |pending| <= most
    ensures FlushShape(flushed + [pending], least, most) && Flatten(flushed + [pending]) == Resolved(joins)
    ensures |pending| >= least ==> Buffered(joins, flushed + [pending], [], least, most)
  {
    FlattenSnoc(flushed, pending);
  }

  // ----- Counts and contents -----

  function Those<E>(p: Outcome<E> -> bool, joins: seq<Join<E>>): set<nat> {
    set k: nat | k < |joins| && p(joins[k].outcome)
  }

  lemma {:induction false} CountIs<E>(p: Outcome<E> -> bool, joins: seq<Join<E>>)
    ensures Count(p, joins) == |Those(p, joins)|
    decreases |joins|
  {
    if joins != [] {
      var n := |joins| - 1;
      CountIs(p, joins[..n]);
      assert Those(p, joins) == Those(p, joins[..n]) + if p(joins[n].outcome) then {n} else {};
    }
  }

  /** One update is owed for each lookup that found something or learned that there is nothing. */
  lemma {:induction false} ResolvedCounted<E>(joins: seq<Join<E>>)
    ensures |Resolved(joins)| == Count((o: Outcome<E>) => o.Found? || o.NotFound?, joins)
    decreases |joins|
  {
    if joins != [] {
      ResolvedCounted(joins[..|joins| - 1]);
    }
  }

  /** No later join is of the same id. */
  predicate IsLast<E>(joins: seq<Join<E>>, k: nat)
    requires k < |joins|
  {
    forall i :: k < i < |joins| ==> joins[i].id != joins[k].id
  }

  /** What is written for an id is what its lookup found, or nothing if it learned that there is nothing. */
  lemma {:induction false} LastFoundIsTheOutcome<E>(joins: seq<Join<E>>, k: nat)
    requires k < |joins| && IsLast(joins, k) && (joins[k].outcome.Found? || joins[k].outcome.NotFound?)
    ensures
      var id := joins[k].id;
      && id in Ids(Resolved(joins))
      && LastFound(Resolved(joins), id)
         == if joins[k].outcome.Found? then Some(joins[k].outcome.payload) else None
    decreases |joins|
  {
    var n := |joins| - 1;
    var before, last := Resolved(joins[..n]), UpdatesOf(joins[n]);
    IdsConcat(before, last);
    if k == n {
      assert last[0].id == joins[k].id;
    } else {
      assert joins[..n][k] == joins[k] && joins[n].id != joins[k].id;
      LastFoundIsTheOutcome(joins[..n], k);
    }
    LastFoundConcat(before, last, joins[k].id);
  }
}
