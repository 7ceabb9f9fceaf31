/** `src/cli/extract.rs`: cutting a date range into batches, and adding up their results. */
module Extract {
  import opened Prelude

  /** Days are day numbers; `first` and `last` are both included. */
  datatype Batch = Batch(number: nat, first: int, last: int)

  /** Where the loop goes from `current`. */
  function NextStart(current: int, end: int, size: nat): int {
    Min(current + size - 1, end) + 1
  }

  /** The batch of index `i`, in closed form. */
  function BatchAt(start: int, end: int, size: nat, i: nat): Batch {
    Batch(i + 1, start + i * size, Min(start + i * size + size - 1, end))
  }

  /** `preview_extraction`'s number of batches; for ranges that `validate_date_range` accepts. */
  function PreviewCount(start: int, end: int, size: nat): nat
    requires start <= end && size > 0
  {
    DivCeil(end - start + 1, size)
  }

  /** The loop ends for every batch size but zero, and a range that is empty needs none. */
  method CutBatches(start: int, end: int, size: nat) returns (batches: seq<Batch>)
    requires size > 0 || start > end
    ensures start > end ==> batches == []
    ensures start <= end ==> size > 0 && |batches| == PreviewCount(start, end, size)
    ensures forall i :: 0 <= i < |batches| ==> batches[i] == BatchAt(start, end, size, i)
  {
    batches := [];
    var current := start;
    while current <= end
      invariant start <= end ==> current <= end + 1
      invariant current <= end ==> current == start + |batches| * size
      invariant start > end ==> current == start && batches == []
      invariant start <= end && current > end ==> current == end + 1 && IsCount(end - start + 1, size, |batches|)
      invariant forall i :: 0 <= i < |batches| ==> batches[i] == BatchAt(start, end, size, i)
      decreases end - current
    {
      var next := NextStart(current, end, size);
      AdvancesIff(current, end, size);
      Grow(start, end, size, |batches|);
      batches := batches + [Batch(|batches| + 1, current, next - 1)];
      current := next;
    }
    if start <= end {
      CountIsCeil(end - start + 1, size, |batches|);
    }
  }

  /** `k` batches of `size` cover `n` days, and `k - 1` do not. */
  ghost predicate IsCount(n: nat, size: nat, k: nat) {
    k > 0 && (k - 1) * size < n <= k * size
  }

  lemma Grow(start: int, end: int, size: nat, k: nat)
    requires size > 0 && start + k * size <= end
    ensures (k + 1) * size == k * size + size
    ensures start + k * size + size - 1 >= end ==> IsCount(end - start + 1, size, k + 1)
  {
    assert (k + 1) * size == k * size + size;
  }

  lemma CountIsCeil(n: nat, size: nat, k: nat)
    requires size > 0 && IsCount(n, size, k)
    ensures k == DivCeil(n, size)
  {
    DivCeilIff(n, size, k);
    DivCeilIff(n, size, k - 1);
  }

  /** The batches follow one another without gap or overlap, from the first day to the last; all are
      full but the last. */
  ghost predicate Tiles(start: int, end: int, size: nat, batches: seq<Batch>) {
    && batches != [] && batches[0].first == start && batches[|batches| - 1].last == end
    && (forall i :: 0 <= i < |batches| - 1 ==> Adjacent(batches, i))
    && forall i :: 0 <= i < |batches| ==> FitsSize(batches, size, i)
  }

  ghost predicate Adjacent(batches: seq<Batch>, i: nat)
    requires i + 1 < |batches|
  {
    batches[i + 1].first == batches[i].last + 1
  }

  ghost predicate FitsSize(batches: seq<Batch>, size: nat, i: nat)
    requires i < |batches|
  {
    var days := batches[i].last - batches[i].first + 1;
    1 <= days <= size && (i < |batches| - 1 ==> days == size)
  }

  lemma BatchBounds(n: nat, size: nat, k: nat, i: nat)
    requires size > 0 && IsCount(n, size, k) && i < k
    ensures i * size < n
    ensures i < k - 1 ==> (i + 1) * size < n && (i + 1) * size == i * size + size
  {
    MulMonotone(i, k - 1, size);
    if i < k - 1 {
      MulMonotone(i + 1, k - 1, size);
      assert (i + 1) * size == i * size + size;
    }
  }

  lemma CeilIsCount(n: nat, size: nat)
    requires n > 0 && size > 0
    ensures IsCount(n, size, DivCeil(n, size))
  {
    DivCeilIff(n, size, DivCeil(n, size));
    DivCeilIff(n, size, DivCeil(n, size) - 1);
    DivCeilIff(n, size, 0);
  }

  /** What the loop produces tiles the range exactly. */
  lemma BatchesTile(start: int, end: int, size: nat, batches: seq<Batch>)
    requires start <= end && size > 0 && |batches| == PreviewCount(start, end, size)
    requires forall i :: 0 <= i < |batches| ==> batches[i] == BatchAt(start, end, size, i)
    ensures Tiles(start, end, size, batches)
    ensures forall i :: 0 <= i < |batches| ==> batches[i].number == i + 1
  {
    var n, k := end - start + 1, |batches|;
    CeilIsCount(n, size);
    forall i | 0 <= i < k ensures FitsSize(batches, size, i) && (i < k - 1 ==> Adjacent(batches, i)) {
      BatchBounds(n, size, k, i);
    }
    assert k * size == (k - 1) * size + size;
  }

  lemma {:induction false} BatchStartsRise(start: int, end: int, size: nat, batches: seq<Batch>, i: nat, j: nat)
    requires Tiles(start, end, size, batches) && i < j < |batches|
    ensures batches[i].last < batches[j].first
    decreases j
  {
    assert Adjacent(batches, j - 1);
    if i < j - 1 {
      BatchStartsRise(start, end, size, batches, i, j - 1);
      assert FitsSize(batches, size, j - 1);
    }
  }

  lemma {:induction false} DayHasBatch(start: int, end: int, size: nat, batches: seq<Batch>, day: int, n: nat)
      returns (i: nat)
    requires Tiles(start, end, size, batches) && n < |batches| && start <= day <= batches[n].last
    ensures i <= n && batches[i].first <= day <= batches[i].last
    decreases n
  {
    if n == 0 || batches[n].first <= day {
      i := n;
    } else {
      assert Adjacent(batches, n - 1);
      i := DayHasBatch(start, end, size, batches, day, n - 1);
    }
  }

  /** Every day of the range is fetched by exactly one batch, and no other day by any. */
  lemma EachDayOnce(start: int, end: int, size: nat, batches: seq<Batch>, day: int)
    requires Tiles(start, end, size, batches)
    ensures start <= day <= end <==> exists i :: 0 <= i < |batches| && batches[i].first <= day <= batches[i].last
    ensures forall i, j :: 0 <= i < j < |batches| && batches[i].first <= day <= batches[i].last ==>
      day < batches[j].first
  {
    forall i, j | 0 <= i < j < |batches| ensures batches[i].last < batches[j].first {
      BatchStartsRise(start, end, size, batches, i, j);
    }
    forall i | 0 <= i < |batches| ensures batches[i].first <= batches[i].last {
      assert FitsSize(batches, size, i);
    }
    if start <= day <= end {
      var i := DayHasBatch(start, end, size, batches, day, |batches| - 1);
    }
  }

  /** One turn moves on exactly when the batch size is not zero. */
  lemma AdvancesIff(current: int, end: int, size: nat)
    requires current <= end
    ensures NextStart(current, end, size) > current <==> size > 0
    ensures size == 0 ==> NextStart(current, end, size) == current
  {
  }

  /** Where the loop is after at most `k` turns. */
  function AfterTurns(current: int, end: int, size: nat, k: nat): int
    decreases k
  {
    if k == 0 || current > end then current else AfterTurns(NextStart(current, end, size), end, size, k - 1)
  }

  lemma {:induction false} TurnsAdvance(current: int, end: int, size: nat, k: nat)
    ensures size > 0 ==> AfterTurns(current, end, size, k) >= Min(current + k, end + 1)
    ensures size == 0 ==> AfterTurns(current, end, size, k) == current
    decreases k
  {
    if k > 0 && current <= end {
      AdvancesIff(current, end, size);
      TurnsAdvance(NextStart(current, end, size), end, size, k - 1);
    }
  }

  /** The loop ends exactly when the batch size is not zero or there is nothing to do: with zero it
      pushes empty batches for ever, which is why `CutBatches` asks for a size. */
  lemma LoopEndsIff(start: int, end: int, size: nat)
    ensures (exists k: nat :: AfterTurns(start, end, size, k) > end) <==> size > 0 || start > end
  {
    if start <= end && size > 0 {
      TurnsAdvance(start, end, size, end - start + 1);
    }
    forall k: nat ensures size == 0 ==> AfterTurns(start, end, size, k) == start {
      TurnsAdvance(start, end, size, k);
    }
    assert AfterTurns(start, end, size, 0) == start;
  }

  // ----- Adding up -----

  /** What one batch's task returns: saved with a count, skipped, or failed. */
  datatype Outcome = Saved(asteroids: nat) | Skipped | Failed(range: string)

  datatype Totals = Totals(asteroids: nat, batches: nat, successful: nat, failed: seq<string>)

  function Sum(outcomes: seq<Outcome>): nat
    decreases |outcomes|
  {
    if outcomes == [] then 0
    else Sum(outcomes[..|outcomes| - 1]) + match outcomes[|outcomes| - 1]
      case Saved(n) => n
      case _ => 0
  }

  function FailedRanges(outcomes: seq<Outcome>): seq<string>
    decreases |outcomes|
  {
    if outcomes == [] then []
    else FailedRanges(outcomes[..|outcomes| - 1]) + match outcomes[|outcomes| - 1]
      case Failed(range) => [range]
      case _ => []
  }

  method AddUp(outcomes: seq<Outcome>) returns (t: Totals)
    ensures t.batches == |outcomes| == t.successful + |t.failed|
    ensures t.asteroids == Sum(outcomes) && t.failed == FailedRanges(outcomes)
  {
    var asteroids, successful, failed := 0, 0, [];
    for i := 0 to |outcomes|
      invariant i == successful + |failed|
      invariant asteroids == Sum(outcomes[..i]) && failed == FailedRanges(outcomes[..i])
    {
      assert outcomes[..i + 1][..i] == outcomes[..i];
      match outcomes[i] {
        case Saved(n) => asteroids, successful := asteroids + n, successful + 1;
        case Skipped => successful := successful + 1;
        case Failed(range) => failed := failed + [range];
      }
    }
    assert outcomes[..|outcomes|] == outcomes;
    t := Totals(asteroids, |outcomes|, successful, failed);
  }

  /** The asteroids added up are those of the batches saved, and the failed list names exactly the batches
      that failed. */
  lemma {:induction false} AddUpMeans(outcomes: seq<Outcome>, more: Outcome)
    ensures Sum([]) == 0 && FailedRanges([]) == []
    ensures Sum(outcomes + [more]) == Sum(outcomes) + if more.Saved? then more.asteroids else 0
    ensures FailedRanges(outcomes + [more]) == FailedRanges(outcomes) + if more.Failed? then [more.range] else []
  {
    assert (outcomes + [more])[..|outcomes|] == outcomes;
  }

  lemma {:induction false} FailedIff(outcomes: seq<Outcome>, range: string)
    ensures range in FailedRanges(outcomes) <==> Failed(range) in outcomes
    decreases |outcomes|
  {
    if outcomes != [] {
      FailedIff(outcomes[..|outcomes| - 1], range);
      assert outcomes == outcomes[..|outcomes| - 1] + [outcomes[|outcomes| - 1]];
    }
  }
}
