/** Trip counts, loop semantics, the interval validator. */
module AotLoops {
  import opened Options
  import opened Int64
  import opened AotExpr
  import opened AotChecked
  import opened AotInterval
  import opened AotSelfDelta

  // ---------------------------------------------------------------- trip counts

  const MAX_VALIDATED: int := 100_000_000

  /** affineIterationCount. The divisor of a negative step is negated in int64, so it stays negative for MIN. */
  function IterationCount(start: int64, limit: int64, step: int64, inclusive: bool): Option<int64> {
    if step == 0 then None
    else if !Continues(start, limit, step, inclusive) then Some(0)
    else
      var divisor := if step > 0 then step else Wrap(0 - step);
      var distance := (if step > 0 then limit - start else start - limit) + (if inclusive then 1 else 0);
      var count := TruncDiv(distance + divisor - 1, divisor);
      if !Fits(count) || count < 0 then None else Some(count)
  }

  /** The loop test at counter value c. */
  predicate Continues(c: int, limit: int, step: int, inclusive: bool) {
    if step > 0 then c < limit || (inclusive && c == limit) else c > limit || (inclusive && c == limit)
  }

  /** n is the number of times the test succeeds when the counter starts at `start` and moves by `step`. */
  ghost predicate TripCount(n: int, start: int, limit: int, step: int, inclusive: bool) {
    && n >= 0
    && (forall k: nat :: k < n ==> Continues(At(start, step, k), limit, step, inclusive))
    && !Continues(At(start, step, n), limit, step, inclusive)
  }

  function At(start: int, step: int, k: int): int {
    start + k * step
  }

  lemma {:induction false} AtMonotone(start: int, step: int, j: int, k: int)
    requires j <= k
    ensures step >= 0 ==> At(start, step, j) <= At(start, step, k)
    ensures step <= 0 ==> At(start, step, j) >= At(start, step, k)
  {
    assert (k - j) * step == k * step - j * step;
    AtLeast(k - j, if step >= 0 then step else -step);
    assert (k - j) * -step == -((k - j) * step);
  }

  /** Every continuing counter value up to the limit is counted: with a step other than MIN the closed form
      is exactly the trip count. */
  lemma {:induction false} IterationCountExact(start: int64, limit: int64, step: int64, inclusive: bool)
    requires step != 0 && step != MIN
    ensures IterationCount(start, limit, step, inclusive).Some? ==>
              TripCount(IterationCount(start, limit, step, inclusive).value, start, limit, step, inclusive)
    ensures IterationCount(start, limit, step, inclusive).None? ==>
              TripCount(CeilDiv(Distance(start, limit, step, inclusive), if step > 0 then step else 0 - step),
                        start, limit, step, inclusive)
              && !Fits(CeilDiv(Distance(start, limit, step, inclusive), if step > 0 then step else 0 - step))
  {
    if Continues(start, limit, step, inclusive) {
      var divisor: int := if step > 0 then step else 0 - step;
      CeilTrips(start, limit, step, inclusive, divisor);
    } else {
      assert At(start, step, 0) == start;
    }
  }

  function Distance(start: int, limit: int, step: int, inclusive: bool): int {
    (if step > 0 then limit - start else start - limit) + (if inclusive then 1 else 0)
  }

  function CeilDiv(d: int, n: int): int
    requires n > 0
  {
    (d + n - 1) / n
  }

  lemma {:induction false} CeilTrips(start: int, limit: int, step: int, inclusive: bool, n: int)
    requires step != 0 && n == (if step > 0 then step else -step)
    requires Continues(start, limit, step, inclusive)
    ensures CeilDiv(Distance(start, limit, step, inclusive), n) >= 1
    ensures TripCount(CeilDiv(Distance(start, limit, step, inclusive), n), start, limit, step, inclusive)
  {
    var d := Distance(start, limit, step, inclusive);
    var q := CeilDiv(d, n);
    CeilBounds(d, n);
    forall k: nat | k < q
      ensures Continues(At(start, step, k), limit, step, inclusive)
    {
      AtMonotone(0, n, k, q - 1);
      assert k * step == if step > 0 then k * n else -(k * n);
    }
    assert q * step == if step > 0 then q * n else -(q * n);
  }

  lemma {:induction false} CeilBounds(d: int, n: int)
    requires n > 0 && d >= 1
    ensures CeilDiv(d, n) >= 1 && At(0, n, CeilDiv(d, n) - 1) < d <= CeilDiv(d, n) * n
  {
    var q := CeilDiv(d, n);
    assert d + n - 1 == q * n + (d + n - 1) % n;
    assert (q - 1) * n == q * n - n;
    AtLeast(1 - q, n);
    assert (1 - q) * n == n - q * n;
  }

  /** For the one step whose negation is not a machine integer the count is wrong unless a single iteration remains:
      it is 0 although the loop body runs. */
  lemma {:induction false} IterationCountMin(start: int64, limit: int64, inclusive: bool)
    requires Continues(start, limit, MIN, inclusive)
    ensures IterationCount(start, limit, MIN, inclusive) ==
            Some(if Distance(start, limit, MIN, inclusive) == 1 then 1 else 0)
    ensures TripCount(IterationCount(start, limit, MIN, inclusive).value, start, limit, MIN, inclusive)
            <==> Distance(start, limit, MIN, inclusive) == 1
  {
    assert At(start, MIN, 0) == start;
  }

  /** affineLastValue. */
  function LastValue(start: int64, step: int64, count: int64): Option<int64> {
    if count <= 0 then Some(start)
    else if Fits(At(start, step, count - 1)) then Some(At(start, step, count - 1)) else None
  }
}
