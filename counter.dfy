/**
 * The gallery's animated statistic: a count that climbs from 0 to `end` over
 * `duration` seconds, one animation frame at a time. Times are whole
 * milliseconds and the arithmetic is exact.
 */
module Counter {
  import opened Optional

  /**
   * The count shown `elapsed` ms after the first frame, for a run of
   * `durationMs` ms (`duration * 1000`): `floor(min(elapsed / durationMs, 1) * end)`.
   * With a positive divisor Dafny's `/` rounds down, as `Math.floor` does.
   */
  function Value(elapsed: int, end: int, durationMs: int): (v: int)
    requires durationMs > 0
    ensures elapsed == 0 ==> v == 0
    ensures elapsed >= durationMs ==> v == end
  {
    if elapsed >= durationMs then end else (elapsed * end) / durationMs
  }

  /** Whether another frame is requested: while `progress < 1`, i.e. before the duration has passed. */
  predicate Continues(elapsed: int, durationMs: int)
  {
    elapsed < durationMs
  }

  lemma {:induction false} MulMonotone(d: nat, x: int, y: int)
    ensures x <= y ==> d * x <= d * y
  {
    if d > 0 {
      MulMonotone(d - 1, x, y);
      assert d * x == (d - 1) * x + x;
      assert d * y == (d - 1) * y + y;
    }
  }

  /** Flooring division by a positive divisor never decreases. */
  lemma DivMonotone(a: int, b: int, d: int)
    requires d > 0 && a <= b
    ensures a / d <= b / d
  {
    var qa, qb := a / d, b / d;
    assert d * qa <= a && b < d * qb + d;
    MulMonotone(d, qb + 1, qa);
    assert d * (qb + 1) == d * qb + d;
  }

  /** Below a multiple of the divisor, the quotient stays below the multiplier. */
  lemma DivBelow(a: int, d: int, k: int)
    requires d > 0 && a < d * k
    ensures a / d < k
  {
    var q := a / d;
    assert d * q <= a;
    MulMonotone(d, k, q);
  }

  /** From the first frame on, a non-negative target's count stays between 0 and the target. */
  lemma ValueBounded(elapsed: int, end: int, durationMs: int)
    requires durationMs > 0 && 0 <= elapsed && 0 <= end
    ensures 0 <= Value(elapsed, end, durationMs) <= end
  {
    if elapsed < durationMs {
      MulMonotone(end, 0, elapsed);
      MulMonotone(end, elapsed, durationMs);
      assert durationMs * (end + 1) == durationMs * end + durationMs;
      DivBelow(elapsed * end, durationMs, end + 1);
    }
  }

  /** For a non-negative target the shown count never decreases as time goes on. */
  lemma ValueMonotone(e1: int, e2: int, end: int, durationMs: int)
    requires durationMs > 0 && 0 <= end && e1 <= e2
    ensures Value(e1, end, durationMs) <= Value(e2, end, durationMs)
  {
    if e2 < durationMs {
      MulMonotone(end, e1, e2);
      DivMonotone(e1 * end, e2 * end, durationMs);
    } else if e1 < durationMs {
      MulMonotone(end, e1, durationMs);
      assert durationMs * (end + 1) == durationMs * end + durationMs;
      DivBelow(e1 * end, durationMs, end + 1);
    }
  }

  /**
   * For a positive target the count reaches `end` exactly when the duration
   * has passed, which is exactly when no further frame is requested.
   */
  lemma ReachesEndExactlyWhenStopping(elapsed: int, end: int, durationMs: int)
    requires durationMs > 0 && end > 0 && elapsed >= 0
    ensures Value(elapsed, end, durationMs) == end <==> !Continues(elapsed, durationMs)
  {
    if elapsed < durationMs {
      MulMonotone(end, elapsed + 1, durationMs);
      assert end * (elapsed + 1) == elapsed * end + end;
      assert elapsed * end < durationMs * end;
      DivBelow(elapsed * end, durationMs, end);
    }
  }

  /** The gallery's "Done Projects" counter: 0 at the first frame, 315 halfway, 630 at two seconds. */
  lemma DoneProjectsSamples()
    ensures Value(0, 630, 2 * 1000) == 0
    ensures Value(1000, 630, 2 * 1000) == 315
    ensures Value(2000, 630, 2 * 1000) == 630
    ensures !Continues(2000, 2 * 1000) && Continues(1999, 2 * 1000)
  {
  }

  /** One `CounterAnimation`: its shown count and the state of its frame loop. */
  class Animation {
    /** The `end` and `duration * 1000` the current run of the effect started with. */
    var end: int
    var durationMs: int
    /** `count`, the number shown. */
    var count: int
    /** `startTime`: unset until the first frame. */
    var startTime: Option<int>
    /** Whether a frame is requested and not yet run or cancelled. */
    var scheduled: bool

    ghost predicate Valid()
      reads this
    {
      durationMs > 0
    }

    /** Mount: the count starts at 0 and the first frame is requested; `duration` defaults to 2 s. */
    constructor (end: int, durationMs: int := 2000)
      requires durationMs > 0
      ensures Valid() && this.end == end && this.durationMs == durationMs
      ensures count == 0 && startTime == None && scheduled
    {
      this.end := end;
      this.durationMs := durationMs;
      count := 0;
      startTime := None;
      scheduled := true;
    }

    /** `!startTime`: unset, or set to the falsy timestamp 0. */
    predicate NoStart()
      reads this
    {
      startTime.None? || startTime.value == 0
    }

    /** `updateCount(timestamp)`: fix the start if unset, show the value for the elapsed time, and request a further frame until done. */
    method Tick(timestamp: int)
      requires Valid() && scheduled
      modifies this`count, this`startTime, this`scheduled
      ensures Valid()
      ensures startTime == Some(if old(NoStart()) then timestamp else old(startTime).value)
      ensures count == Value(timestamp - startTime.value, end, durationMs)
      ensures scheduled == Continues(timestamp - startTime.value, durationMs)
    {
      if NoStart() {
        startTime := Some(timestamp);
      }
      var elapsed := timestamp - startTime.value;
      count := Value(elapsed, end, durationMs);
      scheduled := elapsed < durationMs;
    }

    /** Unmount: the pending frame is cancelled. */
    method Cancel()
      modifies this`scheduled
      ensures !scheduled
    {
      scheduled := false;
    }

    /**
     * A change of `end` or `duration`: the old run's frame is cancelled and the
     * effect runs again with a fresh, unset start time. `count` is component
     * state, so the old number stays shown until the new run's first frame.
     */
    method Restart(end: int, durationMs: int)
      requires durationMs > 0
      modifies this
      ensures Valid() && this.end == end && this.durationMs == durationMs
      ensures startTime == None && scheduled
      ensures count == old(count)
    {
      Cancel();
      this.end := end;
      this.durationMs := durationMs;
      startTime := None;
      scheduled := true;
    }
  }
}
