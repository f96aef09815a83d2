/**
 * The slice of Go's `time` package and integer arithmetic that toki relies on:
 * a `time.Duration` is an int64 count of nanoseconds, `Duration.Milliseconds`
 * truncates toward zero, and `timerInterval` picks the countdown tick cadence.
 */
module GoTime {

  const Millisecond: int := 1_000_000
  const Second: int := 1_000 * Millisecond
  const Minute: int := 60 * Second

  function Abs(x: int): (r: nat)
    ensures r == x || r == -x
  {
    if x < 0 then -x else x
  }

  /**
   * Go's integer quotient `a / b`, which truncates toward zero (Dafny's own
   * `/` is Euclidean). The result is the quotient of the magnitudes, carrying
   * the sign of `a * b`.
   */
  function Quo(a: int, b: int): (q: int)
    requires b != 0
    ensures Abs(q) * Abs(b) <= Abs(a) < (Abs(q) + 1) * Abs(b)
    ensures q > 0 ==> (a < 0) == (b < 0)
    ensures q < 0 ==> (a < 0) != (b < 0)
  {
    var x, y := Abs(a), Abs(b);
    var m := x / y;
    DivBounds(x, y);
    var q := if (a < 0) == (b < 0) then m else -m;
    assert Abs(q) == m;
    q
  }

  /** Euclidean division of naturals brackets the dividend between consecutive multiples. */
  lemma DivBounds(x: nat, y: nat)
    requires y > 0
    ensures 0 <= x / y
    ensures (x / y) * y <= x < (x / y + 1) * y
  {
    var q, r := x / y, x % y;
    assert x == q * y + r && 0 <= r < y;
    assert (q + 1) * y == q * y + y;
  }

  /**
   * A truncated whole percent of `done` out of `total` is the largest whole
   * number of hundredths not exceeding the ratio, and stays below 100
   * exactly while `done` is below `total`.
   */
  lemma WholePercent(done: int, total: int)
    requires total != 0
    ensures var pct := Quo(done * 100, total);
      0 <= done && 0 < total ==>
        && 0 <= pct
        && pct * total <= done * 100 < (pct + 1) * total
        && (pct < 100 <==> done < total)
  {
    if done < 0 || total < 0 {
      return;
    }
    var pct := Quo(done * 100, total);
    assert Abs(done * 100) == done * 100;
    assert 0 <= pct;
    if done < total {
      assert done * 100 < 100 * total;
      LessTimes(pct, 100, total);
    } else {
      assert done * 100 >= 100 * total;
      LessTimes(100, pct + 1, total);
    }
  }

  /** Multiplying by a positive factor keeps a strict order, read backwards. */
  lemma LessTimes(a: int, b: int, c: int)
    requires c > 0 && a * c < b * c
    ensures a < b
  {
  }

  /** `time.Duration.Milliseconds`: the duration as a whole number of milliseconds. */
  function Milliseconds(d: int): (ms: int)
    ensures 0 <= d ==> 0 <= ms && ms * Millisecond <= d < (ms + 1) * Millisecond
    ensures d <= 0 ==> ms <= 0 && (ms - 1) * Millisecond < d <= ms * Millisecond
  {
    Quo(d, Millisecond)
  }

  /**
   * A stage whose millisecond count is non-zero; only such a stage can be the
   * divisor of the progress computation on a tick.
   */
  predicate Measurable(d: int) {
    Milliseconds(d) != 0
  }

  /** The divisor of a tick is non-zero exactly for stages of at least one millisecond either way. */
  lemma MeasurableIff(d: int)
    ensures Measurable(d) <==> d <= -Millisecond || Millisecond <= d
  {
  }

  /**
   * `timerInterval`: stages shorter than a minute tick every 100 ms, all
   * others every second.
   */
  function TimerInterval(d: int): (i: int)
    ensures i == 100 * Millisecond <==> d < Minute
    ensures i == Second <==> Minute <= d
  {
    if d < Minute then 100 * Millisecond else Second
  }

  /** The cadence boundaries: 45 s and 59.999 s tick at 100 ms; exactly 60 s and more at 1 s. */
  lemma TimerIntervalBoundaries()
    ensures TimerInterval(45 * Second) == 100 * Millisecond
    ensures TimerInterval(59_999 * Millisecond) == 100 * Millisecond
    ensures TimerInterval(Minute) == Second
    ensures TimerInterval(25 * Minute) == Second
  {
  }
}
