// Time as the window sees it: instants and durations are integer nanoseconds,
// as Go's time.Time difference and time.Duration are.
module Clock {
  import opened Arith

  const NanosPerSecond: int := 1_000_000_000

  /** Go's integer division of two durations, which truncates toward zero
    * (Dafny's own `/` is Euclidean and differs for a negative dividend). */
  function Quo(a: int, b: int): (q: int)
    requires b > 0
    ensures a >= 0 ==> b * q <= a < b * q + b
    ensures a < 0 ==> q <= 0
  {
    if a >= 0 then a / b else -((-a) / b)
  }

  /** Whole bucket periods elapsed since the last rotation (timewindow.go:50). */
  function Passed(lastTime: int, now: int, duration: int): int
    requires duration > 0
  {
    Quo(now - lastTime, duration)
  }

  /** The rotation reference point after rotating at `now`: only refreshed
    * when at least one period has passed, and then set to `now` itself,
    * discarding the remainder (timewindow.go:51-53, 69). */
  function RotatedTime(lastTime: int, now: int, duration: int): (t: int)
    requires duration > 0
    ensures t == lastTime || t == now
    ensures t == now <== now - lastTime >= duration
    ensures t == lastTime <== now - lastTime < duration
  {
    if Passed(lastTime, now, duration) <= 0 then lastTime else now
  }

  /** `int(d.Seconds())` for a non-negative duration `d`. */
  function Seconds(duration: int): int
    requires duration >= 0
  {
    duration / NanosPerSecond
  }

  /** At least `k` periods have passed exactly when at least `k` times the
    * bucket duration has elapsed; in particular rotation does anything only
    * after one full period, and clears the window only after a full window. */
  lemma PassedAtLeast(lastTime: int, now: int, duration: int, k: int)
    requires duration > 0 && k > 0
    ensures Passed(lastTime, now, duration) >= k <==> now - lastTime >= k * duration
  {
    var e, q := now - lastTime, Passed(lastTime, now, duration);
    MulMonotone(duration, 1, k);
    if e >= 0 {
      if q >= k {
        MulMonotone(duration, k, q);
      } else {
        MulMonotone(duration, q + 1, k);
      }
    }
  }
}
