// The behaviours exercised by timewindow_test.go, stated over the model with
// explicit clock readings. Each scenario builds a window at time `t0` and
// proves what the test observes, as the code computes it.
module Scenarios {
  import opened Options
  import opened Clock
  import opened Buckets
  import opened Histogram
  import opened TimeWindows

  const Second: int := NanosPerSecond

  /** Two Appends within one period (timewindow_test.go:8-27): the second
    * overwrites the first, so one bucket is non-zero, the sum is 2 and the
    * average is 2. */
  method AppendTwiceInOnePeriod(t0: int, t1: int, t2: int) returns (count: int, sum: real, avg: real)
    requires t0 <= t1 <= t2 < t0 + Second
    ensures count == 1 && sum == 2.0 && avg == 2.0
  {
    var w := new TimeWindow(5, Second, t0);
    PassedAtLeast(t0, t1, Second, 1);
    PassedAtLeast(t0, t2, Second, 1);
    w.Append(t1, 1.0);
    w.Append(t2, 2.0);
    assert w.buckets[..] == Zeros(5)[0 := 2.0];
    CountNonZeroUpdate(Zeros(5), 0, 2.0);
    SumOfUpdate(Zeros(5), 0, 2.0);
    ClearedIsEmpty(5);
    count := w.Count();
    sum := w.Sum();
    avg := w.Avg();
  }

  /** Inc(1) then Inc(2) within one period leaves 3 in the current bucket
    * (timewindow_test.go:29-37). */
  method IncTwiceInOnePeriod(t0: int, t1: int, t2: int) returns (value: real, found: bool)
    requires t0 <= t1 <= t2 < t0 + Second
    ensures value == 3.0 && found
  {
    var w := new TimeWindow(5, Second, t0);
    PassedAtLeast(t0, t1, Second, 1);
    PassedAtLeast(t0, t2, Second, 1);
    w.Inc(t1, 1.0);
    w.Inc(t2, 2.0);
    value, found := w.GetLatestValue();
    TimelineCoversSlots(w.State());
  }

  /** Inc(5) then Dec(2) within one period leaves 3 (timewindow_test.go:39-47). */
  method IncThenDecInOnePeriod(t0: int, t1: int, t2: int) returns (value: real, found: bool)
    requires t0 <= t1 <= t2 < t0 + Second
    ensures value == 3.0 && found
  {
    var w := new TimeWindow(5, Second, t0);
    PassedAtLeast(t0, t1, Second, 1);
    PassedAtLeast(t0, t2, Second, 1);
    w.Inc(t1, 5.0);
    w.Dec(t2, 2.0);
    value, found := w.GetLatestValue();
    TimelineCoversSlots(w.State());
  }

  /** Inc(5) then Reset(2) within one period leaves 2, and only Inc moved the
    * last-update time (timewindow_test.go:49-57). */
  method IncThenResetInOnePeriod(t0: int, t1: int, t2: int) returns (value: real, found: bool, updated: int)
    requires t0 <= t1 <= t2 < t0 + Second
    ensures value == 2.0 && found && updated == t1
  {
    var w := new TimeWindow(5, Second, t0);
    PassedAtLeast(t0, t1, Second, 1);
    PassedAtLeast(t0, t2, Second, 1);
    w.Inc(t1, 5.0);
    w.Reset(t2, 2.0);
    value, found := w.GetLatestValue();
    TimelineCoversSlots(w.State());
    updated := w.LastUpdateTime();
  }

  /** GetData on a three-bucket window returns three entries, each holding
    * exactly one value, and the newest is timed no earlier than the start
    * instant `s` read after construction (timewindow_test.go:59-78). */
  method GetDataShape(t0: int, s: int, t1: int, t2: int, rotateAt: int, now: int) returns (data: seq<DataPoint>)
    requires t0 <= s <= t1 <= t2 <= rotateAt <= now
    ensures |data| == 3
    ensures forall i :: 0 <= i < 3 ==> |data[i].values| == 1
    ensures data[0].time >= s
  {
    var w := new TimeWindow(3, Second, t0);
    w.Append(t1, 1.0);
    w.Append(t2, 2.0);
    data := w.GetData(rotateAt, now);
  }

  /** After at least a whole window of silence the old value is gone and the
    * new one is the only one left, whenever the first write came after
    * construction (timewindow_test.go:80-91). */
  method RotationAfterSleep(t0: int, s: int, slept: int) returns (sum: real)
    requires t0 <= s && slept >= 2 * Second
    ensures sum == 2.0
  {
    var w := new TimeWindow(2, Second, t0);
    w.Append(s, 1.0);
    assert t0 <= w.lastTime <= s;
    PassedAtLeast(w.lastTime, s + slept, Second, 2);
    w.Append(s + slept, 2.0);
    assert w.buckets[..] == Zeros(2)[0 := 2.0];
    SumOfUpdate(Zeros(2), 0, 2.0);
    ClearedIsEmpty(2);
    sum := w.Sum();
  }

  /** The ring after writing 1 into a fresh five-bucket window. */
  function FirstWrite(): Ring
  {
    Ring(Zeros(5)[0 := 1.0], 0)
  }

  /** Rotating that ring by one period zeroes only slot 1, which was already
    * empty, and moves the earlier value one place back in the timeline. */
  lemma OnePeriodLater()
    ensures FirstWrite().Valid()
    ensures Rotated(FirstWrite(), 1) == Ring(Zeros(5)[0 := 1.0], 1)
    ensures Timeline(Ring(Zeros(5)[0 := 1.0][1 := 2.0], 1))[..2] == [2.0, 1.0]
  {
  }

  /** A window that received 1 and then, one period later, 2. */
  method WriteTwoPeriods(t0: int, later: int) returns (w: TimeWindow)
    requires Second <= later < 2 * Second
    ensures fresh(w) && fresh(w.buckets) && w.Valid() && w.duration == Second
    ensures w.State() == Ring(Zeros(5)[0 := 1.0][1 := 2.0], 1)
    ensures w.lastTime == t0 + later
  {
    w := new TimeWindow(5, Second, t0);
    w.Append(t0, 1.0);
    assert w.State() == FirstWrite();
    PassedAtLeast(t0, t0 + later, Second, 1);
    PassedAtLeast(t0, t0 + later, Second, 2);
    OnePeriodLater();
    w.Append(t0 + later, 2.0);
  }

  /** One period later the earlier value has moved to an older slot instead
    * of being lost: both count towards the sum. */
  method PartialRotationKeepsSum(t0: int, later: int) returns (sum: real)
    requires Second <= later < 2 * Second
    ensures sum == 3.0
  {
    var w := WriteTwoPeriods(t0, later);
    assert w.buckets[..] == Zeros(5)[0 := 1.0][1 := 2.0];
    SumOfUpdate(Zeros(5), 0, 1.0);
    SumOfUpdate(Zeros(5)[0 := 1.0], 1, 2.0);
    ClearedIsEmpty(5);
    sum := w.Sum();
  }

  /** GetData in the same period lists the new value first and the earlier
    * one second. */
  method PartialRotationListsBoth(t0: int, later: int) returns (data: seq<DataPoint>)
    requires Second <= later < 2 * Second
    ensures |data| == 5 && data[0].values == [2.0] && data[1].values == [1.0]
  {
    var w := WriteTwoPeriods(t0, later);
    OnePeriodLater();
    PassedAtLeast(t0 + later, t0 + later, Second, 1);
    data := w.GetData(t0 + later, t0 + later);
  }

  /** A fresh window has nothing to draw. */
  method FreshWindowHasNoData(t0: int, now: int, opt: Option<HistogramOption>) returns (chart: Histogram)
    ensures chart == NoData
  {
    var w := new TimeWindow(5, Second, t0);
    chart := w.PrintHistogram(now, opt);
    NoDataIffNoPositiveBucket(w.State(), HeightOf(opt), Seconds(Second));
  }

  /** Whatever the window held and however much time passed, Reset(v) makes
    * the latest value `v`. */
  method ResetIsLatest(w: TimeWindow, now: int, v: real) returns (value: real, found: bool)
    requires w.Valid()
    modifies w, w.buckets
    ensures value == v && found
  {
    w.Reset(now, v);
    value, found := w.GetLatestValue();
    TimelineCoversSlots(w.State());
  }

  /** Value followed by Scan of the same record restores every field. */
  method ScanRestoresValue(source: TimeWindow, target: TimeWindow) returns (failed: bool)
    requires source.Valid() && target.Valid()
    modifies target
    ensures !failed && target.Valid()
    ensures target.Persisted() == old(source.Persisted())
  {
    var record := source.Value();
    failed := target.Scan(Bytes(Some(record)));
  }
}
