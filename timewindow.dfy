// The TimeWindow of timewindow.go: a fixed number of buckets in a circular
// array, a cursor on the bucket for the current period, and the clock
// readings that drive lazy rotation. Every operation takes the current time
// `now` (nanoseconds) as a parameter instead of reading the wall clock.
module TimeWindows {
  import opened Options
  import opened Clock
  import opened Buckets
  import opened Histogram

  /** One entry of GetData: the bucket's time and its value, wrapped in a
    * one-element list (timewindow.go:319-322, 338-344). */
  datatype DataPoint = DataPoint(time: int, values: seq<real>)

  /** The histogram configuration (timewindow.go:146-148). */
  datatype HistogramOption = HistogramOption(height: int)

  /** The fields Value writes and Scan reads back (timewindow.go:261-275, 289-296). */
  datatype Record = Record(buckets: seq<real>, size: int, duration: int,
                           lastTime: int, cursor: int, lastUpdate: int)
  {
    predicate WellFormed()
    {
      size > 0 && duration > 0 && |buckets| == size && 0 <= cursor < size
    }
  }

  /** What Scan is handed: nil, a value that is not a byte slice, or a byte
    * slice whose JSON decoding failed (`None`) or produced a record. */
  datatype ScanInput = NilValue | NotBytes | Bytes(decoded: Option<Record>)

  /** The height PrintHistogram uses: the option's, or 20 without one. */
  function HeightOf(opt: Option<HistogramOption>): int
  {
    if opt.None? then DefaultHeight else opt.value.height
  }

  class TimeWindow {
    var buckets: array<real>
    var size: int
    var duration: int
    var lastTime: int
    var cursor: int
    var lastUpdate: int

    /** Cursor in range, the array as long as `size`, and a positive period. */
    ghost predicate Valid()
      reads this
    {
      size > 0 && duration > 0 && buckets.Length == size && 0 <= cursor < size
    }

    /** The buckets and the cursor as a ring value. */
    ghost function State(): (r: Ring)
      reads this, buckets
      requires Valid()
      ensures r.Valid() && |r.slots| == size
    {
      Ring(buckets[..], cursor)
    }

    /** Every field, as Value writes it. */
    ghost function Persisted(): Record
      reads this, buckets
    {
      Record(buckets[..], size, duration, lastTime, cursor, lastUpdate)
    }

    /** NewTimeWindow (timewindow.go:27-34): all buckets zero, cursor 0,
      * rotation reference `now`, zero last-update time. */
    constructor (size: int, duration: int, now: int)
      requires size > 0 && duration > 0
      ensures Valid() && fresh(buckets)
      ensures this.size == size && this.duration == duration
      ensures State() == Cleared(size)
      ensures lastTime == now && lastUpdate == 0
    {
      buckets := new real[size](_ => 0.0);
      this.size := size;
      this.duration := duration;
      lastTime := now;
      cursor := 0;
      lastUpdate := 0;
    }

    /** rotate (timewindow.go:49-70): nothing when less than one period has
      * passed; all buckets cleared and the cursor reset when a whole window
      * has; otherwise the cursor walks forward, zeroing each bucket it
      * enters. The reference time becomes `now` whenever anything moved. */
    method Rotate(now: int)
      requires Valid()
      modifies this, buckets
      ensures Valid() && buckets == old(buckets)
      ensures size == old(size) && duration == old(duration) && lastUpdate == old(lastUpdate)
      ensures State() == Rotated(old(State()), Passed(old(lastTime), now, duration))
      ensures lastTime == RotatedTime(old(lastTime), now, duration)
    {
      var passed := Quo(now - lastTime, duration);
      if passed <= 0 {
        return;
      }
      if passed >= size {
        var i := 0;
        while i < buckets.Length
          invariant 0 <= i <= buckets.Length
          invariant buckets == old(buckets) && size == old(size) && duration == old(duration)
          invariant lastUpdate == old(lastUpdate) && lastTime == old(lastTime)
          invariant forall j :: 0 <= j < i ==> buckets[j] == 0.0
        {
          buckets[i] := 0.0;
          i := i + 1;
        }
        cursor := 0;
        assert buckets[..] == Zeros(size);
      } else {
        ghost var start := State();
        var i := 0;
        while i < passed
          invariant 0 <= i <= passed
          invariant buckets == old(buckets) && size == old(size) && duration == old(duration)
          invariant lastUpdate == old(lastUpdate) && lastTime == old(lastTime)
          invariant 0 <= cursor < size
          invariant State() == Walk(start, i)
        {
          cursor := (cursor + 1) % size;
          buckets[cursor] := 0.0;
          i := i + 1;
        }
        WalkIsAdvance(start, passed);
      }
      lastTime := now;
    }

    /** Append (timewindow.go:37-46): after rotating, overwrite the current
      * bucket; the last-update time is left alone. */
    method Append(now: int, value: real)
      requires Valid()
      modifies this, buckets
      ensures Valid() && buckets == old(buckets)
      ensures size == old(size) && duration == old(duration) && lastUpdate == old(lastUpdate)
      ensures lastTime == RotatedTime(old(lastTime), now, duration)
      ensures var q := Rotated(old(State()), Passed(old(lastTime), now, duration));
              State() == Ring(q.slots[q.cursor := value], q.cursor)
    {
      Rotate(now);
      buckets[cursor] := value;
    }

    /** Inc (timewindow.go:111-120): after rotating, add `delta` to the
      * current bucket and record `now` as the last-update time. */
    method Inc(now: int, delta: real)
      requires Valid()
      modifies this, buckets
      ensures Valid() && buckets == old(buckets)
      ensures size == old(size) && duration == old(duration) && lastUpdate == now
      ensures lastTime == RotatedTime(old(lastTime), now, duration)
      ensures var q := Rotated(old(State()), Passed(old(lastTime), now, duration));
              State() == Ring(q.slots[q.cursor := q.slots[q.cursor] + delta], q.cursor)
    {
      Rotate(now);
      lastUpdate := now;
      buckets[cursor] := buckets[cursor] + delta;
    }

    /** Dec (timewindow.go:123-132): after rotating, subtract `delta` from
      * the current bucket and record `now` as the last-update time. */
    method Dec(now: int, delta: real)
      requires Valid()
      modifies this, buckets
      ensures Valid() && buckets == old(buckets)
      ensures size == old(size) && duration == old(duration) && lastUpdate == now
      ensures lastTime == RotatedTime(old(lastTime), now, duration)
      ensures var q := Rotated(old(State()), Passed(old(lastTime), now, duration));
              State() == Ring(q.slots[q.cursor := q.slots[q.cursor] - delta], q.cursor)
    {
      Rotate(now);
      lastUpdate := now;
      buckets[cursor] := buckets[cursor] - delta;
    }

    /** Reset (timewindow.go:135-143): the same effect as Append. */
    method Reset(now: int, value: real)
      requires Valid()
      modifies this, buckets
      ensures Valid() && buckets == old(buckets)
      ensures size == old(size) && duration == old(duration) && lastUpdate == old(lastUpdate)
      ensures lastTime == RotatedTime(old(lastTime), now, duration)
      ensures var q := Rotated(old(State()), Passed(old(lastTime), now, duration));
              State() == Ring(q.slots[q.cursor := value], q.cursor)
    {
      Rotate(now);
      buckets[cursor] := value;
    }

    /** Sum (timewindow.go:73-82): the total of all buckets, without rotating. */
    method Sum() returns (sum: real)
      requires Valid()
      ensures sum == SumOf(buckets[..])
    {
      sum := 0.0;
      var i := 0;
      while i < buckets.Length
        invariant 0 <= i <= buckets.Length
        invariant sum == SumOf(buckets[..i])
      {
        assert buckets[..i + 1][..i] == buckets[..i];
        sum := sum + buckets[i];
        i := i + 1;
      }
      assert buckets[..i] == buckets[..];
    }

    /** Count (timewindow.go:85-96): how many buckets are non-zero, without rotating. */
    method Count() returns (count: int)
      requires Valid()
      ensures count == CountNonZero(buckets[..])
      ensures 0 <= count <= size
    {
      count := 0;
      var i := 0;
      while i < buckets.Length
        invariant 0 <= i <= buckets.Length
        invariant count == CountNonZero(buckets[..i])
      {
        assert buckets[..i + 1][..i] == buckets[..i];
        if buckets[i] != 0.0 {
          count := count + 1;
        }
        i := i + 1;
      }
      assert buckets[..i] == buckets[..];
    }

    /** Avg (timewindow.go:99-108): the sum over the non-zero count, and 0
      * instead of dividing by zero when every bucket is zero. */
    method Avg() returns (avg: real)
      requires Valid()
      ensures CountNonZero(buckets[..]) == 0 ==> avg == 0.0
      ensures CountNonZero(buckets[..]) > 0 ==>
              avg * (CountNonZero(buckets[..]) as real) == SumOf(buckets[..])
    {
      var count := Count();
      if count == 0 {
        return 0.0;
      }
      var sum := Sum();
      avg := sum / (count as real);
    }

    /** GetLatestValue (timewindow.go:351-356): the current bucket, always found. */
    method GetLatestValue() returns (value: real, found: bool)
      requires Valid()
      ensures found
      ensures value == Timeline(State())[0]
    {
      TimelineCoversSlots(State());
      value, found := buckets[cursor], true;
    }

    /** LastUpdateTime (timewindow.go:246-250): the time of the last Inc or
      * Dec, or the zero time 0 if neither has run. */
    method LastUpdateTime() returns (t: int)
      ensures t == lastUpdate
    {
      t := lastUpdate;
    }

    /** The body of GetData after rotating (timewindow.go:331-347): entry `i`
      * holds the bucket `i` periods old, timed `i` periods before `now`. */
    method Entries(now: int) returns (data: seq<DataPoint>)
      requires Valid()
      ensures |data| == size
      ensures forall i :: 0 <= i < size ==>
                data[i] == DataPoint(now - i * duration, [Timeline(State())[i]])
    {
      var result := new DataPoint[size];
      var i := 0;
      while i < size
        invariant 0 <= i <= size
        invariant forall k :: 0 <= k < i ==>
                    result[k] == DataPoint(now - k * duration, [Timeline(State())[k]])
      {
        var idx := (cursor - i + size) % size;
        result[i] := DataPoint(now - i * duration, [buckets[idx]]);
        i := i + 1;
      }
      data := result[..];
    }

    /** GetData (timewindow.go:325-348): rotate at `rotateAt`, then list the
      * buckets newest first, timed from a second clock reading `now`. */
    method GetData(rotateAt: int, now: int) returns (data: seq<DataPoint>)
      requires Valid()
      modifies this, buckets
      ensures Valid() && buckets == old(buckets)
      ensures size == old(size) && duration == old(duration) && lastUpdate == old(lastUpdate)
      ensures State() == Rotated(old(State()), Passed(old(lastTime), rotateAt, duration))
      ensures lastTime == RotatedTime(old(lastTime), rotateAt, duration)
      ensures |data| == size
      ensures forall i :: 0 <= i < size ==>
                data[i] == DataPoint(now - i * duration, [Timeline(State())[i]])
    {
      Rotate(rotateAt);
      data := Entries(now);
    }

    /** The collection loop of PrintHistogram (timewindow.go:172-190): the
      * buckets newest first, non-positive ones as 0, their relative times
      * in whole seconds, and the largest value seen (0 if none is positive). */
    method Collect() returns (values: array<real>, times: seq<int>, maxValue: real)
      requires Valid()
      ensures fresh(values)
      ensures values[..] == Bars(Timeline(State()))
      ensures |times| == size
      ensures forall k :: 0 <= k < size ==> times[k] == -k * Seconds(duration)
      ensures maxValue == Peak(values[..])
    {
      ghost var ring := State();
      ghost var bars := Bars(Timeline(ring));
      values := new real[size](_ => 0.0);
      times := [];
      maxValue := 0.0;
      var i := 0;
      while i < size
        invariant 0 <= i <= size && |times| == i
        invariant forall k :: 0 <= k < i ==> values[k] == bars[k]
        invariant forall k :: i <= k < size ==> values[k] == 0.0
        invariant forall k :: 0 <= k < i ==> times[k] == -k * Seconds(duration)
        invariant maxValue == Peak(bars[..i])
      {
        var idx := Behind(cursor, i, size);
        times := times + [-i * (duration / NanosPerSecond)];
        BarAt(ring, i);
        assert ring.slots[idx] == buckets[idx];
        PeakStep(bars, i);
        if buckets[idx] > 0.0 {
          var value := buckets[idx];
          values[i] := value;
          if value > maxValue {
            maxValue := value;
          }
        }
        i := i + 1;
      }
      assert values[..] == bars;
      assert bars == bars[..size];
    }

    /** The body of PrintHistogram after rotating (timewindow.go:165-242):
      * "no data" when nothing is positive, otherwise the bar rows from the
      * top, the value row and the time-label row. */
    method Render(opt: Option<HistogramOption>) returns (chart: Histogram)
      requires Valid()
      ensures chart == Plot(Timeline(State()), HeightOf(opt), Seconds(duration))
    {
      var height := if opt.None? then DefaultHeight else opt.value.height;
      var values, times, maxValue := Collect();
      if maxValue == 0.0 {
        return NoData;
      }
      var bars := BarRows(values, maxValue, height);
      var shown := ValueRow(values);
      var labels := LabelRow(times);
      chart := Chart(bars, shown, labels);
    }

    /** PrintHistogram (timewindow.go:158-243): rotate at `now`, then render. */
    method PrintHistogram(now: int, opt: Option<HistogramOption>) returns (chart: Histogram)
      requires Valid()
      modifies this, buckets
      ensures Valid() && buckets == old(buckets)
      ensures size == old(size) && duration == old(duration) && lastUpdate == old(lastUpdate)
      ensures State() == Rotated(old(State()), Passed(old(lastTime), now, duration))
      ensures lastTime == RotatedTime(old(lastTime), now, duration)
      ensures chart == Plot(Timeline(State()), HeightOf(opt), Seconds(duration))
    {
      Rotate(now);
      chart := Render(opt);
    }

    /** Value (timewindow.go:253-278): the record of every field, which the
      * source then encodes as JSON. */
    method Value() returns (record: Record)
      requires Valid()
      ensures record.WellFormed()
      ensures record == Persisted()
    {
      record := Record(buckets[..], size, duration, lastTime, cursor, lastUpdate);
    }

    /** Scan (timewindow.go:281-316): nil is accepted with no change; a value
      * that is not bytes is an error with no change; bytes that fail to
      * decode are accepted with no change; a decoded record replaces every
      * field. */
    method Scan(input: ScanInput) returns (failed: bool)
      requires Valid()
      requires input.Bytes? && input.decoded.Some? ==> input.decoded.value.WellFormed()
      modifies this
      ensures Valid()
      ensures failed <==> input.NotBytes?
      ensures input.Bytes? && input.decoded.Some? ==>
                fresh(buckets) && Persisted() == input.decoded.value
      ensures !(input.Bytes? && input.decoded.Some?) ==>
                unchanged(this) && Persisted() == old(Persisted())
    {
      match input
      case NilValue =>
        return false;
      case NotBytes =>
        return true;
      case Bytes(decoded) =>
        if decoded.None? {
          return false;
        }
        var data := decoded.value;
        buckets := new real[|data.buckets|](k requires 0 <= k < |data.buckets| => data.buckets[k]);
        size := data.size;
        duration := data.duration;
        lastTime := data.lastTime;
        cursor := data.cursor;
        lastUpdate := data.lastUpdate;
        failed := false;
    }
  }

  /** The bar rows of the chart, top first (timewindow.go:198-208). */
  method BarRows(values: array<real>, maxValue: real, height: int) returns (bars: seq<seq<bool>>)
    ensures |bars| == Rows(height)
    ensures forall r :: 0 <= r < |bars| ==> bars[r] == Row(values[..], maxValue, height - r, height)
  {
    bars := [];
    var h := height;
    while h > 0
      invariant height > 0 ==> 0 <= h <= height && |bars| == height - h
      invariant height <= 0 ==> h == height && bars == []
      invariant forall r :: 0 <= r < |bars| ==> bars[r] == Row(values[..], maxValue, height - r, height)
    {
      var threshold := maxValue * (h as real) / (height as real);
      var row: seq<bool> := [];
      var i := 0;
      while i < values.Length
        invariant 0 <= i <= values.Length && |row| == i
        invariant forall k :: 0 <= k < i ==> row[k] == (values[k] >= threshold)
      {
        row := row + [values[i] >= threshold];
        i := i + 1;
      }
      assert threshold == Threshold(maxValue, h, height);
      assert row == Row(values[..], maxValue, h, height);
      bars := bars + [row];
      h := h - 1;
    }
  }

  /** The value row: each positive value, blank otherwise (timewindow.go:217-223). */
  method ValueRow(values: array<real>) returns (shown: seq<Option<real>>)
    ensures |shown| == values.Length
    ensures forall i :: 0 <= i < values.Length ==>
              shown[i] == if values[i] > 0.0 then Some(values[i]) else None
  {
    shown := [];
    var i := 0;
    while i < values.Length
      invariant 0 <= i <= values.Length && |shown| == i
      invariant forall k :: 0 <= k < i ==> shown[k] == if values[k] > 0.0 then Some(values[k]) else None
    {
      shown := shown + [if values[i] > 0.0 then Some(values[i]) else None];
      i := i + 1;
    }
  }

  /** The label row: the relative time at every `interval`-th column
    * (timewindow.go:227-239). */
  method LabelRow(times: seq<int>) returns (labels: seq<Option<int>>)
    requires |times| > 0
    ensures |labels| == |times|
    ensures forall i :: 0 <= i < |times| ==>
              labels[i] == if i % Interval(|times|) == 0 then Some(times[i]) else None
  {
    var interval := 1;
    if |times| > 20 {
      interval := |times| / 10;
    }
    labels := [];
    var i := 0;
    while i < |times|
      invariant 0 <= i <= |times| && |labels| == i
      invariant forall k :: 0 <= k < i ==>
                  labels[k] == if k % interval == 0 then Some(times[k]) else None
    {
      labels := labels + [if i % interval == 0 then Some(times[i]) else None];
      i := i + 1;
    }
  }

  /** The histogram says "no data" exactly when no bucket, in any slot of
    * the ring, holds a positive value. */
  lemma NoDataIffNoPositiveBucket(r: Ring, height: int, secs: int)
    requires r.Valid()
    ensures Plot(Timeline(r), height, secs).NoData? <==>
            forall j :: 0 <= j < |r.slots| ==> r.slots[j] <= 0.0
  {
    var n := |r.slots|;
    NoDataIff(Timeline(r), height, secs);
    TimelineCoversSlots(r);
    if forall j :: 0 <= j < n ==> r.slots[j] <= 0.0 {
      forall i | 0 <= i < n
        ensures Timeline(r)[i] <= 0.0
      {
        assert Timeline(r)[i] == r.slots[Behind(r.cursor, i, n)];
      }
    }
  }

  /** Position `i` of the newest-first view, as drawn, is the bucket the
    * source indexes as `(cursor - i + size) % size`. */
  lemma BarAt(r: Ring, i: int)
    requires r.Valid() && 0 <= i < |r.slots|
    ensures 0 <= Behind(r.cursor, i, |r.slots|) < |r.slots|
    ensures Bars(Timeline(r))[i] == Bar(r.slots[Behind(r.cursor, i, |r.slots|)])
  {
  }
}
