# hstat TimeWindow in Dafny

This project models `TimeWindow` from the `hstat` package. It is a rolling
counter over time: a fixed number of numeric buckets sits in a circular
array, and each bucket covers one period of length `duration`. A cursor marks
the bucket for the current period. Every writing operation first *rotates*
the window. Rotation counts the whole periods elapsed since the last rotation
and then does one of three things:

- with no whole period elapsed, it does nothing;
- with a whole window or more elapsed, it clears every bucket and resets the cursor;
- otherwise it walks the cursor forward and zeroes each bucket it enters.

On top of this the window offers writes (`Append`, `Inc`, `Dec`, `Reset`),
aggregates (`Sum`, `Count`, `Avg`), the latest value, a newest-first listing
(`GetData`) and a bar-chart histogram (`PrintHistogram`).

Files and modules:

- `arith.dfy` (`Arith`): facts about `%` and `/` that the index arithmetic needs.
- `clock.dfy` (`Clock`): time in integer nanoseconds. It holds Go's truncating
  division of durations (`Quo`), the elapsed-period count `Passed`, and the
  rotation reference time `RotatedTime`.
- `buckets.dfy` (`Buckets`): the buckets and cursor as a `Ring` value.
  `Walk` is the step-by-step clearing loop the source runs. `Advance` is its
  closed form, and `Rotated` is the three-way rotation. `Timeline` is the
  newest-first view. `SumOf` and `CountNonZero` are the aggregates.
- `histogram.dfy` (`Histogram`): the chart as a grid (`Plot`). It has bar rows
  of filled or blank cells, a value row and a time-label row.
- `timewindow.dfy` (`TimeWindows`): the class `TimeWindow`. It has an
  `array<real>` of buckets and the fields `size`, `duration`, `lastTime`,
  `cursor` and `lastUpdate`. Each operation is a method proved against the
  functions above.
- `scenarios.dfy` (`Scenarios`): the situations exercised by
  `timewindow_test.go`, proved from the methods' contracts.

The wall clock is a parameter. Every operation that reads `time.Now()` takes
`now` instead. `GetData` reads the clock twice: once to rotate and once to
time the entries. It therefore takes two instants, `rotateAt` and `now`. The
zero `time.Time` of a window that has never seen `Inc` or `Dec` is modelled
as `0`.

Where the tests or the doc comments disagree with the code, the model
follows the code:

- `Sum`, `Count`, `Avg`, `GetLatestValue` and `LastUpdateTime` do not rotate
  (timewindow.go:73-108, 246-250, 351-356). They read the buckets as last
  rotated.
- `Append` overwrites the current bucket (timewindow.go:45). Two appends in
  one period therefore give `Count` 1, `Sum` 2 and `Avg` 2, not the 2, 3 and
  1.5 that timewindow_test.go:12-26 expects (`Scenarios.AppendTwiceInOnePeriod`).
- `GetData` wraps exactly one value per entry (timewindow.go:339), not the
  two that timewindow_test.go:71 expects (`Scenarios.GetDataShape`).
- The doc comment of `NewTimeWindow` (timewindow.go:26) says a chart height
  of 0 or less falls back to 20. `PrintHistogram` uses the given height as
  is (timewindow.go:192, 198), so such a height with positive data draws no
  bar rows (`Histogram.Rows`).
- On a decoding failure `Scan` assigns the 5-minute fallback duration to a
  local record (timewindow.go:304). That write has no effect, so the window
  is left exactly as it was.

## Model

| member | source | states |
|---|---|---|
| `Clock.PassedAtLeast` | timewindow.go:50-56 | At least `k` periods have passed exactly when `now - lastTime >= k * duration`. So rotation acts only after one full period and clears only after a full window; a negative elapsed time (clock skew) never rotates. |
| `Clock.RotatedTime` | timewindow.go:49-70 | After rotating, the reference time is either unchanged or `now`. It becomes `now` once a full period has elapsed, which drops the remainder, and stays unchanged before that. |
| `Buckets.Rotated` | timewindow.go:50-67 | All three branches of rotation keep the cursor inside `[0, size)` and keep the number of buckets. |
| `Buckets.Walk` | timewindow.go:63-66 | Any number of passes of the clearing loop keeps the cursor in range and the bucket count unchanged. |
| `Buckets.WalkIsAdvance` | timewindow.go:62-66 | Stepping the cursor `passed` times and zeroing each bucket it enters equals the closed form `Advance`, for `passed < size`. |
| `Buckets.AdvanceClearsExactly` | timewindow.go:62-66 | A partial rotation by `p` puts the cursor at `(cursor + p) % size`. It zeroes the slots `cursor+1 .. cursor+p` (mod size) and leaves every other slot unchanged. |
| `Buckets.AdvanceShiftsTimeline` | timewindow.go:62-66 | In the newest-first view, a partial rotation by `p` adds `p` empty periods at the front and drops the `p` oldest values. |
| `Buckets.TimelineCoversSlots` | timewindow.go:334-339 | The newest-first view has one entry per bucket. Its head is the current bucket, and bucket `j` sits at its age in periods. |
| `Buckets.SumOfUpdate` | timewindow.go:77-81 | Overwriting one bucket changes the sum by the new value minus the old one. |
| `Buckets.CountNonZeroUpdate` | timewindow.go:89-95 | Overwriting one bucket changes the non-zero count by at most one, depending on whether the old and new values are zero. |
| `Buckets.CountZeroIff` | timewindow.go:89-95 | The non-zero count is 0 exactly when every bucket is 0, and then the sum is 0 too. |
| `Buckets.ClearedIsEmpty` | timewindow.go:56-60 | A cleared window sums to 0 and has no non-zero bucket. |
| `Histogram.PeakIsMaximum` | timewindow.go:175-189 | The running maximum bounds every drawn value. When positive, it equals one of them. |
| `Histogram.NoDataIff` | timewindow.go:192-195 | The chart is "No data available" exactly when no value in the newest-first view is positive. |
| `Histogram.CellRule` | timewindow.go:198-208 | The chart has `max(height, 0)` rows. Cell `(r, i)` is filled exactly when the `i`-th newest value, counted as 0 unless positive, is at least `peak * (height - r) / height`. |
| `Histogram.BarsAreContiguous` | timewindow.go:198-208 | A filled cell has filled cells in every row below it. |
| `Histogram.PeakColumnIsFull` | timewindow.go:198-208 | A column holding the peak value is filled in every row. In the top row, exactly the columns holding the peak are filled. |
| `Histogram.NonPositiveColumnIsBlank` | timewindow.go:183-223 | A column whose bucket is not positive is blank in every row and shows no value. |
| `Histogram.LabelPositions` | timewindow.go:227-239 | The newest column is labelled 0. With at most 20 buckets every column is labelled `-i * seconds`. With more, exactly the columns at multiples of `size / 10` are labelled, with `-i * seconds`, so no two neighbouring columns are both labelled. |
| `TimeWindows.NoDataIffNoPositiveBucket` | timewindow.go:178-195 | The histogram says "no data" exactly when no bucket in any slot of the ring is positive. |
| `TimeWindows.BarAt` | timewindow.go:178-185 | Position `i` of the drawn view is the bucket at `(cursor - i + size) % size`, counted as 0 unless positive. |
| `TimeWindows.TimeWindow.constructor` | timewindow.go:27-34 | A new window has `size` zero buckets, cursor 0, reference time `now` and the zero last-update time. |
| `TimeWindows.TimeWindow.Rotate` | timewindow.go:49-70 | The buckets and cursor become `Rotated` of the old ones for the elapsed periods. The reference time becomes `RotatedTime`. Everything else is unchanged and the invariant is kept. |
| `TimeWindows.TimeWindow.Append` | timewindow.go:37-46 | After rotating, the current bucket holds `value` and no other bucket changes. The last-update time is untouched. |
| `TimeWindows.TimeWindow.Inc` | timewindow.go:111-120 | After rotating, `delta` is added to the current bucket only, and the last-update time becomes `now`. |
| `TimeWindows.TimeWindow.Dec` | timewindow.go:123-132 | After rotating, `delta` is subtracted from the current bucket only, and the last-update time becomes `now`. |
| `TimeWindows.TimeWindow.Reset` | timewindow.go:135-143 | Same effect as `Append`: after rotating, the current bucket holds `value` and the last-update time is untouched. |
| `TimeWindows.TimeWindow.Sum` | timewindow.go:73-82 | Returns the sum of all buckets without rotating. |
| `TimeWindows.TimeWindow.Count` | timewindow.go:85-96 | Returns the number of non-zero buckets, between 0 and `size`, without rotating. |
| `TimeWindows.TimeWindow.Avg` | timewindow.go:99-108 | Returns 0 when every bucket is 0. Otherwise the result times the non-zero count equals the sum. |
| `TimeWindows.TimeWindow.GetLatestValue` | timewindow.go:351-356 | Always reports found. The value is the newest entry of the newest-first view, which is the current bucket. |
| `TimeWindows.TimeWindow.LastUpdateTime` | timewindow.go:246-250 | Returns the time of the last `Inc` or `Dec`, or 0 if there was none. |
| `TimeWindows.TimeWindow.Entries` | timewindow.go:331-347 | Returns exactly `size` entries. Entry `i` holds the single value `i` periods old, timed `now - i * duration`. |
| `TimeWindows.TimeWindow.GetData` | timewindow.go:325-348 | Rotates at the first clock reading, then returns the entries of the rotated window, timed from the second reading. |
| `TimeWindows.TimeWindow.Collect` | timewindow.go:172-190 | Returns the newest-first bucket values with non-positive ones as 0, the times `-i * seconds`, and their running maximum. |
| `TimeWindows.TimeWindow.Render` | timewindow.go:165-242 | Returns exactly the grid `Plot` of the newest-first view, for the given or default height. |
| `TimeWindows.TimeWindow.PrintHistogram` | timewindow.go:158-243 | Rotates at `now`, then returns the `Plot` of the rotated window. |
| `TimeWindows.BarRows` | timewindow.go:198-208 | Returns one row per level from `height` down to 1, each the threshold row of that level. |
| `TimeWindows.ValueRow` | timewindow.go:217-223 | Each column shows its value when positive and is blank otherwise. |
| `TimeWindows.LabelRow` | timewindow.go:227-239 | A column gets its relative time exactly when its index is a multiple of the label interval. |
| `TimeWindows.TimeWindow.Value` | timewindow.go:253-278 | The record carries every field of the window and is well formed. |
| `TimeWindows.TimeWindow.Scan` | timewindow.go:281-316 | Nil and undecodable bytes succeed and change nothing. A non-byte value fails and changes nothing. A decoded record replaces every field. |
| `Scenarios.AppendTwiceInOnePeriod` | timewindow_test.go:8-27 | Two appends within one period leave one non-zero bucket, sum 2 and average 2. |
| `Scenarios.IncTwiceInOnePeriod` | timewindow_test.go:29-37 | `Inc(1)` then `Inc(2)` within one period give latest value 3. |
| `Scenarios.IncThenDecInOnePeriod` | timewindow_test.go:39-47 | `Inc(5)` then `Dec(2)` within one period give latest value 3. |
| `Scenarios.IncThenResetInOnePeriod` | timewindow_test.go:49-57 | `Inc(5)` then `Reset(2)` give latest value 2. The last-update time stays at the `Inc`. |
| `Scenarios.GetDataShape` | timewindow_test.go:59-78 | A three-bucket window yields three entries of one value each. The newest is timed no earlier than a start instant read after construction and before the writes. |
| `Scenarios.RotationAfterSleep` | timewindow_test.go:80-91 | Whenever the first write comes after construction, two or more seconds later on a two-bucket window of one-second buckets, only the new value remains: the sum is 2. |
| `Scenarios.OnePeriodLater` | timewindow.go:62-69 | One period after writing 1 into a fresh window, the cursor moves to slot 1 and the 1 is kept. After writing 2, the newest-first view starts 2, 1. |
| `Scenarios.WriteTwoPeriods` | timewindow.go:37-69 | Writing 1 and, one period later, 2 into a fresh five-bucket window leaves 1 in slot 0 and 2 in slot 1, with the cursor on slot 1. |
| `Scenarios.PartialRotationKeepsSum` | timewindow.go:62-82 | A value written one period earlier is kept, so the sum is 3. |
| `Scenarios.PartialRotationListsBoth` | timewindow.go:325-348 | In that window `GetData` lists 2 first and then 1. |
| `Scenarios.ResetIsLatest` | timewindow.go:135-143 | On any window and at any time, `Reset(v)` makes the latest value `v`. |
| `Scenarios.FreshWindowHasNoData` | timewindow.go:192-195 | A fresh window renders "no data" whenever it is drawn. |
| `Scenarios.ScanRestoresValue` | timewindow.go:253-316 | Scanning a record produced by `Value` restores every field of the source window. |

## Left out

- Locking: the `sync.RWMutex` and its lock discipline are not modelled. This includes `Avg` taking the read lock again through `Count` and `Sum`. The model is sequential.
- Wall clock: `time.Now()` becomes a `now` parameter, in integer nanoseconds. The int64 saturation of `time.Time.Sub` and overflow of timestamps are not modelled.
- float64: bucket values are `real`, so rounding, NaN and infinities are not modelled. `int(duration.Seconds())` is `duration / 1_000_000_000` for a positive duration.
- Histogram text: the header line, the glyphs, the separator line, the trailing `s`, and the `%-2.0f` and `%-2d` formats are not modelled. The model gives the filled or blank grid, which columns show a value, and which show a time label.
- JSON: `Value` returns the record of fields, and `Scan` takes the decoder's outcome as `Bytes(None)` or `Bytes(Some(record))`. The JSON text and `json.Marshal` failures (NaN) are not modelled.
- TimeWindows.TimeWindow.Scan: requires a decoded record to have `size > 0`, `duration > 0`, `size` buckets and the cursor in range. The source copies the fields without checking, and a bad record would make later operations divide by zero or index out of range.
- TimeWindows.TimeWindow.constructor: requires `size > 0` and `duration > 0`. `NewTimeWindow` does not check; a zero duration divides by zero at timewindow.go:50, and a zero size panics on the index at timewindow.go:45.
- `Value` on a nil receiver (timewindow.go:254-256) has no counterpart, because a Dafny method always has a receiver.
- The demo program example/main.go is not part of this model. It is a driver built from goroutines, tickers, signals, random numbers and terminal output.
