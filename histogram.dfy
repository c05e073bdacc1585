// The grid that PrintHistogram draws (timewindow.go:158-243), as a value:
// which cells of the bar chart are filled, which columns show a value and
// which show a time label. Glyphs and number formatting are not modelled.
module Histogram {
  import opened Options
  import opened Arith

  /** "No data available" or the chart: bar rows from top to bottom, one
    * cell per bucket (newest first), then the value row and the label row. */
  datatype Histogram =
    | NoData
    | Chart(bars: seq<seq<bool>>, values: seq<Option<real>>, labels: seq<Option<int>>)

  /** Chart height used when no option is given (timewindow.go:151-155). */
  const DefaultHeight: int := 20

  /** Number of bar rows the loop `for h := height; h > 0; h--` emits. */
  function Rows(height: int): nat
  {
    if height > 0 then height else 0
  }

  /** Spacing of time labels (timewindow.go:227-230). */
  function Interval(n: int): int
  {
    if n > 20 then n / 10 else 1
  }

  /** Only strictly positive values are drawn; the rest count as 0. */
  function Bar(v: real): real
  {
    if v > 0.0 then v else 0.0
  }

  function Bars(timeline: seq<real>): seq<real>
  {
    seq(|timeline|, i requires 0 <= i < |timeline| => Bar(timeline[i]))
  }

  /** The running maximum of the collection loop, starting from 0. */
  function Peak(s: seq<real>): (m: real)
    ensures m >= 0.0
  {
    if s == [] then 0.0
    else
      var m := Peak(s[..|s| - 1]);
      if s[|s| - 1] > m then s[|s| - 1] else m
  }

  /** The fill threshold of the row at level `h` of `height`. */
  function Threshold(peak: real, h: int, height: int): real
    requires height > 0
  {
    peak * (h as real) / (height as real)
  }

  /** One bar row: the cells at level `h` of `height` are filled where the
    * value reaches that level's threshold (timewindow.go:198-208). */
  function Row(values: seq<real>, peak: real, h: int, height: int): seq<bool>
    requires height > 0
  {
    seq(|values|, i requires 0 <= i < |values| => values[i] >= Threshold(peak, h, height))
  }

  /** The time label of column `i` of `n`, if it has one (timewindow.go:233-239). */
  function Label(i: int, n: int, secs: int): Option<int>
    requires n > 0
  {
    if i % Interval(n) == 0 then Some(-i * secs) else None
  }

  /** The chart for a newest-first `timeline` of bucket values, `height` rows
    * and buckets of `secs` whole seconds (timewindow.go:172-240). Row `r`
    * from the top is level `height - r`. */
  function Plot(timeline: seq<real>, height: int, secs: int): (h: Histogram)
    ensures h.Chart? ==>
      && |h.bars| == Rows(height)
      && (forall r :: 0 <= r < |h.bars| ==> |h.bars[r]| == |timeline|)
      && |h.values| == |timeline| && |h.labels| == |timeline| > 0
  {
    var n, values := |timeline|, Bars(timeline);
    var peak := Peak(values);
    if peak == 0.0 || n == 0 then NoData
    else
      Chart(seq(Rows(height), r requires 0 <= r < Rows(height) => Row(values, peak, height - r, height)),
            seq(n, i requires 0 <= i < n => if values[i] > 0.0 then Some(values[i]) else None),
            seq(n, i requires 0 <= i < n => Label(i, n, secs)))
  }

  /** One more step of the running maximum. */
  lemma PeakStep(s: seq<real>, i: int)
    requires 0 <= i < |s|
    ensures Peak(s[..i + 1]) == if s[i] > Peak(s[..i]) then s[i] else Peak(s[..i])
  {
    assert s[..i + 1][..i] == s[..i];
  }

  /** The peak bounds every value and, when positive, is one of them. */
  lemma {:induction false} PeakIsMaximum(s: seq<real>)
    ensures forall i :: 0 <= i < |s| ==> s[i] <= Peak(s)
    ensures Peak(s) > 0.0 ==> exists i :: 0 <= i < |s| && s[i] == Peak(s)
  {
    if s != [] {
      var m := |s| - 1;
      PeakIsMaximum(s[..m]);
      assert forall i :: 0 <= i < m ==> s[..m][i] == s[i];
      if Peak(s[..m]) > 0.0 && s[m] <= Peak(s[..m]) {
        var i :| 0 <= i < m && s[..m][i] == Peak(s[..m]);
        assert s[i] == Peak(s);
      }
    }
  }

  /** "No data available" is returned exactly when no bucket is positive. */
  lemma NoDataIff(timeline: seq<real>, height: int, secs: int)
    ensures Plot(timeline, height, secs).NoData? <==>
            forall i :: 0 <= i < |timeline| ==> timeline[i] <= 0.0
  {
    var values := Bars(timeline);
    PeakIsMaximum(values);
    if Peak(values) > 0.0 {
      var i :| 0 <= i < |values| && values[i] == Peak(values);
      assert timeline[i] > 0.0;
    } else {
      forall i | 0 <= i < |timeline|
        ensures timeline[i] <= 0.0
      {
        assert values[i] <= 0.0;
      }
    }
  }

  /** The chart has one bar row per level and one cell per bucket, and cell
    * `(r, i)` is filled exactly when the `i`-th newest value, counted as 0
    * unless positive, reaches the threshold `peak * (height - r) / height`. */
  lemma CellRule(timeline: seq<real>, height: int, secs: int, r: int, i: int)
    requires Plot(timeline, height, secs).Chart?
    requires 0 <= r < Rows(height) && 0 <= i < |timeline|
    ensures |Plot(timeline, height, secs).bars| == Rows(height)
    ensures Plot(timeline, height, secs).bars[r][i] <==>
            Bar(timeline[i]) >= Threshold(Peak(Bars(timeline)), height - r, height)
  {
    var values := Bars(timeline);
    assert Plot(timeline, height, secs).bars[r] == Row(values, Peak(values), height - r, height);
  }

  lemma ThresholdBounds(peak: real, h: int, height: int)
    requires peak > 0.0 && 0 < h <= height
    ensures 0.0 < Threshold(peak, h, height) <= peak
    ensures h == height ==> Threshold(peak, h, height) == peak
  {
    var x, y := peak * (h as real), peak * (height as real);
    assert 0.0 < x <= y;
    assert y / (height as real) == peak;
  }

  lemma ThresholdMonotone(peak: real, h1: int, h2: int, height: int)
    requires peak >= 0.0 && height > 0 && h1 <= h2
    ensures Threshold(peak, h1, height) <= Threshold(peak, h2, height)
  {
    assert peak * (h1 as real) <= peak * (h2 as real);
  }

  /** Bars grow from the bottom: a filled cell has filled cells below it. */
  lemma BarsAreContiguous(timeline: seq<real>, height: int, secs: int, i: int, r1: int, r2: int)
    requires Plot(timeline, height, secs).Chart?
    requires 0 <= i < |timeline| && 0 <= r1 <= r2 < Rows(height)
    ensures Plot(timeline, height, secs).bars[r1][i] ==> Plot(timeline, height, secs).bars[r2][i]
  {
    CellRule(timeline, height, secs, r1, i);
    CellRule(timeline, height, secs, r2, i);
    ThresholdMonotone(Peak(Bars(timeline)), height - r2, height - r1, height);
  }

  /** The column of the largest value is filled in every row, and in the top
    * row only the columns holding the largest value are filled. */
  lemma PeakColumnIsFull(timeline: seq<real>, height: int, secs: int, i: int)
    requires Plot(timeline, height, secs).Chart?
    requires 0 <= i < |timeline|
    ensures var c, peak := Plot(timeline, height, secs), Peak(Bars(timeline));
      && (Bar(timeline[i]) == peak ==> forall r :: 0 <= r < |c.bars| ==> c.bars[r][i])
      && (height > 0 ==> (c.bars[0][i] <==> Bar(timeline[i]) == peak))
  {
    var c, peak := Plot(timeline, height, secs), Peak(Bars(timeline));
    PeakIsMaximum(Bars(timeline));
    assert Bars(timeline)[i] == Bar(timeline[i]);
    if Bar(timeline[i]) == peak {
      forall r | 0 <= r < |c.bars|
        ensures c.bars[r][i]
      {
        CellRule(timeline, height, secs, r, i);
        ThresholdBounds(peak, height - r, height);
      }
    }
    if height > 0 {
      CellRule(timeline, height, secs, 0, i);
      ThresholdBounds(peak, height, height);
    }
  }

  /** A column whose bucket is not positive is blank in every row and shows no value. */
  lemma NonPositiveColumnIsBlank(timeline: seq<real>, height: int, secs: int, i: int)
    requires Plot(timeline, height, secs).Chart?
    requires 0 <= i < |timeline| && timeline[i] <= 0.0
    ensures var c := Plot(timeline, height, secs);
      && (forall r :: 0 <= r < |c.bars| ==> !c.bars[r][i])
      && c.values[i] == None
  {
    var c, peak := Plot(timeline, height, secs), Peak(Bars(timeline));
    forall r | 0 <= r < |c.bars|
      ensures !c.bars[r][i]
    {
      CellRule(timeline, height, secs, r, i);
      ThresholdBounds(peak, height - r, height);
    }
  }

  /** Every column is labelled when there are at most 20 buckets; with more,
    * exactly the columns at multiples of `size / 10` are labelled, so no two
    * neighbours are both labelled.
    * The newest column is always labelled with time 0. */
  lemma LabelPositions(timeline: seq<real>, height: int, secs: int)
    requires Plot(timeline, height, secs).Chart?
    ensures var c, n := Plot(timeline, height, secs), |timeline|;
      && c.labels[0] == Some(0)
      && (n <= 20 ==> forall i :: 0 <= i < n ==> c.labels[i] == Some(-i * secs))
      && (n > 20 ==> forall i :: 0 <= i < n ==>
            c.labels[i] == if i % (n / 10) == 0 then Some(-i * secs) else None)
      && (n > 20 ==> forall i :: 0 <= i < n - 1 ==> c.labels[i].None? || c.labels[i + 1].None?)
  {
    var c, n := Plot(timeline, height, secs), |timeline|;
    assert c.labels[0] == Label(0, n, secs);
    if n > 20 {
      forall i | 0 <= i < n
        ensures c.labels[i] == if i % (n / 10) == 0 then Some(-i * secs) else None
      {
        assert c.labels[i] == Label(i, n, secs);
      }
      forall i | 0 <= i < n - 1
        ensures c.labels[i].None? || c.labels[i + 1].None?
      {
        assert c.labels[i] == Label(i, n, secs) && c.labels[i + 1] == Label(i + 1, n, secs);
        if i % (n / 10) == 0 {
          NoAdjacentMultiples(i, n / 10);
        }
      }
    } else {
      forall i | 0 <= i < n
        ensures c.labels[i] == Some(-i * secs)
      {
        assert c.labels[i] == Label(i, n, secs);
      }
    }
  }
}
