// The circular bucket array of a TimeWindow as a value: the bucket values in
// index order and the index of the current bucket. The class in
// timewindow.dfy keeps an array and a cursor; this module says what they mean.
module Buckets {
  import opened Arith

  /** Bucket values in index order, and the index of the bucket for "now". */
  datatype Ring = Ring(slots: seq<real>, cursor: int)
  {
    predicate Valid() { 0 <= cursor < |slots| }
  }

  function Zeros(n: nat): seq<real> { seq(n, _ => 0.0) }

  /** The slot `k` steps forward from `c`: the source's `(c + k) % size`. */
  function Ahead(c: int, k: int, n: int): int
    requires n > 0
  {
    (c + k) % n
  }

  /** The slot `i` steps back from `c`: the source's `(c - i + size) % size`. */
  function Behind(c: int, i: int, n: int): int
    requires n > 0
  {
    (c - i + n) % n
  }

  /** How many forward steps lead from slot `c` to slot `j`. */
  function Distance(c: int, j: int, n: int): int
  {
    if c <= j then j - c else j - c + n
  }

  lemma DistanceAhead(c: int, k: int, n: int)
    requires 0 <= c < n && 0 <= k < n
    ensures 0 <= Ahead(c, k, n) < n && Distance(c, Ahead(c, k, n), n) == k
  {
    ModWrap(c + k, n);
  }

  lemma AheadDistance(c: int, j: int, n: int)
    requires 0 <= c < n && 0 <= j < n
    ensures 0 <= Distance(c, j, n) < n && Ahead(c, Distance(c, j, n), n) == j
  {
    ModWrap(c + Distance(c, j, n), n);
  }

  lemma BehindDistance(c: int, i: int, n: int)
    requires 0 <= c < n && 0 <= i < n
    ensures Behind(c, i, n) == if i <= c then c - i else c - i + n
  {
    ModWrap(c - i + n, n);
  }

  // ---------------------------------------------------------------------
  // Rotation (timewindow.go:49-70)

  /** One pass of the clearing loop at timewindow.go:63-66: step the cursor
    * forward, wrapping, and zero the bucket it enters. */
  function Step(r: Ring): (s: Ring)
    requires r.Valid()
    ensures s.Valid() && |s.slots| == |r.slots|
  {
    var c := Ahead(r.cursor, 1, |r.slots|);
    Ring(r.slots[c := 0.0], c)
  }

  /** `k` passes of the clearing loop, in the order the source runs them. */
  function Walk(r: Ring, k: nat): (w: Ring)
    requires r.Valid()
    ensures w.Valid() && |w.slots| == |r.slots|
  {
    if k == 0 then r else Step(Walk(r, k - 1))
  }

  /** The effect of advancing `p` periods at once: the cursor lands `p` slots
    * ahead and exactly the slots it passes into are zeroed. */
  function Advance(r: Ring, p: int): Ring
    requires r.Valid()
  {
    var n := |r.slots|;
    Ring(seq(n, j requires 0 <= j < n =>
               if 1 <= Distance(r.cursor, j, n) <= p then 0.0 else r.slots[j]),
         Ahead(r.cursor, p, n))
  }

  /** The fully stale window: every bucket zero and the cursor back at 0. */
  function Cleared(n: nat): Ring
  {
    Ring(Zeros(n), 0)
  }

  /** The three-way rotation of timewindow.go:50-67 for `passed` elapsed
    * periods; it keeps the cursor in range and the bucket count. */
  function Rotated(r: Ring, passed: int): (q: Ring)
    requires r.Valid()
    ensures q.Valid() && |q.slots| == |r.slots|
  {
    if passed <= 0 then r
    else if passed >= |r.slots| then Cleared(|r.slots|)
    else Advance(r, passed)
  }

  lemma AdvanceStep(r: Ring, k: nat)
    requires r.Valid() && k + 1 < |r.slots|
    ensures Advance(r, k).Valid() && Step(Advance(r, k)) == Advance(r, k + 1)
  {
    var n, c := |r.slots|, r.cursor;
    var a, b := Advance(r, k), Advance(r, k + 1);
    DistanceAhead(c, k, n);
    DistanceAhead(c, k + 1, n);
    var d := Ahead(a.cursor, 1, n);
    ModWrap(c + k, n);
    ModWrap(a.cursor + 1, n);
    ModWrap(c + k + 1, n);
    assert d == b.cursor;
    forall j | 0 <= j < n
      ensures a.slots[d := 0.0][j] == b.slots[j]
    {
      AheadDistance(c, j, n);
    }
  }

  /** The source's loop that steps `passed` times yields the closed form. */
  lemma {:induction false} WalkIsAdvance(r: Ring, k: nat)
    requires r.Valid() && k < |r.slots|
    ensures Walk(r, k) == Advance(r, k)
  {
    var n := |r.slots|;
    if k == 0 {
      ModWrap(r.cursor, n);
      assert Advance(r, 0).slots == r.slots;
    } else {
      WalkIsAdvance(r, k - 1);
      AdvanceStep(r, k - 1);
    }
  }

  /** A partial rotation by `p` (0 < p < size) moves the cursor to
    * `(cursor + p) % size`, zeroes the `p` slots `cursor+1 .. cursor+p`
    * (mod size) and leaves every other slot as it was. */
  lemma AdvanceClearsExactly(r: Ring, p: int)
    requires r.Valid() && 0 < p < |r.slots|
    ensures var n, a := |r.slots|, Advance(r, p);
      && a.cursor == (r.cursor + p) % n
      && |a.slots| == n
      && (forall k :: 1 <= k <= p ==> a.slots[Ahead(r.cursor, k, n)] == 0.0)
      && (forall j :: 0 <= j < n && (forall k :: 1 <= k <= p ==> Ahead(r.cursor, k, n) != j)
                      ==> a.slots[j] == r.slots[j])
  {
    var n, a := |r.slots|, Advance(r, p);
    forall k | 1 <= k <= p
      ensures a.slots[Ahead(r.cursor, k, n)] == 0.0
    {
      DistanceAhead(r.cursor, k, n);
    }
    forall j | 0 <= j < n && (forall k :: 1 <= k <= p ==> Ahead(r.cursor, k, n) != j)
      ensures a.slots[j] == r.slots[j]
    {
      AheadDistance(r.cursor, j, n);
    }
  }

  // ---------------------------------------------------------------------
  // The newest-first view (timewindow.go:178-190, 334-345)

  /** Bucket values from the current one back to the oldest. */
  function Timeline(r: Ring): (t: seq<real>)
    requires r.Valid()
  {
    var n := |r.slots|;
    seq(n, i requires 0 <= i < n => r.slots[Behind(r.cursor, i, n)])
  }

  /** Every bucket appears in the newest-first view, at the position given
    * by its age in periods, and the head of the view is the current bucket. */
  lemma TimelineCoversSlots(r: Ring)
    requires r.Valid()
    ensures |Timeline(r)| == |r.slots| && Timeline(r)[0] == r.slots[r.cursor]
    ensures forall j :: 0 <= j < |r.slots| ==>
              0 <= Distance(j, r.cursor, |r.slots|) < |r.slots| &&
              Timeline(r)[Distance(j, r.cursor, |r.slots|)] == r.slots[j]
  {
    var n, c := |r.slots|, r.cursor;
    BehindDistance(c, 0, n);
    forall j | 0 <= j < n
      ensures 0 <= Distance(j, c, n) < n && Timeline(r)[Distance(j, c, n)] == r.slots[j]
    {
      BehindDistance(c, Distance(j, c, n), n);
    }
  }

  /** A partial rotation by `p` shifts the newest-first view back by `p`
    * positions: `p` empty periods enter at the front and the `p` oldest
    * values drop off the end. */
  lemma AdvanceShiftsTimeline(r: Ring, p: int)
    requires r.Valid() && 0 < p < |r.slots|
    ensures Advance(r, p).Valid()
    ensures Timeline(Advance(r, p)) == Zeros(p) + Timeline(r)[..|r.slots| - p]
  {
    var n, c, a := |r.slots|, r.cursor, Advance(r, p);
    DistanceAhead(c, p, n);
    var lhs, rhs := Timeline(a), Zeros(p) + Timeline(r)[..n - p];
    forall i | 0 <= i < n
      ensures lhs[i] == rhs[i]
    {
      BehindDistance(a.cursor, i, n);
      ModWrap(c + p, n);
      var j := Behind(a.cursor, i, n);
      if i < p {
        assert Distance(c, j, n) == p - i;
      } else {
        BehindDistance(c, i - p, n);
        assert j == Behind(c, i - p, n);
        assert Distance(c, j, n) == 0 || Distance(c, j, n) == n - (i - p);
      }
    }
  }

  // ---------------------------------------------------------------------
  // Aggregates (timewindow.go:73-108)

  /** The sum of all values, accumulated left to right. */
  function SumOf(s: seq<real>): real
  {
    if s == [] then 0.0 else SumOf(s[..|s| - 1]) + s[|s| - 1]
  }

  /** The number of values different from zero. */
  function CountNonZero(s: seq<real>): (k: int)
    ensures 0 <= k <= |s|
  {
    if s == [] then 0
    else CountNonZero(s[..|s| - 1]) + (if s[|s| - 1] != 0.0 then 1 else 0)
  }

  /** Overwriting one bucket changes the sum by the difference. */
  lemma {:induction false} SumOfUpdate(s: seq<real>, i: int, v: real)
    requires 0 <= i < |s|
    ensures SumOf(s[i := v]) == SumOf(s) - s[i] + v
  {
    var m := |s| - 1;
    if i == m {
      assert s[i := v][..m] == s[..m];
    } else {
      assert s[i := v][..m] == s[..m][i := v];
      SumOfUpdate(s[..m], i, v);
    }
  }

  /** Overwriting one bucket changes the non-zero count by at most one. */
  lemma {:induction false} CountNonZeroUpdate(s: seq<real>, i: int, v: real)
    requires 0 <= i < |s|
    ensures CountNonZero(s[i := v]) ==
            CountNonZero(s) - (if s[i] != 0.0 then 1 else 0) + (if v != 0.0 then 1 else 0)
  {
    var m := |s| - 1;
    if i == m {
      assert s[i := v][..m] == s[..m];
    } else {
      assert s[i := v][..m] == s[..m][i := v];
      CountNonZeroUpdate(s[..m], i, v);
    }
  }

  /** The count is zero exactly when every bucket is zero, and then so is the sum. */
  lemma {:induction false} CountZeroIff(s: seq<real>)
    ensures CountNonZero(s) == 0 <==> forall i :: 0 <= i < |s| ==> s[i] == 0.0
    ensures CountNonZero(s) == 0 ==> SumOf(s) == 0.0
  {
    if s != [] {
      var m := |s| - 1;
      CountZeroIff(s[..m]);
      assert forall i :: 0 <= i < m ==> s[..m][i] == s[i];
    }
  }

  /** A cleared window sums to zero and counts no bucket. */
  lemma ClearedIsEmpty(n: nat)
    ensures SumOf(Zeros(n)) == 0.0 && CountNonZero(Zeros(n)) == 0
  {
    CountZeroIff(Zeros(n));
  }
}
