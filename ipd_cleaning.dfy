/** Cleaning of an IPD time series: recomputing the IPD column from sorted
    timestamps, dropping IPD outliers by z-score, shifting timestamps to
    start at zero, and adding a jitter vector with a floor of 1e-9. */
module IpdCleaning {
  import opened Common

  const DefaultZThresh := 5.0
  const JitterFloor := 0.000000001

  /** One row of the series: its timestamp and its IPD. */
  datatype Row = Row(ts: real, ipd: real)

  function Ts(r: Row): real { r.ts }

  function Ipds(rows: seq<Row>): (s: seq<real>)
    ensures |s| == |rows|
  {
    seq(|rows|, i requires 0 <= i < |rows| => rows[i].ipd)
  }

  function Times(rows: seq<Row>): (s: seq<real>)
    ensures |s| == |rows|
  {
    seq(|rows|, i requires 0 <= i < |rows| => rows[i].ts)
  }

  // ----- compute_ipd -----

  /** The rows sorted by timestamp, with the IPD column recomputed: 0 for
      the first row, the gap to the previous row after that. */
  function ComputeIpd(rows: seq<Row>): (r: seq<Row>)
    ensures |r| == |rows|
  {
    WithIpdColumn(SortBy(rows, Ts))
  }

  function WithIpdColumn(sorted: seq<Row>): (r: seq<Row>)
    ensures |r| == |sorted|
  {
    var ipd := IpdColumn(Keys(sorted, Ts));
    seq(|sorted|, i requires 0 <= i < |sorted| => Row(sorted[i].ts, ipd[i]))
  }

  predicate IpdShaped(r: seq<Row>)
  {
    && NonDecreasing(Times(r))
    && (|r| > 0 ==> r[0].ipd == 0.0)
    && (forall i :: 0 < i < |r| ==> r[i].ipd == r[i].ts - r[i - 1].ts)
    && NonNegative(Ipds(r))
  }

  lemma WithIpdColumnShape(sorted: seq<Row>)
    requires SortedBy(sorted, Ts)
    ensures IpdShaped(WithIpdColumn(sorted))
    ensures Times(WithIpdColumn(sorted)) == Keys(sorted, Ts)
  {
    var ts := Keys(sorted, Ts);
    var r := WithIpdColumn(sorted);
    assert Times(r) == ts;
    IpdColumnShape(ts);
    assert NonDecreasing(ts);
    assert Ipds(r) == IpdColumn(ts);
  }

  /** compute_ipd keeps the length, orders the timestamps, starts the IPD
      column at 0 and makes every later IPD the (non-negative) gap to the
      row before; the timestamps are those of the input. */
  lemma ComputeIpdShape(rows: seq<Row>)
    ensures IpdShaped(ComputeIpd(rows))
    ensures multiset(Times(ComputeIpd(rows))) == multiset(Times(rows))
  {
    var sorted := SortBy(rows, Ts);
    WithIpdColumnShape(sorted);
    KeysPermutation(sorted, rows, Ts);
    assert Keys(rows, Ts) == Times(rows);
  }

  // ----- remove_outlier_ipds -----

  /** The spread the z-scores divide by: the standard deviation, or 1.0
      when it is not positive. */
  function Spread(arr: seq<real>, lib: Numerics): (sd: real)
    requires |arr| > 0
    ensures sd > 0.0
  {
    if Std(arr, lib) > 0.0 then Std(arr, lib) else 1.0
  }

  predicate Keep(x: real, mean: real, sd: real, zThresh: real)
    requires sd > 0.0
  {
    Abs((x - mean) / sd) < zThresh
  }

  /** The positions a boolean mask selects, in ascending order. */
  function Selected(mask: seq<bool>): (idx: seq<nat>)
    ensures forall k :: 0 <= k < |idx| ==> idx[k] < |mask| && mask[idx[k]]
    ensures forall i :: 0 <= i < |mask| && mask[i] ==> i in idx
    ensures forall k, l :: 0 <= k < l < |idx| ==> idx[k] < idx[l]
  {
    if |mask| == 0 then []
    else
      var n := |mask| - 1;
      var front := Selected(mask[..n]);
      assert forall i :: 0 <= i < n && mask[i] ==> mask[..n][i];
      front + (if mask[n] then [n] else [])
  }

  /** pandas boolean indexing: the rows the mask selects, in table order. */
  function Select(rows: seq<Row>, mask: seq<bool>): (r: seq<Row>)
    requires |mask| == |rows|
    ensures |r| == |Selected(mask)|
    ensures forall k :: 0 <= k < |r| ==> r[k] == rows[Selected(mask)[k]]
  {
    var idx := Selected(mask);
    seq(|idx|, k requires 0 <= k < |idx| => rows[idx[k]])
  }

  /** A mask that selects everything keeps every row. */
  lemma {:induction false} SelectAll(rows: seq<Row>, mask: seq<bool>)
    requires |mask| == |rows| && forall i :: 0 <= i < |mask| ==> mask[i]
    ensures Select(rows, mask) == rows
  {
    SelectedAll(mask);
  }

  lemma {:induction false} SelectedAll(mask: seq<bool>)
    requires forall i :: 0 <= i < |mask| ==> mask[i]
    ensures |Selected(mask)| == |mask|
    ensures forall k :: 0 <= k < |mask| ==> Selected(mask)[k] == k
  {
    if |mask| > 0 {
      SelectedAll(mask[..|mask| - 1]);
    }
  }

  /** The z-score test of every row. */
  function OutlierMask(rows: seq<Row>, mean: real, sd: real, zThresh: real): (mask: seq<bool>)
    requires sd > 0.0
    ensures |mask| == |rows|
  {
    seq(|rows|, i requires 0 <= i < |rows| => Keep(rows[i].ipd, mean, sd, zThresh))
  }

  /** The rows whose IPD lies strictly within zThresh spreads of the mean
      IPD, in table order. An empty table stays empty. */
  function RemoveOutlierIpds(rows: seq<Row>, zThresh: real, lib: Numerics): (r: seq<Row>)
  {
    if |rows| == 0 then []
    else
      var arr := Ipds(rows);
      Select(rows, OutlierMask(rows, Mean(arr), Spread(arr, lib), zThresh))
  }

  function KeptIndices(rows: seq<Row>, zThresh: real, lib: Numerics): seq<nat>
    requires |rows| > 0
  {
    var arr := Ipds(rows);
    Selected(OutlierMask(rows, Mean(arr), Spread(arr, lib), zThresh))
  }

  /** remove_outlier_ipds keeps an order-preserving subsequence of the
      rows: the k-th kept row is the row at the k-th of some ascending
      positions, and a position is among them exactly when its IPD lies
      strictly within zThresh spreads of the mean IPD (the spread being
      the standard deviation, or 1.0 if that is 0). */
  lemma RemoveOutlierIpdsKeeps(rows: seq<Row>, zThresh: real, lib: Numerics)
    requires |rows| > 0
    ensures var r, idx := RemoveOutlierIpds(rows, zThresh, lib), KeptIndices(rows, zThresh, lib);
      && |r| == |idx|
      && (forall k :: 0 <= k < |r| ==> idx[k] < |rows| && r[k] == rows[idx[k]])
      && (forall k, l :: 0 <= k < l < |idx| ==> idx[k] < idx[l])
    ensures forall i :: 0 <= i < |rows| ==>
      (i in KeptIndices(rows, zThresh, lib) <==>
         WithinBand(rows[i].ipd, Mean(Ipds(rows)), Spread(Ipds(rows), lib), zThresh))
  {
    var arr := Ipds(rows);
    var mask := OutlierMask(rows, Mean(arr), Spread(arr, lib), zThresh);
    assert KeptIndices(rows, zThresh, lib) == Selected(mask);
    assert RemoveOutlierIpds(rows, zThresh, lib) == Select(rows, mask);
    MaskSelects(rows, Mean(arr), Spread(arr, lib), zThresh);
  }

  /** x lies strictly within zThresh spreads of the mean. */
  predicate WithinBand(x: real, mean: real, sd: real, zThresh: real)
  {
    Abs(x - mean) < zThresh * sd
  }

  /** The z-score mask selects a row exactly when its IPD lies strictly
      within zThresh spreads of the mean. */
  lemma MaskSelects(rows: seq<Row>, mean: real, sd: real, zThresh: real)
    requires sd > 0.0
    ensures forall i :: 0 <= i < |rows| ==>
      (i in Selected(OutlierMask(rows, mean, sd, zThresh)) <==> WithinBand(rows[i].ipd, mean, sd, zThresh))
  {
    var mask := OutlierMask(rows, mean, sd, zThresh);
    forall i | 0 <= i < |rows|
      ensures i in Selected(mask) <==> WithinBand(rows[i].ipd, mean, sd, zThresh)
    {
      SelectedMember(mask, i);
      assert mask[i] == Keep(rows[i].ipd, mean, sd, zThresh);
      ZScoreBound(rows[i].ipd - mean, sd, zThresh);
    }
  }

  lemma SelectedMember(mask: seq<bool>, i: nat)
    requires i < |mask|
    ensures i in Selected(mask) <==> mask[i]
  {
    var idx := Selected(mask);
    if i in idx {
      var k :| 0 <= k < |idx| && idx[k] == i;
    }
  }

  lemma ZScoreBound(d: real, sd: real, z: real)
    requires sd > 0.0
    ensures Abs(d / sd) < z <==> Abs(d) < z * sd
  {
    assert d / sd * sd == d;
    if d < 0.0 {
      assert Abs(d / sd) == (-d) / sd;
    }
  }

  /** A constant IPD column has no outliers: with a positive threshold every
      row is kept, through the 1.0 fallback for a zero deviation. */
  lemma ConstantColumnKept(rows: seq<Row>, zThresh: real, lib: Numerics)
    requires lib.Sound()
    requires |rows| > 0 && Constant(Ipds(rows)) && zThresh > 0.0
    ensures RemoveOutlierIpds(rows, zThresh, lib) == rows
  {
    var arr := Ipds(rows);
    ConstantMeanVariance(arr);
    assert Spread(arr, lib) == 1.0;
    var mask := OutlierMask(rows, Mean(arr), 1.0, zThresh);
    forall i | 0 <= i < |rows| ensures mask[i] {
      assert arr[i] == arr[0];
    }
    SelectAll(rows, mask);
  }

  // ----- rescale_timestamps -----

  /** With startAtZero, every timestamp is moved back by the smallest one;
      otherwise the rows are returned as they are. */
  function RescaleTimestamps(rows: seq<Row>, startAtZero: bool): (r: seq<Row>)
    ensures |r| == |rows|
    ensures !startAtZero ==> r == rows
  {
    if !startAtZero || |rows| == 0 then rows
    else
      var lo := Min(Times(rows));
      seq(|rows|, i requires 0 <= i < |rows| => rows[i].(ts := rows[i].ts - lo))
  }

  /** After rescaling the earliest timestamp is 0, none is negative, the
      gaps between any two timestamps and every IPD are unchanged. */
  lemma RescaleStartsAtZero(rows: seq<Row>)
    requires |rows| > 0
    ensures var r := RescaleTimestamps(rows, true);
      && Min(Times(r)) == 0.0
      && (forall i :: 0 <= i < |r| ==> r[i].ts >= 0.0 && r[i].ipd == rows[i].ipd)
      && (forall i, j :: 0 <= i < |r| && 0 <= j < |r| ==> r[i].ts - r[j].ts == rows[i].ts - rows[j].ts)
  {
    var t := Times(rows);
    var lo := Min(t);
    var r := RescaleTimestamps(rows, true);
    var k :| 0 <= k < |t| && t[k] == lo;
    forall i | 0 <= i < |r| ensures r[i].ts >= 0.0 && r[i].ts == t[i] - lo && Times(r)[i] == r[i].ts {
      assert t[i] == rows[i].ts;
    }
    assert Times(r)[k] == 0.0;
  }

  // ----- apply_synthetic_jitter -----

  /** Adds the i-th jitter value to the i-th IPD, never going below 1e-9.
      The jitter vector (normally drawn at random) is a parameter. */
  function ApplySyntheticJitter(rows: seq<Row>, jitter: seq<real>): (r: seq<Row>)
    requires |jitter| == |rows|
    ensures |r| == |rows|
  {
    seq(|rows|, i requires 0 <= i < |rows| => rows[i].(ipd := MaxReal(JitterFloor, rows[i].ipd + jitter[i])))
  }

  /** Jitter keeps the rows and their timestamps, floors every IPD at
      1e-9, and moves an IPD by exactly its jitter unless that crosses the floor. */
  lemma JitterFloored(rows: seq<Row>, jitter: seq<real>)
    requires |jitter| == |rows|
    ensures var r := ApplySyntheticJitter(rows, jitter);
      forall i :: 0 <= i < |r| ==>
        && r[i].ts == rows[i].ts
        && r[i].ipd >= JitterFloor
        && (rows[i].ipd + jitter[i] >= JitterFloor ==> r[i].ipd == rows[i].ipd + jitter[i])
        && (rows[i].ipd + jitter[i] < JitterFloor ==> r[i].ipd == JitterFloor)
  {
  }
}
