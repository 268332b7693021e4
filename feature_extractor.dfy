/** The offline window extractor: a flow's IPD column is cut into windows
    of `window` values every `step` positions, the last one clamped to the
    end of the column, and each window is summarised by its mean, standard
    deviation, median, extremes, histogram entropy and lag-1 correlation. */
module FeatureExtractor {
  import opened Common

  const EntropyBins := 16
  const HistLift := 0.000000000001

  /** The strictly positive IPDs, in order. */
  function Positives(s: seq<real>): (p: seq<real>)
    ensures |p| <= |s|
    ensures forall i :: 0 <= i < |p| ==> p[i] > 0.0
    ensures forall x :: x in p <==> x in s && x > 0.0
  {
    if |s| == 0 then []
    else Positives(s[..|s| - 1]) + (if s[|s| - 1] > 0.0 then [s[|s| - 1]] else [])
  }

  lemma {:induction false} PositivesOfPositive(s: seq<real>)
    requires forall i :: 0 <= i < |s| ==> s[i] > 0.0
    ensures Positives(s) == s
  {
    if |s| > 0 {
      PositivesOfPositive(s[..|s| - 1]);
      assert s == s[..|s| - 1] + [s[|s| - 1]];
    }
  }

  /** Entropy of the 16-bin density histogram of the positive IPDs, each bin
      lifted by 1e-12; 0 when no IPD is positive. */
  function EntropyIpd(arr: seq<real>, lib: Numerics): (r: real)
    ensures (forall i :: 0 <= i < |arr| ==> arr[i] <= 0.0) ==> r == 0.0
  {
    var pos := Positives(arr);
    if |pos| == 0 then 0.0
    else
      assert pos[0] in arr;
      var hist := lib.histogram(pos, EntropyBins);
      lib.entropy(seq(|hist|, i requires 0 <= i < |hist| => hist[i] + HistLift))
  }

  /** Non-positive IPDs never influence the entropy: it equals the entropy
      of the positive ones alone. */
  lemma EntropyIgnoresNonPositive(arr: seq<real>, lib: Numerics)
    ensures EntropyIpd(arr, lib) == EntropyIpd(Positives(arr), lib)
  {
    PositivesOfPositive(Positives(arr));
  }

  /** The Pearson correlation of consecutive IPDs (x = arr[:-1], y = arr[1:]),
      clipped to [-1, 1]. None stands for the NaN that results when either
      half has zero variance; fewer than two IPDs give 0. The covariance and
      both variances use the same normalisation, which cancels. */
  function Autocorr(arr: seq<real>, lib: Numerics): (r: Option<real>)
    ensures |arr| < 2 ==> r == Some(0.0)
    ensures r.Some? ==> -1.0 <= r.value <= 1.0
    ensures |arr| >= 2 && lib.Sound() ==>
      (r.None? <==> Variance(arr[..|arr| - 1]) == 0.0 || Variance(arr[1..]) == 0.0)
  {
    if |arr| < 2 then Some(0.0)
    else
      var x, y := arr[..|arr| - 1], arr[1..];
      var mx, my := Mean(x), Mean(y);
      var cov := Mean(seq(|x|, i requires 0 <= i < |x| => (x[i] - mx) * (y[i] - my)));
      var denominator := Std(x, lib) * Std(y, lib);
      VarianceNonNegative(x);
      VarianceNonNegative(y);
      if denominator == 0.0 then None
      else Some(MaxReal(-1.0, MinReal(1.0, cov / denominator)))
  }

  /** A constant IPD sequence has no defined lag-1 correlation. */
  lemma ConstantAutocorrUndefined(arr: seq<real>, lib: Numerics)
    requires lib.Sound() && |arr| >= 2 && Constant(arr)
    ensures Autocorr(arr, lib).None?
  {
    var x := arr[..|arr| - 1];
    assert Constant(x);
    ConstantMeanVariance(x);
  }

  /** numpy's median: the middle of the sorted values, or the mean of the
      two middle ones for an even count. */
  function Median(s: seq<real>): (m: real)
    requires |s| > 0
    ensures Min(s) <= m <= Max(s)
  {
    var t := SortBy(s, (x: real) => x);
    var n := |t|;
    SortedWithinBounds(s, t, n / 2);
    if n % 2 == 1 then t[n / 2]
    else
      SortedWithinBounds(s, t, n / 2 - 1);
      (t[n / 2 - 1] + t[n / 2]) / 2.0
  }

  /** One window's feature record; `flow` is absent until the flow tags it. */
  datatype WindowRecord = WindowRecord(mean: real, std: real, median: real, max: real, min: real,
                                       entropy: real, autocorr: Option<real>, pktCount: nat,
                                       flow: Option<string>)

  function Summarise(win: seq<real>, lib: Numerics): (r: WindowRecord)
    requires |win| > 0
    ensures r.min <= r.mean <= r.max && r.min <= r.median <= r.max
    ensures r.min in win && r.max in win
    ensures forall i :: 0 <= i < |win| ==> r.min <= win[i] <= r.max
    ensures r.pktCount == |win| && r.flow == None
  {
    MeanBetweenMinMax(win);
    WindowRecord(Mean(win), Std(win, lib), Median(win), Max(win), Min(win),
                 EntropyIpd(win, lib), Autocorr(win, lib), |win|, None)
  }

  function MinNat(a: nat, b: nat): nat { if a <= b then a else b }

  /** The [start, end) bounds of the windows enumerated from `start` on:
      a window per step while the start is inside the column, clamped to the
      column's end, stopping after the first window that reaches the end or
      at once when windows are empty. */
  function WindowsFrom(len: nat, window: nat, step: nat, start: nat): (r: seq<(nat, nat)>)
    requires step > 0
    ensures forall k :: 0 <= k < |r| ==> start <= r[k].0 < r[k].1 <= len && r[k].1 - r[k].0 <= window
    decreases len - start
  {
    if start >= len || window == 0 then []
    else
      var end := start + window;
      [(start, MinNat(end, len))] + (if end >= len then [] else WindowsFrom(len, window, step, start + step))
  }

  /** Python's range(0, len, step): empty for a negative step. */
  function Windows(len: nat, window: nat, step: int): (r: seq<(nat, nat)>)
    requires step != 0
    ensures forall k :: 0 <= k < |r| ==> r[k].0 < r[k].1 <= len && r[k].1 - r[k].0 <= window
  {
    if step < 0 then [] else WindowsFrom(len, window, step, 0)
  }

  /** The k-th window starts at start + k*step and ends at
      min(start + k*step + window, len); every window but the last ends
      strictly before len. */
  lemma {:induction false} WindowsFromShape(len: nat, window: nat, step: nat, start: nat)
    requires step > 0
    ensures var r := WindowsFrom(len, window, step, start);
      forall k :: 0 <= k < |r| ==>
        && r[k].0 == start + k * step
        && r[k].1 == MinNat(start + k * step + window, len)
        && (k < |r| - 1 ==> start + k * step + window < len)
    decreases len - start
  {
    var r := WindowsFrom(len, window, step, start);
    if |r| > 0 && start + window < len {
      var rest := WindowsFrom(len, window, step, start + step);
      WindowsFromShape(len, window, step, start + step);
      assert r == [(start, MinNat(start + window, len))] + rest;
      forall k | 1 <= k < |r|
        ensures r[k].0 == start + k * step
        ensures r[k].1 == MinNat(start + k * step + window, len)
        ensures k < |r| - 1 ==> start + k * step + window < len
      {
        assert r[k] == rest[k - 1];
        assert start + step + (k - 1) * step == start + k * step;
      }
    }
  }

  /** When windows overlap or touch (window >= step) the last window always
      reaches the end of the column, so no IPD is left out. */
  lemma {:induction false} LastWindowReachesEnd(len: nat, window: nat, step: nat, start: nat)
    requires 0 < step <= window
    requires start < len
    ensures var r := WindowsFrom(len, window, step, start);
      |r| > 0 && r[|r| - 1].1 == len
    decreases len - start
  {
    if start + window < len {
      LastWindowReachesEnd(len, window, step, start + step);
    }
  }

  /** Every IPD position lies in some window when window >= step. */
  lemma CoversColumn(len: nat, window: nat, step: nat)
    requires 0 < step <= window && len > 0
    ensures var r := Windows(len, window, step);
      r[0].0 == 0 && r[|r| - 1].1 == len
      && forall k :: 0 <= k < |r| - 1 ==> r[k + 1].0 <= r[k].1
  {
    LastWindowReachesEnd(len, window, step, 0);
    WindowsFromShape(len, window, step, 0);
    var r := Windows(len, window, step);
    forall k | 0 <= k < |r| - 1 ensures r[k + 1].0 <= r[k].1 {
      assert (k + 1) * step == k * step + step;
    }
  }

  /** A window of IPDs as the extractor slices it: never empty. */
  type Window = w: seq<real> | |w| > 0 witness [0.0]

  /** The record the extractor builds for each window. */
  function SummaryOf(lib: Numerics): Window -> WindowRecord
  {
    (w: Window) => Summarise(w, lib)
  }

  /** The records of the windows enumerated from `start` on, in order. */
  function ExtractFrom(ipds: seq<real>, window: nat, step: nat, start: nat,
                       summarise: Window -> WindowRecord): seq<WindowRecord>
    requires step > 0
    decreases |ipds| - start
  {
    if start >= |ipds| || window == 0 then []
    else
      var end := start + window;
      [summarise(ipds[start..MinNat(end, |ipds|)])]
      + (if end >= |ipds| then [] else ExtractFrom(ipds, window, step, start + step, summarise))
  }

  function Extract(ipds: seq<real>, window: nat, step: int, summarise: Window -> WindowRecord)
    : seq<WindowRecord>
    requires step != 0
  {
    if step < 0 then [] else ExtractFrom(ipds, window, step, 0, summarise)
  }

  /** The summaries of the given windows of a column, in order. */
  function SummariseAll(ipds: seq<real>, w: seq<(nat, nat)>, summarise: Window -> WindowRecord)
    : (r: seq<WindowRecord>)
    requires forall k :: 0 <= k < |w| ==> w[k].0 < w[k].1 <= |ipds|
    ensures |r| == |w|
  {
    if |w| == 0 then []
    else [summarise(ipds[w[0].0..w[0].1])] + SummariseAll(ipds, w[1..], summarise)
  }

  /** The k-th summary is that of the k-th window. */
  lemma {:induction false} SummariseAllIndex(ipds: seq<real>, w: seq<(nat, nat)>,
                                             summarise: Window -> WindowRecord)
    requires forall k :: 0 <= k < |w| ==> w[k].0 < w[k].1 <= |ipds|
    ensures forall k :: 0 <= k < |w| ==>
      SummariseAll(ipds, w, summarise)[k] == summarise(ipds[w[k].0..w[k].1])
  {
    if |w| > 0 {
      SummariseAllIndex(ipds, w[1..], summarise);
      var r := SummariseAll(ipds, w, summarise);
      forall k | 1 <= k < |w| ensures r[k] == summarise(ipds[w[k].0..w[k].1]) {
        assert r[k] == SummariseAll(ipds, w[1..], summarise)[k - 1];
        assert w[k] == w[1..][k - 1];
      }
    }
  }

  /** The records from `start` on are the summaries of the windows from
      `start` on. */
  lemma {:induction false} ExtractFromWindows(ipds: seq<real>, window: nat, step: nat, start: nat,
                                              summarise: Window -> WindowRecord)
    requires step > 0
    ensures ExtractFrom(ipds, window, step, start, summarise)
            == SummariseAll(ipds, WindowsFrom(|ipds|, window, step, start), summarise)
    decreases |ipds| - start
  {
    if start < |ipds| && window > 0 {
      if start + window < |ipds| {
        ExtractFromWindows(ipds, window, step, start + step, summarise);
        ExtractFromWindowsStep(ipds, window, step, start, summarise);
      } else {
        ExtractFromWindowsLast(ipds, window, step, start, summarise);
      }
    }
  }

  /** The inductive step: a window strictly inside the column is followed
      by the windows from `start + step`. */
  lemma ExtractFromWindowsStep(ipds: seq<real>, window: nat, step: nat, start: nat,
                               summarise: Window -> WindowRecord)
    requires step > 0 && 0 < window && start + window < |ipds|
    requires ExtractFrom(ipds, window, step, start + step, summarise)
             == SummariseAll(ipds, WindowsFrom(|ipds|, window, step, start + step), summarise)
    ensures ExtractFrom(ipds, window, step, start, summarise)
            == SummariseAll(ipds, WindowsFrom(|ipds|, window, step, start), summarise)
  {
    var w0 := (start, start + window);
    var w' := WindowsFrom(|ipds|, window, step, start + step);
    assert WindowsFrom(|ipds|, window, step, start) == [w0] + w';
    SummariseAllCons(ipds, w0, w', summarise);
  }

  /** The base case: a window reaching the end of the column is the last. */
  lemma ExtractFromWindowsLast(ipds: seq<real>, window: nat, step: nat, start: nat,
                               summarise: Window -> WindowRecord)
    requires step > 0 && 0 < window && start < |ipds| <= start + window
    ensures ExtractFrom(ipds, window, step, start, summarise)
            == SummariseAll(ipds, WindowsFrom(|ipds|, window, step, start), summarise)
  {
    var w0 := (start, |ipds|);
    assert WindowsFrom(|ipds|, window, step, start) == [w0] + [];
    SummariseAllCons(ipds, w0, [], summarise);
    assert [summarise(ipds[start..|ipds|])] + SummariseAll(ipds, [], summarise)
           == [summarise(ipds[start..|ipds|])];
  }

  lemma SummariseAllCons(ipds: seq<real>, w0: (nat, nat), w: seq<(nat, nat)>,
                         summarise: Window -> WindowRecord)
    requires w0.0 < w0.1 <= |ipds|
    requires forall k :: 0 <= k < |w| ==> w[k].0 < w[k].1 <= |ipds|
    ensures SummariseAll(ipds, [w0] + w, summarise)
            == [summarise(ipds[w0.0..w0.1])] + SummariseAll(ipds, w, summarise)
  {
    assert ([w0] + w)[1..] == w;
  }

  /** The extractor's records, one per window, each summarising its window. */
  lemma ExtractMatchesWindows(ipds: seq<real>, window: nat, step: int, lib: Numerics)
    requires step != 0
    ensures var r, w := Extract(ipds, window, step, SummaryOf(lib)), Windows(|ipds|, window, step);
      |r| == |w| && forall k :: 0 <= k < |r| ==>
        && r[k] == Summarise(ipds[w[k].0..w[k].1], lib)
        && 0 < r[k].pktCount <= window
  {
    var r, w := Extract(ipds, window, step, SummaryOf(lib)), Windows(|ipds|, window, step);
    if step > 0 {
      ExtractFromWindows(ipds, window, step, 0, SummaryOf(lib));
      SummariseAllIndex(ipds, w, SummaryOf(lib));
    }
    forall k | 0 <= k < |r| ensures 0 < r[k].pktCount <= window {
      assert r[k] == Summarise(ipds[w[k].0..w[k].1], lib);
    }
  }

  /** The extraction loop's state after the windows before `start`: the
      records `acc` so far, followed by those still to come. */
  function ExtractLoop(ipds: seq<real>, window: nat, step: nat, start: nat, acc: seq<WindowRecord>,
                       summarise: Window -> WindowRecord): seq<WindowRecord>
    requires step > 0
    decreases |ipds| - start
  {
    if start >= |ipds| || window == 0 then acc
    else
      var end := start + window;
      var acc' := acc + [summarise(ipds[start..MinNat(end, |ipds|)])];
      if end >= |ipds| then acc' else ExtractLoop(ipds, window, step, start + step, acc', summarise)
  }

  lemma {:induction false} ExtractLoopSplit(ipds: seq<real>, window: nat, step: nat, start: nat,
                                            acc: seq<WindowRecord>, summarise: Window -> WindowRecord)
    requires step > 0
    ensures ExtractLoop(ipds, window, step, start, acc, summarise)
            == acc + ExtractFrom(ipds, window, step, start, summarise)
    decreases |ipds| - start
  {
    if start >= |ipds| || window == 0 {
      assert acc + [] == acc;
    } else if start + window < |ipds| {
      var x := summarise(ipds[start..start + window]);
      ExtractLoopSplit(ipds, window, step, start + step, acc + [x], summarise);
      ExtractLoopSplitStep(ipds, window, step, start, acc, summarise);
    } else {
      var x := summarise(ipds[start..|ipds|]);
      assert ExtractFrom(ipds, window, step, start, summarise) == [x] + [];
    }
  }

  /** The inductive step of ExtractLoopSplit, for a window strictly inside
      the column. */
  lemma ExtractLoopSplitStep(ipds: seq<real>, window: nat, step: nat, start: nat,
                             acc: seq<WindowRecord>, summarise: Window -> WindowRecord)
    requires step > 0 && 0 < window && start + window < |ipds|
    requires ExtractLoop(ipds, window, step, start + step, acc + [summarise(ipds[start..start + window])], summarise)
             == acc + [summarise(ipds[start..start + window])] + ExtractFrom(ipds, window, step, start + step, summarise)
    ensures ExtractLoop(ipds, window, step, start, acc, summarise)
            == acc + ExtractFrom(ipds, window, step, start, summarise)
  {
    var x := summarise(ipds[start..start + window]);
    var rest := ExtractFrom(ipds, window, step, start + step, summarise);
    assert ExtractFrom(ipds, window, step, start, summarise) == [x] + rest;
    assert acc + [x] + rest == acc + ([x] + rest);
  }

  /** The extraction loop, for any per-window summary: a window every
      `step` positions from 0 while inside the column, clamped at its end,
      stopping after an empty window or after the first one that reaches
      the end. */
  method ExtractWindowsBy(ipds: seq<real>, window: nat, step: int, summarise: Window -> WindowRecord)
    returns (features: seq<WindowRecord>)
    requires step != 0
    ensures features == Extract(ipds, window, step, summarise)
  {
    features := [];
    if step < 0 {
      return;
    }
    ExtractLoopSplit(ipds, window, step, 0, [], summarise);
    assert [] + ExtractFrom(ipds, window, step, 0, summarise) == Extract(ipds, window, step, summarise);
    var start: nat := 0;
    while start < |ipds|
      invariant ExtractLoop(ipds, window, step, start, features, summarise) == Extract(ipds, window, step, summarise)
      decreases |ipds| - start
    {
      var end := start + window;
      var win := ipds[start..MinNat(end, |ipds|)];
      if |win| == 0 {
        break;
      }
      features := features + [summarise(win)];
      if end >= |ipds| {
        break;
      }
      start := start + step;
    }
  }

  /** The feature records of a column: one per window, in window order. */
  method ExtractWindows(ipds: seq<real>, window: nat, step: int, lib: Numerics)
    returns (features: seq<WindowRecord>)
    requires step != 0
    ensures features == Extract(ipds, window, step, SummaryOf(lib))
  {
    features := ExtractWindowsBy(ipds, window, step, SummaryOf(lib));
  }

  /** The file name of a path: the part after its last '/'. */
  function Basename(path: string): (b: string)
    ensures '/' !in b
    ensures |b| <= |path| && b == path[|path| - |b|..]
    ensures |b| < |path| ==> path[|path| - |b| - 1] == '/'
  {
    if |path| == 0 || path[|path| - 1] == '/' then []
    else Basename(path[..|path| - 1]) + [path[|path| - 1]]
  }

  /** Tags every record with the flow's name, record by record. */
  method TagRecords(recs: seq<WindowRecord>, name: string) returns (tagged: seq<WindowRecord>)
    ensures |tagged| == |recs|
    ensures forall k :: 0 <= k < |recs| ==> tagged[k] == recs[k].(flow := Some(name))
  {
    tagged := recs;
    for i := 0 to |recs|
      invariant |tagged| == |recs|
      invariant forall k :: 0 <= k < i ==> tagged[k] == recs[k].(flow := Some(name))
      invariant forall k :: i <= k < |recs| ==> tagged[k] == recs[k]
    {
      tagged := tagged[i := tagged[i].(flow := Some(name))];
    }
  }

  /** The records of one flow file's IPD column, each tagged with the
      file's base name. */
  method ProcessFlow(path: string, ipds: seq<real>, window: nat, step: int, lib: Numerics)
    returns (feats: seq<WindowRecord>)
    requires step != 0
    ensures |feats| == |Extract(ipds, window, step, SummaryOf(lib))|
    ensures forall k :: 0 <= k < |feats| ==>
      feats[k] == Extract(ipds, window, step, SummaryOf(lib))[k].(flow := Some(Basename(path)))
  {
    var untagged := ExtractWindows(ipds, window, step, lib);
    feats := TagRecords(untagged, Basename(path));
  }
}
