/** The offline statistical extractor: full windows of `window` IPDs every
    `step` positions, each tested against a baseline sample and scored. */
module StatFeatureExtractor {
  import opened StatTests

  /** The statistical tests the extractor applies, as library routines: the
      two-sample KS test (statistic, p-value), the Anderson-Darling
      statistic of a sample, and the Jensen-Shannon divergence of two samples. */
  datatype Tests = Tests(
    ks: (seq<real>, seq<real>) -> (real, real),
    ad: seq<real> -> real,
    js: (seq<real>, seq<real>) -> real)

  datatype StatRecord = StatRecord(flow: string, windowStart: int, windowEnd: int,
                                   ksStat: real, ksPvalue: real, adStat: real,
                                   jsDivergence: real, suspicionScore: real)

  /** A slice bound as numpy reads it: a negative bound counts from the end,
      and the result is clamped to [0, n]. */
  function Clamp(i: int, n: nat): (c: nat)
    ensures c <= n
    ensures 0 <= i <= n ==> c == i
  {
    if i < 0 then (if i + n < 0 then 0 else i + n)
    else if i > n then n
    else i
  }

  /** numpy's s[lo:hi]: empty when the clamped bounds cross. A slice from 0
      reaching past the end is the whole sequence; one ending at or before
      -len is empty. */
  function PySlice(s: seq<real>, lo: int, hi: int): (w: seq<real>)
    ensures 0 <= lo <= hi <= |s| ==> w == s[lo..hi]
    ensures |w| <= |s|
    ensures lo == 0 && hi >= |s| ==> w == s
    ensures hi <= -|s| ==> w == []
  {
    var a, b := Clamp(lo, |s|), Clamp(hi, |s|);
    if a < b then s[a..b] else []
  }

  /** The record of the window ipd[start:start + window]. */
  function WindowRecord(ipd: seq<real>, start: int, window: nat, flowName: string,
                        baseline: seq<real>, tests: Tests): (r: StatRecord)
    ensures r.windowStart == start && r.windowEnd == start + window && r.flow == flowName
    ensures r.suspicionScore == SuspicionScore(r.ksStat, r.ksPvalue, r.adStat, r.jsDivergence)
    ensures 0 <= start && start + window <= |ipd| ==>
      var w := ipd[start..start + window];
      && |w| == window
      && (r.ksStat, r.ksPvalue) == tests.ks(w, baseline)
      && r.adStat == tests.ad(w)
      && r.jsDivergence == tests.js(w, baseline)
    ensures start == 0 && window >= |ipd| ==>
      && (r.ksStat, r.ksPvalue) == tests.ks(ipd, baseline)
      && r.adStat == tests.ad(ipd)
      && r.jsDivergence == tests.js(ipd, baseline)
  {
    var w := PySlice(ipd, start, start + window);
    var (ksStat, ksP) := tests.ks(w, baseline);
    var adStat := tests.ad(w);
    var jsd := tests.js(w, baseline);
    StatRecord(flowName, start, start + window, ksStat, ksP, adStat, jsd,
               SuspicionScore(ksStat, ksP, adStat, jsd))
  }

  /** The records of the full windows starting at `start`, `start + step`, ... */
  function RecordsFrom(ipd: seq<real>, window: nat, step: nat, start: nat, flowName: string,
                       baseline: seq<real>, tests: Tests): (r: seq<StatRecord>)
    requires step > 0
    ensures forall k :: 0 <= k < |r| ==>
      && start <= r[k].windowStart && r[k].windowStart + window <= |ipd|
      && r[k] == WindowRecord(ipd, r[k].windowStart, window, flowName, baseline, tests)
    decreases |ipd| - start
  {
    if start + window > |ipd| then []
    else [WindowRecord(ipd, start, window, flowName, baseline, tests)]
         + RecordsFrom(ipd, window, step, start + step, flowName, baseline, tests)
  }

  /** The records of a descending range: starts `start`, `start - down`, ...
      while they stay above `stop`. */
  function RecordsDown(ipd: seq<real>, window: nat, down: nat, start: int, stop: int, flowName: string,
                       baseline: seq<real>, tests: Tests): (r: seq<StatRecord>)
    requires down > 0
    ensures forall k :: 0 <= k < |r| ==>
      && stop < r[k].windowStart <= start
      && r[k] == WindowRecord(ipd, r[k].windowStart, window, flowName, baseline, tests)
    decreases start - stop
  {
    if start <= stop then []
    else [WindowRecord(ipd, start, window, flowName, baseline, tests)]
         + RecordsDown(ipd, window, down, start - down, stop, flowName, baseline, tests)
  }

  /** Python's range(0, len - window + 1, step): ascending for a positive
      step; descending for a negative one, which is non-empty only when
      window > len + 1. */
  function StatRecords(ipd: seq<real>, window: nat, step: int, flowName: string,
                       baseline: seq<real>, tests: Tests): seq<StatRecord>
    requires step != 0
  {
    if step > 0 then RecordsFrom(ipd, window, step, 0, flowName, baseline, tests)
    else RecordsDown(ipd, window, -step, 0, |ipd| - window + 1, flowName, baseline, tests)
  }

  /** A descending range from `start` above `stop` holds
      (start - stop - 1) / down + 1 starts when start > stop, none otherwise. */
  lemma {:induction false} RecordsDownLength(ipd: seq<real>, window: nat, down: nat, start: int, stop: int,
                                             flowName: string, baseline: seq<real>, tests: Tests)
    requires down > 0
    ensures |RecordsDown(ipd, window, down, start, stop, flowName, baseline, tests)|
            == if start > stop then (start - stop - 1) / down + 1 else 0
    decreases start - stop
  {
    if start > stop {
      RecordsDownLength(ipd, window, down, start - down, stop, flowName, baseline, tests);
      CountStep(start - stop - 1, down);
    }
  }

  /** The k-th record of a descending range starts at start - k*down, and
      there are (start - stop - 1) / down + 1 of them when start > stop. */
  lemma {:induction false} RecordsDownShape(ipd: seq<real>, window: nat, down: nat, start: int, stop: int,
                                            flowName: string, baseline: seq<real>, tests: Tests)
    requires down > 0
    ensures |RecordsDown(ipd, window, down, start, stop, flowName, baseline, tests)|
            == if start > stop then (start - stop - 1) / down + 1 else 0
    ensures forall k :: 0 <= k < |RecordsDown(ipd, window, down, start, stop, flowName, baseline, tests)| ==>
      RecordsDown(ipd, window, down, start, stop, flowName, baseline, tests)[k].windowStart == start - k * down
    decreases start - stop
  {
    RecordsDownLength(ipd, window, down, start, stop, flowName, baseline, tests);
    if start > stop {
      var r := RecordsDown(ipd, window, down, start, stop, flowName, baseline, tests);
      var r' := RecordsDown(ipd, window, down, start - down, stop, flowName, baseline, tests);
      RecordsDownShape(ipd, window, down, start - down, stop, flowName, baseline, tests);
      forall k | 1 <= k < |r| ensures r[k].windowStart == start - k * down {
        assert r[k] == r'[k - 1];
        assert start - down - (k - 1) * down == start - k * down;
      }
    }
  }

  /** With a negative step the extractor emits records only when the window
      is longer than the column plus one: then the starts 0, step, 2*step, ...
      above len - window + 1, each labelled [start, start + window). */
  lemma StatRecordsNegativeStep(ipd: seq<real>, window: nat, step: int, flowName: string,
                                baseline: seq<real>, tests: Tests)
    requires step < 0
    ensures |StatRecords(ipd, window, step, flowName, baseline, tests)|
            == if window > |ipd| + 1 then (window - |ipd| - 2) / (-step) + 1 else 0
    ensures forall k :: 0 <= k < |StatRecords(ipd, window, step, flowName, baseline, tests)| ==>
      var r := StatRecords(ipd, window, step, flowName, baseline, tests)[k];
      r.windowStart == k * step && r.windowEnd == k * step + window
  {
    var down, stop := -step, |ipd| - window + 1;
    RecordsDownShape(ipd, window, down, 0, stop, flowName, baseline, tests);
    var r := RecordsDown(ipd, window, down, 0, stop, flowName, baseline, tests);
    assert r == StatRecords(ipd, window, step, flowName, baseline, tests);
    assert 0 - stop - 1 == window - |ipd| - 2;
    forall k | 0 <= k < |r| ensures r[k].windowStart == k * step && r[k].windowEnd == k * step + window {
      assert k * down == -(k * step);
      assert r[k] == WindowRecord(ipd, r[k].windowStart, window, flowName, baseline, tests);
    }
  }

  /** The k-th record from `start` is the window at start + k*step, and
      there are (len - start - window) / step + 1 of them when the first
      fits, none otherwise. */
  lemma {:induction false} RecordsFromShape(ipd: seq<real>, window: nat, step: nat, start: nat,
                                            flowName: string, baseline: seq<real>, tests: Tests)
    requires step > 0
    ensures |RecordsFrom(ipd, window, step, start, flowName, baseline, tests)|
            == if start + window <= |ipd| then (|ipd| - start - window) / step + 1 else 0
    ensures forall k :: 0 <= k < |RecordsFrom(ipd, window, step, start, flowName, baseline, tests)| ==>
      RecordsFrom(ipd, window, step, start, flowName, baseline, tests)[k].windowStart == start + k * step
    decreases |ipd| - start
  {
    if start + window <= |ipd| {
      var r := RecordsFrom(ipd, window, step, start, flowName, baseline, tests);
      var r' := RecordsFrom(ipd, window, step, start + step, flowName, baseline, tests);
      RecordsFromShape(ipd, window, step, start + step, flowName, baseline, tests);
      assert |r| == |r'| + 1;
      CountStep(|ipd| - start - window, step);
      forall k | 1 <= k < |r| ensures r[k].windowStart == start + k * step {
        assert r[k] == r'[k - 1];
        assert start + step + (k - 1) * step == start + k * step;
      }
    }
  }

  /** Integer division is determined by the bracketing multiples. */
  lemma DivUnique(n: int, step: int, q: int)
    requires step > 0 && q * step <= n < (q + 1) * step
    ensures n / step == q
  {
    var q' := n / step;
    assert n == q' * step + n % step;
    if q' < q {
      MulMonotone(q', q - 1, step);
    } else if q' > q {
      MulMonotone(q + 1, q', step);
    }
  }

  lemma MulMonotone(a: int, b: int, step: int)
    requires a <= b && step > 0
    ensures a * step <= b * step
  {
    var d := b - a;
    assert b * step == a * step + d * step;
  }

  /** A range of n + 1 positions, one step shorter, counts one start fewer. */
  lemma CountStep(n: nat, step: nat)
    requires step > 0
    ensures (if step <= n then (n - step) / step + 1 else 0) + 1 == n / step + 1
  {
    if step <= n {
      DivStep(n, step);
    } else {
      DivUnique(n, step, 0);
    }
  }

  /** Removing one step from a count of at least one step removes one quotient. */
  lemma DivStep(n: nat, step: nat)
    requires 0 < step <= n
    ensures (n - step) / step + 1 == n / step
  {
    var q := (n - step) / step;
    assert n - step == q * step + (n - step) % step;
    DivUnique(n, step, q + 1);
  }

  /** The extractor's records: (len - window) / step + 1 full windows when
      the column holds at least one (none otherwise), the k-th starting at
      k*step, each of exactly `window` IPDs inside the column, tagged with
      the flow and scored from its own test values, in ascending start order. */
  lemma StatRecordsShape(ipd: seq<real>, window: nat, step: nat, flowName: string,
                         baseline: seq<real>, tests: Tests)
    requires step > 0
    ensures |StatRecords(ipd, window, step, flowName, baseline, tests)|
            == if |ipd| >= window then (|ipd| - window) / step + 1 else 0
    ensures forall k :: 0 <= k < |StatRecords(ipd, window, step, flowName, baseline, tests)| ==>
      var r := StatRecords(ipd, window, step, flowName, baseline, tests)[k];
      && r.windowStart == k * step
      && r.windowEnd == r.windowStart + window <= |ipd|
      && r.flow == flowName
      && r.suspicionScore == SuspicionScore(r.ksStat, r.ksPvalue, r.adStat, r.jsDivergence)
    ensures forall j, k :: 0 <= j < k < |StatRecords(ipd, window, step, flowName, baseline, tests)| ==>
      StatRecords(ipd, window, step, flowName, baseline, tests)[j].windowStart
      < StatRecords(ipd, window, step, flowName, baseline, tests)[k].windowStart
  {
    RecordsFromShape(ipd, window, step, 0, flowName, baseline, tests);
    var r := StatRecords(ipd, window, step, flowName, baseline, tests);
    assert forall k :: 0 <= k < |r| ==> r[k].windowStart == k * step;
    forall j, k | 0 <= j < k < |r| ensures r[j].windowStart < r[k].windowStart {
      MulMonotone(j + 1, k, step);
      assert (j + 1) * step == j * step + step;
      assert r[j].windowStart == j * step && r[k].windowStart == k * step;
    }
  }

  /** One record per start of range(0, len - window + 1, step), in range order. */
  method ExtractStatFeatures(ipd: seq<real>, window: nat, step: int, flowName: string,
                             baseline: seq<real>, tests: Tests) returns (results: seq<StatRecord>)
    requires step != 0
    ensures results == StatRecords(ipd, window, step, flowName, baseline, tests)
  {
    if step > 0 {
      results := ExtractAscending(ipd, window, step, flowName, baseline, tests);
    } else {
      results := ExtractDescending(ipd, window, -step, flowName, baseline, tests);
    }
  }

  /** The loop over range(0, len - window + 1, step) for a positive step. */
  method ExtractAscending(ipd: seq<real>, window: nat, step: nat, flowName: string,
                          baseline: seq<real>, tests: Tests) returns (results: seq<StatRecord>)
    requires step > 0
    ensures results == RecordsFrom(ipd, window, step, 0, flowName, baseline, tests)
  {
    results := [];
    var stop := |ipd| - window + 1;
    var start: nat := 0;
    while start < stop
      invariant results + RecordsFrom(ipd, window, step, start, flowName, baseline, tests)
                == RecordsFrom(ipd, window, step, 0, flowName, baseline, tests)
      decreases stop - start
    {
      var record := Record(ipd, start, window, flowName, baseline, tests);
      ghost var rest := RecordsFrom(ipd, window, step, start + step, flowName, baseline, tests);
      assert start + window <= |ipd|;
      assert RecordsFrom(ipd, window, step, start, flowName, baseline, tests) == [record] + rest;
      assert results + ([record] + rest) == (results + [record]) + rest;
      results := results + [record];
      start := start + step;
    }
    assert results + [] == results;
  }

  /** The loop over range(0, len - window + 1, -down) for a negative step. */
  method ExtractDescending(ipd: seq<real>, window: nat, down: nat, flowName: string,
                           baseline: seq<real>, tests: Tests) returns (results: seq<StatRecord>)
    requires down > 0
    ensures results == RecordsDown(ipd, window, down, 0, |ipd| - window + 1, flowName, baseline, tests)
  {
    results := [];
    var stop := |ipd| - window + 1;
    var start: int := 0;
    while start > stop
      invariant results + RecordsDown(ipd, window, down, start, stop, flowName, baseline, tests)
                == RecordsDown(ipd, window, down, 0, stop, flowName, baseline, tests)
      decreases start - stop
    {
      var record := Record(ipd, start, window, flowName, baseline, tests);
      ghost var rest := RecordsDown(ipd, window, down, start - down, stop, flowName, baseline, tests);
      assert RecordsDown(ipd, window, down, start, stop, flowName, baseline, tests) == [record] + rest;
      assert results + ([record] + rest) == (results + [record]) + rest;
      results := results + [record];
      start := start - down;
    }
    assert results + [] == results;
  }

  /** The body of the extraction loop for one start: slice, test, score. */
  method Record(ipd: seq<real>, start: int, window: nat, flowName: string,
                baseline: seq<real>, tests: Tests) returns (record: StatRecord)
    ensures record == WindowRecord(ipd, start, window, flowName, baseline, tests)
  {
    var end := start + window;
    var w := PySlice(ipd, start, end);
    var (ksStat, ksP) := tests.ks(w, baseline);
    var adStat := tests.ad(w);
    var jsd := tests.js(w, baseline);
    var score := SuspicionScore(ksStat, ksP, adStat, jsd);
    record := StatRecord(flowName, start, end, ksStat, ksP, adStat, jsd, score);
  }
}
