/** The statistical test engine: a rule-weighted suspicion score built
    from a two-sample Kolmogorov-Smirnov test, an Anderson-Darling
    goodness-of-fit statistic against the exponential distribution and a
    Jensen-Shannon divergence; the real-time KS risk; and the histogram
    normalisation the divergence is computed on. The tests themselves are
    library routines and enter the model as values or function parameters. */
module StatTests {
  import opened Common

  const KsAlpha := 0.05
  const MinRealtimeIpds := 10
  const HistBins := 20
  const HistFloor := 0.000000001

  /** The part of the score contributed by the KS test: only when the test
      rejects equality of the distributions. */
  function KsPart(ksStat: real, ksP: real): real
  {
    if ksP < KsAlpha then MinReal(ksStat * 40.0, 40.0) else 0.0
  }

  /** The suspicion score of one window, capped at 100. */
  function SuspicionScore(ksStat: real, ksP: real, adStat: real, jsd: real): (r: real)
    ensures r <= 100.0
    ensures ksStat >= 0.0 && adStat >= 0.0 && jsd >= 0.0 ==> r >= 0.0
    ensures ksP >= KsAlpha ==> r <= 60.0
  {
    var score := 0.0;
    var score := score + KsPart(ksStat, ksP);
    var score := score + MinReal(adStat * 5.0, 25.0);
    var score := score + MinReal(jsd * 100.0, 35.0);
    MinReal(100.0, score)
  }

  /** The three caps sum to exactly 100, so the final cap never binds. */
  lemma SuspicionCapRedundant(ksStat: real, ksP: real, adStat: real, jsd: real)
    ensures SuspicionScore(ksStat, ksP, adStat, jsd)
            == KsPart(ksStat, ksP) + MinReal(adStat * 5.0, 25.0) + MinReal(jsd * 100.0, 35.0)
  {
  }

  /** When the KS test does not reject (p >= 0.05), its statistic is ignored. */
  lemma SuspicionPValueGate(ksStat: real, ksStat': real, ksP: real, adStat: real, jsd: real)
    requires ksP >= KsAlpha
    ensures SuspicionScore(ksStat, ksP, adStat, jsd) == SuspicionScore(ksStat', ksP, adStat, jsd)
  {
  }

  /** For a fixed p-value the score never drops when a statistic grows. */
  lemma SuspicionMonotone(ksStat: real, ksStat': real, ksP: real, adStat: real, adStat': real,
                          jsd: real, jsd': real)
    requires ksStat <= ksStat' && adStat <= adStat' && jsd <= jsd'
    ensures SuspicionScore(ksStat, ksP, adStat, jsd) <= SuspicionScore(ksStat', ksP, adStat', jsd')
  {
  }

  /** The baseline of the real-time score: the given sample, or else the
      first half of the window itself. */
  function EffectiveBaseline(ipds: seq<real>, baseline: Option<seq<real>>): (b: seq<real>)
    ensures baseline.Some? ==> b == baseline.value
    ensures baseline.None? ==> b <= ipds && |b| == |ipds| / 2
  {
    match baseline
    case Some(given) => given
    case None => ipds[..|ipds| / 2]
  }

  /** The real-time statistical risk: the two-sample KS statistic against the
      baseline, as a percentage capped at 100; 0 for windows under 10 IPDs.
      `ks` is the library's two-sample KS test, returning (statistic, p-value). */
  function ComputeStatScores(ipds: seq<real>, baseline: Option<seq<real>>,
                             ks: (seq<real>, seq<real>) -> (real, real)): (r: real)
    ensures |ipds| < MinRealtimeIpds ==> r == 0.0
    ensures r <= 100.0
    ensures |ipds| >= MinRealtimeIpds
            ==> (r == 100.0 <==> ks(ipds, EffectiveBaseline(ipds, baseline)).0 >= 1.0)
    ensures |ipds| >= MinRealtimeIpds && ks(ipds, EffectiveBaseline(ipds, baseline)).0 >= 0.0
            ==> r >= 0.0
  {
    if |ipds| < MinRealtimeIpds then 0.0
    else
      var (ksStat, _) := ks(ipds, EffectiveBaseline(ipds, baseline));
      MinReal(ksStat * 100.0, 100.0)
  }

  /** A self-baseline is never empty once the window is long enough to score. */
  lemma SelfBaselineNonEmpty(ipds: seq<real>)
    requires |ipds| >= MinRealtimeIpds
    ensures |EffectiveBaseline(ipds, None)| >= MinRealtimeIpds / 2
  {
  }

  /** The histogram of x as a probability vector: every bin is lifted by a
      tiny floor and the bins are divided by their total. */
  function NormalizeHist(x: seq<real>, lib: Numerics): (r: seq<real>)
    requires lib.Sound()
    ensures |r| == HistBins
    ensures forall i :: 0 <= i < |r| ==> r[i] > 0.0
    ensures Sum(r) == 1.0
  {
    var hist := lib.histogram(x, HistBins);
    var lifted := seq(|hist|, i requires 0 <= i < |hist| => hist[i] + HistFloor);
    var total := Sum(lifted);
    NormalizedSumsToOne(hist, lifted);
    seq(|lifted|, i requires 0 <= i < |lifted| => lifted[i] / total)
  }

  lemma NormalizedSumsToOne(hist: seq<real>, lifted: seq<real>)
    requires |hist| > 0 && NonNegative(hist)
    requires |lifted| == |hist|
    requires forall i :: 0 <= i < |hist| ==> lifted[i] == hist[i] + HistFloor
    ensures Sum(lifted) > 0.0
    ensures Sum(seq(|lifted|, i requires 0 <= i < |lifted| => lifted[i] / Sum(lifted))) == 1.0
  {
    SumShift(hist, lifted, HistFloor);
    SumNonNegative(hist);
    var total := Sum(lifted);
    var r := seq(|lifted|, i requires 0 <= i < |lifted| => lifted[i] / total);
    assert forall i :: 0 <= i < |lifted| ==> r[i] == lifted[i] * (1.0 / total);
    SumScale(lifted, r, 1.0 / total);
  }
}
