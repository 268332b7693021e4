/** The four feature groups computed from one IPD window (basic statistics,
    spectrum, autocorrelation, entropy). Each group degrades to all zeros on
    a window shorter than its minimum length instead of failing. */
module FeatureUtils {
  import opened Common

  const BasicMinLen := 2
  const FftMinLen := 4
  const EntropyMinLen := 5
  const DefaultMaxLag := 10
  const EntropyBins := 10
  const Epsilon := 0.000000001

  datatype BasicFeatures = BasicFeatures(mean: real, std: real, min: real, max: real,
                                         entropy: real, stdNorm: real)
  datatype FftFeatures = FftFeatures(domFreq: real, energyRatio: real, spectralEntropy: real)
  datatype AutocorrFeatures = AutocorrFeatures(acMax: real, acLag: real, acMean: real)
  datatype EntropyFeatures = EntropyFeatures(entropy: real, stdNorm: real)

  const ZeroBasic := BasicFeatures(0.0, 0.0, 0.0, 0.0, 0.0, 0.0)
  const ZeroFft := FftFeatures(0.0, 0.0, 0.0)
  const ZeroAutocorr := AutocorrFeatures(0.0, 0.0, 0.0)
  const ZeroEntropy := EntropyFeatures(0.0, 0.0)

  /** Entropy of the 10-bin density histogram, each bin lifted by 1e-9. */
  function HistEntropy(ipds: seq<real>, lib: Numerics): real
  {
    var hist := lib.histogram(ipds, EntropyBins);
    lib.entropy(seq(|hist|, i requires 0 <= i < |hist| => hist[i] + Epsilon))
  }

  /** Coefficient of variation std / (mean + 1e-9). The source's division
      by an exactly-zero denominator (mean == -1e-9) has no real value; the
      model yields 0 there. */
  function StdNorm(ipds: seq<real>, lib: Numerics): real
    requires |ipds| > 0
  {
    var denominator := Mean(ipds) + Epsilon;
    if denominator == 0.0 then 0.0 else Std(ipds, lib) / denominator
  }

  /** A constant window has coefficient of variation 0: its variance is 0. */
  lemma ConstantWindowStdNorm(ipds: seq<real>, lib: Numerics)
    requires lib.Sound() && |ipds| > 0 && Constant(ipds)
    ensures StdNorm(ipds, lib) == 0.0
  {
    ConstantMeanVariance(ipds);
  }

  function ComputeBasicFeatures(ipds: seq<real>, lib: Numerics): (f: BasicFeatures)
    ensures |ipds| < BasicMinLen ==> f == ZeroBasic
    ensures |ipds| >= BasicMinLen ==>
      && f.min in ipds && f.max in ipds
      && (forall i :: 0 <= i < |ipds| ==> f.min <= ipds[i] <= f.max)
      && f.min <= f.mean <= f.max
    ensures |ipds| >= BasicMinLen && lib.Sound() ==> f.std >= 0.0
    ensures |ipds| >= BasicMinLen && NonNegative(ipds) && lib.Sound() ==> f.stdNorm >= 0.0
  {
    if |ipds| < BasicMinLen then ZeroBasic
    else
      MeanBetweenMinMax(ipds);
      VarianceNonNegative(ipds);
      BasicFeatures(Mean(ipds), Std(ipds, lib), Min(ipds), Max(ipds),
                    HistEntropy(ipds, lib), StdNorm(ipds, lib))
  }

  /** The window with its mean subtracted. */
  function Centre(s: seq<real>): (x: seq<real>)
    requires |s| > 0
    ensures |x| == |s|
  {
    var m := Mean(s);
    seq(|s|, i requires 0 <= i < |s| => s[i] - m)
  }

  lemma ConstantCentresToZero(s: seq<real>)
    requires |s| > 0 && Constant(s)
    ensures forall i :: 0 <= i < |s| ==> Centre(s)[i] == 0.0
  {
    ConstantMeanVariance(s);
  }

  /** Spectral features from the power spectrum |rfft(x)|^2 of the centred
      window: the dominant non-zero bin, the energy of the first quarter of
      the bins over the rest, and the entropy of the normalised spectrum. */
  function ComputeFftFeatures(ipd: seq<real>, lib: Numerics): (f: FftFeatures)
    requires lib.Sound()
    ensures |ipd| < FftMinLen ==> f == ZeroFft
    ensures |ipd| >= FftMinLen && Sum(lib.power(Centre(ipd))) == 0.0 ==> f == ZeroFft
    ensures |ipd| >= FftMinLen && Sum(lib.power(Centre(ipd))) != 0.0 ==>
      && 1.0 <= f.domFreq <= (|lib.power(Centre(ipd))| - 1) as real
      && f.energyRatio >= 0.0
  {
    if |ipd| < FftMinLen then ZeroFft
    else
      var p := lib.power(Centre(ipd));
      var total := Sum(p);
      if total == 0.0 then ZeroFft
      else
        var dom := ArgMax(p[1..]) + 1;
        var quarter := |p| / 4;
        var low := Sum(p[..quarter]);
        var high := Sum(p[quarter..]);
        assert NonNegative(p[..quarter]) && NonNegative(p[quarter..]);
        SumNonNegative(p[..quarter]);
        SumNonNegative(p[quarter..]);
        FftFeatures(dom as real, low / (high + Epsilon),
                    lib.entropy(seq(|p|, i requires 0 <= i < |p| => p[i] / total)))
  }

  /** Lag-k term of the full self-correlation of x. */
  function Lagged(x: seq<real>, k: nat): real
    requires k < |x|
  {
    Sum(seq(|x| - k, i requires 0 <= i < |x| - k => x[i] * x[i + k]))
  }

  /** The non-negative half of correlate(x, x, "full"): lags 0 .. |x|-1. */
  function Correlation(x: seq<real>): (c: seq<real>)
    ensures |c| == |x|
  {
    seq(|x|, k requires 0 <= k < |x| => Lagged(x, k))
  }

  /** Correlation divided by its maximum, or by 1 when the maximum is 0. */
  function Normalised(c: seq<real>): (n: seq<real>)
    requires |c| > 0
    ensures |n| == |c|
    ensures Max(c) > 0.0 ==> forall i :: 0 <= i < |n| ==> n[i] <= 1.0
  {
    var m := Max(c);
    var d := if m != 0.0 then m else 1.0;
    seq(|c|, i requires 0 <= i < |c| => c[i] / d)
  }

  /** Autocorrelation features over lags 1 .. maxLag: the largest normalised
      value, the (first) lag where it occurs, and the mean. */
  function ComputeAutocorrFeatures(ipd: seq<real>, maxLag: nat): (f: AutocorrFeatures)
    requires maxLag >= 1
    ensures |ipd| < maxLag + 2 ==> f == ZeroAutocorr
    ensures |ipd| >= maxLag + 2 ==> 1.0 <= f.acLag <= maxLag as real
    ensures |ipd| >= maxLag + 2 && Max(Correlation(Centre(ipd))) > 0.0
            ==> f.acMax <= 1.0 && f.acMean <= 1.0
  {
    if |ipd| < maxLag + 2 then ZeroAutocorr
    else
      var norm := Normalised(Correlation(Centre(ipd)));
      var ac := norm[1..maxLag + 1];
      MeanBetweenMinMax(ac);
      AutocorrFeatures(Max(ac), (ArgMax(ac) + 1) as real, Mean(ac))
  }

  /** A constant window long enough to score centres to zero, so every
      correlation is 0, the divide-by-1 fallback applies, and the result is
      ac_max = ac_mean = 0 at lag 1. */
  lemma ConstantWindowAutocorr(ipd: seq<real>, maxLag: nat)
    requires maxLag >= 1 && |ipd| >= maxLag + 2 && Constant(ipd)
    ensures ComputeAutocorrFeatures(ipd, maxLag) == AutocorrFeatures(0.0, 1.0, 0.0)
  {
    ConstantCentresToZero(ipd);
    var c := Correlation(Centre(ipd));
    ZeroCorrelation(Centre(ipd));
    var norm := Normalised(c);
    ZeroNormalised(c);
    var ac := norm[1..maxLag + 1];
    ZeroLagSummary(ac);
  }

  lemma ZeroCorrelation(x: seq<real>)
    requires forall i :: 0 <= i < |x| ==> x[i] == 0.0
    ensures forall k :: 0 <= k < |x| ==> Correlation(x)[k] == 0.0
  {
    forall k | 0 <= k < |x| ensures Correlation(x)[k] == 0.0 {
      var terms := seq(|x| - k, i requires 0 <= i < |x| - k => x[i] * x[i + k]);
      SumConstant(terms, 0.0);
    }
  }

  lemma ZeroNormalised(c: seq<real>)
    requires |c| > 0 && forall i :: 0 <= i < |c| ==> c[i] == 0.0
    ensures forall i :: 0 <= i < |c| ==> Normalised(c)[i] == 0.0
  {
    assert Max(c) == 0.0;
  }

  lemma ZeroLagSummary(ac: seq<real>)
    requires |ac| > 0 && forall i :: 0 <= i < |ac| ==> ac[i] == 0.0
    ensures Max(ac) == 0.0 && ArgMax(ac) == 0 && Mean(ac) == 0.0
  {
    SumConstant(ac, 0.0);
    var k := ArgMax(ac);
    assert ac[k] == 0.0 && ac[0] == 0.0;
    assert !(ac[0] < ac[k]);
    assert Max(ac) in ac;
  }

  /** The compatibility group: histogram entropy and coefficient of variation. */
  function ComputeEntropyFeatures(ipd: seq<real>, lib: Numerics): (f: EntropyFeatures)
    ensures |ipd| < EntropyMinLen ==> f == ZeroEntropy
    ensures |ipd| >= EntropyMinLen ==>
      f.entropy == ComputeBasicFeatures(ipd, lib).entropy && f.stdNorm == ComputeBasicFeatures(ipd, lib).stdNorm
  {
    if |ipd| < EntropyMinLen then ZeroEntropy
    else EntropyFeatures(HistEntropy(ipd, lib), StdNorm(ipd, lib))
  }
}
