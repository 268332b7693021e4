/** Isolation-forest risk: the forest's per-window normality scores
    (higher means more normal) are rescaled min-max to an anomaly risk in
    (0, 100], the least normal window getting 100. */
module IforestDetect {
  import opened Common
  import opened RiskEngine

  /** The guard added to the score range so that it is never zero. */
  const Epsilon := 0.000000001

  /** The risk of one score, given the smallest and largest score. */
  function RiskOf(s: real, lo: real, hi: real): real
    requires lo <= hi
  {
    (1.0 - (s - lo) / (hi - lo + Epsilon)) * 100.0
  }

  /** The risks of a score array, position by position. numpy's min and max
      of an empty array raise, which is None here. */
  function IforestRisk(scores: seq<real>): (r: Option<seq<real>>)
    ensures r.None? <==> |scores| == 0
    ensures r.Some? ==> |r.value| == |scores|
  {
    if |scores| == 0 then None
    else
      var lo, hi := Min(scores), Max(scores);
      Some(seq(|scores|, i requires 0 <= i < |scores| => RiskOf(scores[i], lo, hi)))
  }

  /** A score within [lo, hi] has a risk in (0, 100]; the epsilon keeps the
      risk of the largest score above 0. */
  lemma RiskOfBounds(s: real, lo: real, hi: real)
    requires lo <= s <= hi
    ensures 0.0 < RiskOf(s, lo, hi) <= 100.0
  {
    var d := hi - lo + Epsilon;
    DivBounds(s - lo, d, 0.0, (hi - lo) / d);
    assert (hi - lo) / d < 1.0 by {
      DivBounds(hi - lo, d, 0.0, 1.0);
      assert (hi - lo) / d * d == hi - lo;
    }
  }

  /** A higher score never gets a higher risk. */
  lemma RiskOfAntiMonotone(s: real, t: real, lo: real, hi: real)
    requires lo <= hi && s <= t
    ensures RiskOf(t, lo, hi) <= RiskOf(s, lo, hi)
  {
    var d := hi - lo + Epsilon;
    DivBounds(t - lo - (s - lo), d, 0.0, (t - s) / d);
    assert (t - lo) / d - (s - lo) / d == (t - s) / d;
  }

  /** Every risk lies in (0, 100]. */
  lemma IforestRiskRange(scores: seq<real>)
    ensures IforestRisk(scores).Some? ==>
      forall i :: 0 <= i < |scores| ==> 0.0 < IforestRisk(scores).value[i] <= 100.0
  {
    if |scores| > 0 {
      var r := IforestRisk(scores).value;
      forall i | 0 <= i < |scores| ensures 0.0 < r[i] <= 100.0 {
        RiskOfBounds(scores[i], Min(scores), Max(scores));
      }
    }
  }

  /** A window with the smallest score gets risk 100. */
  lemma MinScoreFullRisk(scores: seq<real>, i: nat)
    requires i < |scores| && forall j :: 0 <= j < |scores| ==> scores[i] <= scores[j]
    ensures IforestRisk(scores).Some? && IforestRisk(scores).value[i] == 100.0
  {
    assert Min(scores) == scores[i];
  }

  /** Risk is anti-monotone in the score. */
  lemma IforestRiskAntiMonotone(scores: seq<real>, i: nat, j: nat)
    requires i < |scores| && j < |scores| && scores[i] <= scores[j]
    ensures IforestRisk(scores).Some?
    ensures IforestRisk(scores).value[j] <= IforestRisk(scores).value[i]
  {
    RiskOfAntiMonotone(scores[i], scores[j], Min(scores), Max(scores));
  }

  /** When every score is the same, every risk is 100. */
  lemma EqualScoresFullRisk(scores: seq<real>)
    requires |scores| > 0 && Constant(scores)
    ensures IforestRisk(scores).Some?
    ensures forall i :: 0 <= i < |scores| ==> IforestRisk(scores).value[i] == 100.0
  {
    forall i | 0 <= i < |scores| ensures IforestRisk(scores).value[i] == 100.0 {
      MinScoreFullRisk(scores, i);
    }
  }

  /** The risk table written out: each feature window's key with its risk,
      row for row. */
  function RiskRows(keys: seq<WindowKey>, scores: seq<real>): (r: Option<seq<IforestRow>>)
    requires |keys| == |scores|
    ensures r.None? <==> |scores| == 0
  {
    match IforestRisk(scores)
    case None => None
    case Some(risk) => Some(seq(|keys|, i requires 0 <= i < |keys| => IforestRow(keys[i], risk[i])))
  }

  /** The risks align one-to-one with the input windows. */
  lemma RiskRowsAligned(keys: seq<WindowKey>, scores: seq<real>)
    requires |keys| == |scores| && |scores| > 0
    ensures var r := RiskRows(keys, scores).value;
      && |r| == |keys|
      && forall i :: 0 <= i < |r| ==>
           r[i].key == keys[i] && r[i].iforestRisk == IforestRisk(scores).value[i]
  {
  }
}
