/** The fusion engine: the three per-window scores (classifier probability,
    statistical suspicion, isolation-forest risk) are inner-joined on the
    window key, fused by a fixed weighted sum into a final risk, labelled
    with one of three decision bands, and explained signal by signal. */
module RiskEngine {

  datatype Decision = Normal | Suspicious | LikelyCovert
  {
    /** The label written to the report. */
    function Text(): string
    {
      match this
      case Normal => "Normal"
      case Suspicious => "Suspicious"
      case LikelyCovert => "Likely Covert"
    }

    /** Position of the band, from least to most severe. */
    function Rank(): nat
    {
      match this
      case Normal => 0
      case Suspicious => 1
      case LikelyCovert => 2
    }
  }

  const MlReason := "ML model strongly predicts covert behavior"
  const StatReason := "Statistical tests indicate abnormal timing"
  const IforestReason := "Unsupervised model flags anomalous behavior"
  const NoAnomaly := "No strong anomaly detected"
  const ReasonSeparator := "; "

  /** The fused risk: 50% classifier, 30% statistics, 20% isolation forest. */
  function FinalRisk(mlProb: real, suspicion: real, iforestRisk: real): (r: real)
    ensures 0.0 <= mlProb <= 100.0 && 0.0 <= suspicion <= 100.0 && 0.0 <= iforestRisk <= 100.0
            ==> 0.0 <= r <= 100.0
    ensures MinReal3(mlProb, suspicion, iforestRisk) <= r <= MaxReal3(mlProb, suspicion, iforestRisk)
  {
    0.50 * mlProb + 0.30 * suspicion + 0.20 * iforestRisk
  }

  function MinReal3(a: real, b: real, c: real): real
  {
    if a <= b && a <= c then a else if b <= c then b else c
  }

  function MaxReal3(a: real, b: real, c: real): real
  {
    if a >= b && a >= c then a else if b >= c then b else c
  }

  /** Raising any one input (the others fixed) never lowers the fused risk. */
  lemma FinalRiskMonotone(mlProb: real, suspicion: real, iforestRisk: real,
                          mlProb': real, suspicion': real, iforestRisk': real)
    requires mlProb <= mlProb' && suspicion <= suspicion' && iforestRisk <= iforestRisk'
    ensures FinalRisk(mlProb, suspicion, iforestRisk) <= FinalRisk(mlProb', suspicion', iforestRisk')
  {
  }

  /** The decision band; a score on a boundary takes the higher band. */
  function Label(score: real): (d: Decision)
    ensures d == Normal <==> score < 30.0
    ensures d == Suspicious <==> 30.0 <= score < 60.0
    ensures d == LikelyCovert <==> score >= 60.0
  {
    if score < 30.0 then Normal
    else if score < 60.0 then Suspicious
    else LikelyCovert
  }

  /** A higher score never yields a lower band. */
  lemma LabelMonotone(a: real, b: real)
    requires a <= b
    ensures Label(a).Rank() <= Label(b).Rank()
  {
  }

  /** Order in which reasons are reported: classifier, statistics, forest. */
  function ReasonRank(reason: string): nat
  {
    if reason == MlReason then 0 else if reason == StatReason then 1 else 2
  }

  /** The per-signal reasons, each on a strict threshold, in fixed order. */
  function Reasons(mlProb: real, suspicion: real, iforestRisk: real): (r: seq<string>)
    ensures MlReason in r <==> mlProb > 70.0
    ensures StatReason in r <==> suspicion > 40.0
    ensures IforestReason in r <==> iforestRisk > 60.0
    ensures forall x :: x in r ==> x == MlReason || x == StatReason || x == IforestReason
    ensures forall i, j :: 0 <= i < j < |r| ==> ReasonRank(r[i]) < ReasonRank(r[j])
  {
    (if mlProb > 70.0 then [MlReason] else [])
    + (if suspicion > 40.0 then [StatReason] else [])
    + (if iforestRisk > 60.0 then [IforestReason] else [])
  }

  /** Python's sep.join(parts). */
  function JoinWith(parts: seq<string>, sep: string): (r: string)
    ensures |parts| > 0 ==> parts[0] <= r
    ensures |parts| == 0 ==> r == []
  {
    if |parts| == 0 then []
    else if |parts| == 1 then parts[0]
    else parts[0] + sep + JoinWith(parts[1..], sep)
  }

  /** The explanation of one fused row. */
  function Explain(mlProb: real, suspicion: real, iforestRisk: real): (e: string)
    ensures e == NoAnomaly <==> mlProb <= 70.0 && suspicion <= 40.0 && iforestRisk <= 60.0
    ensures e != NoAnomaly ==> e == JoinWith(Reasons(mlProb, suspicion, iforestRisk), ReasonSeparator)
  {
    var reasons := Reasons(mlProb, suspicion, iforestRisk);
    if |reasons| > 0 then
      assert reasons[0] in reasons;
      assert reasons[0][0] in {'M', 'S', 'U'} by {
        assert MlReason[0] == 'M' && StatReason[0] == 'S' && IforestReason[0] == 'U';
      }
      assert NoAnomaly[0] == 'N';
      assert reasons[0] <= JoinWith(reasons, ReasonSeparator);
      JoinWith(reasons, ReasonSeparator)
    else NoAnomaly
  }

  /** A "Likely Covert" decision always comes with at least one reason:
      with every signal at or below its reason threshold the fused risk is
      at most 59. */
  lemma CovertHasReason(mlProb: real, suspicion: real, iforestRisk: real)
    ensures Reasons(mlProb, suspicion, iforestRisk) == [] ==> FinalRisk(mlProb, suspicion, iforestRisk) <= 59.0
    ensures Label(FinalRisk(mlProb, suspicion, iforestRisk)) == LikelyCovert
            ==> Reasons(mlProb, suspicion, iforestRisk) != [] && Explain(mlProb, suspicion, iforestRisk) != NoAnomaly
  {
  }

  // ----- the three score tables and their inner join -----

  datatype WindowKey = WindowKey(flow: string, windowStart: int, windowEnd: int)

  datatype MlRow = MlRow(key: WindowKey, mlProb: real)
  datatype StatRow = StatRow(key: WindowKey, suspicionScore: real, ksPvalue: real,
                             adStat: real, jsDivergence: real)
  datatype IforestRow = IforestRow(key: WindowKey, iforestRisk: real)

  datatype FusedRow = FusedRow(key: WindowKey, mlProb: real, suspicionScore: real,
                               ksPvalue: real, adStat: real, jsDivergence: real,
                               iforestRisk: real, finalRisk: real, decision: Decision)

  /** The rows of bs whose key equals a's, each paired with a, in bs's order. */
  function Matches<A(==), B(==)>(a: A, bs: seq<B>, ka: A -> WindowKey, kb: B -> WindowKey): (r: seq<(A, B)>)
    ensures forall p :: p in r ==> p.0 == a && p.1 in bs && kb(p.1) == ka(a)
    ensures forall b :: b in bs && kb(b) == ka(a) ==> (a, b) in r
  {
    if |bs| == 0 then []
    else
      var rest := Matches(a, bs[1..], ka, kb);
      assert forall b :: b in bs ==> b == bs[0] || b in bs[1..];
      (if kb(bs[0]) == ka(a) then [(a, bs[0])] else []) + rest
  }

  /** Inner join on the window key: every matching pair, left order first. */
  function Join<A(==), B(==)>(left: seq<A>, bs: seq<B>, ka: A -> WindowKey, kb: B -> WindowKey): (r: seq<(A, B)>)
    ensures forall p :: p in r ==> p.0 in left && p.1 in bs && ka(p.0) == kb(p.1)
    ensures forall a, b :: a in left && b in bs && ka(a) == kb(b) ==> (a, b) in r
  {
    if |left| == 0 then []
    else
      var rest := Join(left[1..], bs, ka, kb);
      assert forall a :: a in left ==> a == left[0] || a in left[1..];
      Matches(left[0], bs, ka, kb) + rest
  }

  function MlKey(m: MlRow): WindowKey { m.key }
  function StatKey(s: StatRow): WindowKey { s.key }
  function IforestKey(i: IforestRow): WindowKey { i.key }
  function PairKey(p: (MlRow, StatRow)): WindowKey { p.0.key }

  function Fuse(t: ((MlRow, StatRow), IforestRow)): FusedRow
  {
    var (ms, i) := t;
    var (m, s) := ms;
    var risk := FinalRisk(m.mlProb, s.suspicionScore, i.iforestRisk);
    FusedRow(m.key, m.mlProb, s.suspicionScore, s.ksPvalue, s.adStat, s.jsDivergence,
             i.iforestRisk, risk, Label(risk))
  }

  /** Inner join of the three tables on (flow, window_start, window_end),
      then the weighted risk and the decision of every joined row. */
  function FuseScores(ml: seq<MlRow>, stat: seq<StatRow>, iforest: seq<IforestRow>): (r: seq<FusedRow>)
    ensures |r| == |Join(Join(ml, stat, MlKey, StatKey), iforest, PairKey, IforestKey)|
  {
    var joined := Join(Join(ml, stat, MlKey, StatKey), iforest, PairKey, IforestKey);
    seq(|joined|, i requires 0 <= i < |joined| => Fuse(joined[i]))
  }

  /** A window key is in the fused table exactly when all three tables have it. */
  lemma FuseScoresKeys(ml: seq<MlRow>, stat: seq<StatRow>, iforest: seq<IforestRow>)
    ensures forall k :: k in KeysOf(FuseScores(ml, stat, iforest))
                        <==> k in MlKeys(ml) && k in StatKeys(stat) && k in IforestKeys(iforest)
  {
    var joined := Join(Join(ml, stat, MlKey, StatKey), iforest, PairKey, IforestKey);
    var r := FuseScores(ml, stat, iforest);
    assert forall i :: 0 <= i < |r| ==> r[i] == Fuse(joined[i]) && joined[i] in joined;
    forall k | k in MlKeys(ml) && k in StatKeys(stat) && k in IforestKeys(iforest)
      ensures k in KeysOf(r)
    {
      var i := JoinedRowWithKey(ml, stat, iforest, k);
      assert r[i] in r;
    }
  }

  /** Every fused row carries the scores of rows of the three tables with
      its key, and the weighted risk and decision of those scores. */
  lemma FuseScoresRows(ml: seq<MlRow>, stat: seq<StatRow>, iforest: seq<IforestRow>)
    ensures var r := FuseScores(ml, stat, iforest);
      forall i :: 0 <= i < |r| ==>
        && MlRow(r[i].key, r[i].mlProb) in ml
        && StatRow(r[i].key, r[i].suspicionScore, r[i].ksPvalue, r[i].adStat, r[i].jsDivergence) in stat
        && IforestRow(r[i].key, r[i].iforestRisk) in iforest
        && r[i].finalRisk == FinalRisk(r[i].mlProb, r[i].suspicionScore, r[i].iforestRisk)
        && r[i].decision == Label(r[i].finalRisk)
  {
    var joined := Join(Join(ml, stat, MlKey, StatKey), iforest, PairKey, IforestKey);
    var r := FuseScores(ml, stat, iforest);
    assert forall i :: 0 <= i < |r| ==> r[i] == Fuse(joined[i]) && joined[i] in joined;
  }

  /** A key present in all three tables has a joined row; `i` is its index. */
  lemma JoinedRowWithKey(ml: seq<MlRow>, stat: seq<StatRow>, iforest: seq<IforestRow>, k: WindowKey)
    returns (i: nat)
    requires k in MlKeys(ml) && k in StatKeys(stat) && k in IforestKeys(iforest)
    ensures var joined := Join(Join(ml, stat, MlKey, StatKey), iforest, PairKey, IforestKey);
      i < |joined| && Fuse(joined[i]).key == k
  {
    var m :| m in ml && m.key == k;
    var s :| s in stat && s.key == k;
    var f :| f in iforest && f.key == k;
    assert (m, s) in Join(ml, stat, MlKey, StatKey);
    var joined := Join(Join(ml, stat, MlKey, StatKey), iforest, PairKey, IforestKey);
    assert ((m, s), f) in joined;
    i :| i < |joined| && joined[i] == ((m, s), f);
  }

  function KeysOf(r: seq<FusedRow>): set<WindowKey> { set x | x in r :: x.key }
  function MlKeys(t: seq<MlRow>): set<WindowKey> { set x | x in t :: x.key }
  function StatKeys(t: seq<StatRow>): set<WindowKey> { set x | x in t :: x.key }
  function IforestKeys(t: seq<IforestRow>): set<WindowKey> { set x | x in t :: x.key }
}
