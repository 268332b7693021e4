/** The real-time detector: every captured IP packet is labelled with a
    protocol, appended to its flow's timestamp buffer, and once the buffer
    holds a full window the last 40 timestamps are turned into features,
    scored by the classifier, and alerted on or blocked by threshold. */
module RealtimeDetector {
  import opened Common
  import opened FeatureUtils

  const WindowSize := 40
  const RiskThreshold := 60.0
  const BlockThreshold := 70.0

  datatype Ports = Ports(sport: int, dport: int)
  {
    predicate Uses(port: int) { sport == port || dport == port }
  }

  /** A captured packet, reduced to what the detector reads: whether it has
      an IP layer, its addresses, and which transport layers it carries. */
  datatype Packet = Packet(hasIp: bool, src: string, dst: string,
                           hasIcmp: bool, tcp: Option<Ports>, udp: Option<Ports>)

  datatype Protocol = Icmp | Http | Https | Ssl | Tcp | Dns | Udp | Other
  {
    function Name(): string
    {
      match this
      case Icmp => "ICMP"
      case Http => "HTTP"
      case Https => "HTTPS"
      case Ssl => "SSL"
      case Tcp => "TCP"
      case Dns => "DNS"
      case Udp => "UDP"
      case Other => "OTHER"
    }
  }

  /** The protocol label from the packet's layers and ports. The third TCP
      test repeats the 443 test before it, so SSL is never returned. */
  function DetectProtocol(p: Packet): (r: Protocol)
    ensures r == Icmp <==> p.hasIcmp
    ensures r == Http <==> !p.hasIcmp && p.tcp.Some? && p.tcp.value.Uses(80)
    ensures r == Https <==> !p.hasIcmp && p.tcp.Some? && !p.tcp.value.Uses(80) && p.tcp.value.Uses(443)
    ensures r == Tcp <==> !p.hasIcmp && p.tcp.Some? && !p.tcp.value.Uses(80) && !p.tcp.value.Uses(443)
    ensures r == Dns <==> !p.hasIcmp && p.tcp.None? && p.udp.Some? && p.udp.value.Uses(53)
    ensures r == Udp <==> !p.hasIcmp && p.tcp.None? && p.udp.Some? && !p.udp.value.Uses(53)
    ensures r == Other <==> !p.hasIcmp && p.tcp.None? && p.udp.None?
    ensures r != Ssl
  {
    if p.hasIcmp then Icmp
    else if p.tcp.Some? then
      var ports := p.tcp.value;
      if ports.sport == 80 || ports.dport == 80 then Http
      else if ports.sport == 443 || ports.dport == 443 then Https
      else if ports.sport == 443 || ports.dport == 443 then Ssl
      else Tcp
    else if p.udp.Some? then
      var ports := p.udp.value;
      if ports.sport == 53 || ports.dport == 53 then Dns
      else Udp
    else Other
  }

  /** The flow key "src_dst_label". */
  function FlowKey(src: string, dst: string, proto: Protocol): string
  {
    src + "_" + dst + "_" + proto.Name()
  }

  /** Different protocols have different labels. */
  lemma NameInjective(p: Protocol, q: Protocol)
    ensures p.Name() == q.Name() <==> p == q
  {
    if p != q {
      assert (|p.Name()|, p.Name()[0]) != (|q.Name()|, q.Name()[0]);
    }
  }

  /** Packets between the same two hosts but of different protocols are
      kept in different flows, whatever the addresses look like. */
  lemma FlowKeySeparatesLabels(src: string, dst: string, p: Protocol, q: Protocol)
    requires p != q
    ensures FlowKey(src, dst, p) != FlowKey(src, dst, q)
  {
    var prefix := src + "_" + dst + "_";
    NameInjective(p, q);
    assert FlowKey(src, dst, p)[|prefix|..] == p.Name();
    assert FlowKey(src, dst, q)[|prefix|..] == q.Name();
  }

  /** For addresses without '_' (IPv4 and IPv6 text has none), two packets
      share a flow exactly when source, destination and protocol all agree;
      in particular the key is directed, so A to B and B to A are two
      flows. */
  lemma FlowKeyInjective(src: string, dst: string, p: Protocol,
                         src': string, dst': string, q: Protocol)
    requires '_' !in src && '_' !in dst && '_' !in src' && '_' !in dst'
    ensures FlowKey(src, dst, p) == FlowKey(src', dst', q) <==> src == src' && dst == dst' && p == q
  {
    assert FlowKey(src, dst, p) == src + "_" + (dst + "_" + p.Name());
    assert FlowKey(src', dst', q) == src' + "_" + (dst' + "_" + q.Name());
    UnderscoreJoinInjective(src, dst + "_" + p.Name(), src', dst' + "_" + q.Name());
    UnderscoreJoinInjective(dst, p.Name(), dst', q.Name());
    NameInjective(p, q);
  }

  function PacketFlow(p: Packet): string
  {
    FlowKey(p.src, p.dst, DetectProtocol(p))
  }

  /** The feature dictionary of one window: the four groups merged in order,
      later groups overwriting earlier keys of the same name. */
  function FeatureMap(ipds: seq<real>, lib: Numerics): (m: map<string, real>)
    requires lib.Sound()
    ensures m.Keys == FeatureNames
    ensures m["ipd_entropy"] == ComputeEntropyFeatures(ipds, lib).entropy
    ensures m["ipd_std_norm"] == ComputeEntropyFeatures(ipds, lib).stdNorm
    ensures m["ipd_mean"] == ComputeBasicFeatures(ipds, lib).mean
    ensures m["ipd_std"] == ComputeBasicFeatures(ipds, lib).std
    ensures m["ipd_min"] == ComputeBasicFeatures(ipds, lib).min
    ensures m["ipd_max"] == ComputeBasicFeatures(ipds, lib).max
    ensures m["fft_dom_freq"] == ComputeFftFeatures(ipds, lib).domFreq
    ensures m["fft_energy_ratio"] == ComputeFftFeatures(ipds, lib).energyRatio
    ensures m["fft_spectral_entropy"] == ComputeFftFeatures(ipds, lib).spectralEntropy
    ensures m["ac_max"] == ComputeAutocorrFeatures(ipds, DefaultMaxLag).acMax
    ensures m["ac_lag"] == ComputeAutocorrFeatures(ipds, DefaultMaxLag).acLag
    ensures m["ac_mean"] == ComputeAutocorrFeatures(ipds, DefaultMaxLag).acMean
  {
    MergeGroups(ComputeBasicFeatures(ipds, lib), ComputeFftFeatures(ipds, lib),
                ComputeAutocorrFeatures(ipds, DefaultMaxLag), ComputeEntropyFeatures(ipds, lib))
  }

  function MergeGroups(b: BasicFeatures, f: FftFeatures, a: AutocorrFeatures, e: EntropyFeatures)
    : (m: map<string, real>)
    ensures m.Keys == FeatureNames
    ensures m["ipd_entropy"] == e.entropy && m["ipd_std_norm"] == e.stdNorm
    ensures m["ipd_mean"] == b.mean && m["ipd_std"] == b.std && m["ipd_min"] == b.min && m["ipd_max"] == b.max
    ensures m["fft_dom_freq"] == f.domFreq && m["fft_energy_ratio"] == f.energyRatio
            && m["fft_spectral_entropy"] == f.spectralEntropy
    ensures m["ac_max"] == a.acMax && m["ac_lag"] == a.acLag && m["ac_mean"] == a.acMean
  {
    var basic := map["ipd_mean" := b.mean, "ipd_std" := b.std, "ipd_min" := b.min, "ipd_max" := b.max,
                     "ipd_entropy" := b.entropy, "ipd_std_norm" := b.stdNorm];
    var withFft := basic["fft_dom_freq" := f.domFreq]["fft_energy_ratio" := f.energyRatio]
                        ["fft_spectral_entropy" := f.spectralEntropy];
    var withAc := withFft["ac_max" := a.acMax]["ac_lag" := a.acLag]["ac_mean" := a.acMean];
    withAc["ipd_entropy" := e.entropy]["ipd_std_norm" := e.stdNorm]
  }

  const FeatureNames: set<string> :=
    {"ipd_mean", "ipd_std", "ipd_min", "ipd_max", "ipd_entropy", "ipd_std_norm",
     "fft_dom_freq", "fft_energy_ratio", "fft_spectral_entropy",
     "ac_max", "ac_lag", "ac_mean"}

  /** The feature row in the model's column order: a missing column becomes
      0.0 and a feature outside the column list is dropped. */
  function Reindex(feats: map<string, real>, cols: seq<string>): (row: seq<real>)
    ensures |row| == |cols|
    ensures forall i :: 0 <= i < |cols| && cols[i] in feats ==> row[i] == feats[cols[i]]
    ensures forall i :: 0 <= i < |cols| && cols[i] !in feats ==> row[i] == 0.0
  {
    seq(|cols|, i requires 0 <= i < |cols| => if cols[i] in feats then feats[cols[i]] else 0.0)
  }

  /** The row depends only on the values of the listed columns: two feature
      dictionaries that agree there (whatever else they hold) give the same row. */
  lemma ReindexReadsOnlyColumns(f: map<string, real>, g: map<string, real>, cols: seq<string>)
    requires forall c :: c in cols ==> (c in f <==> c in g)
    requires forall c :: c in cols && c in f ==> f[c] == g[c]
    ensures Reindex(f, cols) == Reindex(g, cols)
  {
    var rf, rg := Reindex(f, cols), Reindex(g, cols);
    forall i | 0 <= i < |cols| ensures rf[i] == rg[i] {
      assert cols[i] in cols;
    }
  }

  /** The IPDs scored for a buffer: none before 40 timestamps, afterwards the
      39 differences of the last 40. */
  function ScoringWindow(buf: seq<real>): (w: Option<seq<real>>)
    ensures |buf| < WindowSize <==> w.None?
    ensures w.Some? ==> |w.value| == WindowSize - 1
    ensures w.Some? ==> forall i :: 0 <= i < WindowSize - 1 ==>
      w.value[i] == buf[|buf| - WindowSize + i + 1] - buf[|buf| - WindowSize + i]
  {
    if |buf| < WindowSize then None
    else Some(Diff(buf[|buf| - WindowSize..]))
  }

  /** What is done with a final risk: alert from 60, block from 70 (inside
      the alert branch). */
  function Response(finalRisk: real): (r: (bool, bool))
    ensures r.0 <==> finalRisk >= RiskThreshold
    ensures r.1 <==> finalRisk >= BlockThreshold
    ensures r.1 ==> r.0
  {
    var alert := finalRisk >= RiskThreshold;
    (alert, alert && finalRisk >= BlockThreshold)
  }

  function Get(m: map<string, real>, k: string, default: real): real
  {
    if k in m then m[k] else default
  }

  /** The scores of one full window: the classifier's probability as a
      percentage is the final risk; the logged statistical and novelty
      values are proxies read from the features. */
  datatype Scores = Scores(mlProb: real, finalRisk: real, statScore: real, iforestRisk: real)

  function Evaluate(ipds: seq<real>, lib: Numerics, predict: seq<real> -> real, cols: seq<string>): (s: Scores)
    requires lib.Sound()
    ensures s.finalRisk == s.mlProb * 100.0
    ensures s.mlProb == predict(Reindex(FeatureMap(ipds, lib), cols))
    ensures s.statScore == ComputeEntropyFeatures(ipds, lib).entropy * 10.0
    ensures s.iforestRisk == ComputeEntropyFeatures(ipds, lib).stdNorm * 100.0
  {
    var feats := FeatureMap(ipds, lib);
    var mlProb := predict(Reindex(feats, cols));
    Scores(mlProb, mlProb * 100.0, Get(feats, "ipd_entropy", 0.0) * 10.0,
           Get(feats, "ipd_std_norm", 0.0) * 100.0)
  }

  datatype AlertRow = AlertRow(timestamp: real, flow: string, protocol: string, finalRisk: real,
                               mlProb: real, statScore: real, iforestRisk: real)

  /** One firewall command: the address and whether the command succeeded. */
  datatype FirewallCall = FirewallCall(ip: string, succeeded: bool)

  function SuccessCount(calls: seq<FirewallCall>, ip: string): nat
  {
    if |calls| == 0 then 0
    else SuccessCount(calls[..|calls| - 1], ip)
         + (if calls[|calls| - 1].ip == ip && calls[|calls| - 1].succeeded then 1 else 0)
  }

  /** The alert record of a scored packet. */
  function AlertFor(now: real, pkt: Packet, scores: Scores): AlertRow
  {
    AlertRow(now, PacketFlow(pkt), DetectProtocol(pkt).Name(), scores.finalRisk,
             scores.mlProb * 100.0, scores.statScore, scores.iforestRisk)
  }

  /** The verdict for scores, given whether the source is already blocked. */
  function Outcome(scores: Scores, alreadyBlocked: bool): (v: Verdict)
    ensures v.Scored? && v.finalRisk == scores.finalRisk
    ensures v.alerted <==> scores.finalRisk >= RiskThreshold
    ensures v.blockIssued <==> scores.finalRisk >= BlockThreshold && !alreadyBlocked
  {
    var (alert, block) := Response(scores.finalRisk);
    Scored(scores.finalRisk, alert, block && !alreadyBlocked)
  }

  datatype Verdict = Ignored | Buffered | Scored(finalRisk: real, alerted: bool, blockIssued: bool)

  class Detector {
    var buffers: map<string, seq<real>>
    var blockedIps: set<string>
    var alerts: seq<AlertRow>
    var firewallCalls: seq<FirewallCall>
    const rfCols: seq<string>

    /** An address is blocked exactly when one firewall command for it
        succeeded; no address was ever successfully blocked twice. */
    ghost predicate Valid()
      reads this`firewallCalls, this`blockedIps
    {
      forall ip :: SuccessCount(firewallCalls, ip) == (if ip in blockedIps then 1 else 0)
    }

    constructor (columns: seq<string>)
      ensures Valid()
      ensures rfCols == columns
      ensures buffers == map[] && blockedIps == {} && alerts == [] && firewallCalls == []
    {
      rfCols := columns;
      buffers, blockedIps, alerts, firewallCalls := map[], {}, [], [];
    }

    function Buffer(flow: string): seq<real>
      reads this
    {
      if flow in buffers then buffers[flow] else []
    }

    /** Blocks an address once: an address already blocked gets no command;
        otherwise the command runs and the address is recorded only if it
        succeeded. */
    method BlockIp(ip: string, succeeds: bool) returns (issued: bool)
      requires Valid()
      modifies this
      ensures Valid()
      ensures issued <==> ip !in old(blockedIps)
      ensures firewallCalls == if issued then old(firewallCalls) + [FirewallCall(ip, succeeds)]
                               else old(firewallCalls)
      ensures blockedIps == if issued && succeeds then old(blockedIps) + {ip} else old(blockedIps)
      ensures buffers == old(buffers) && alerts == old(alerts)
    {
      if ip in blockedIps {
        return false;
      }
      firewallCalls := firewallCalls + [FirewallCall(ip, succeeds)];
      if succeeds {
        blockedIps := blockedIps + {ip};
      }
      issued := true;
      forall x ensures SuccessCount(firewallCalls, x) == (if x in blockedIps then 1 else 0) {
        assert firewallCalls[..|firewallCalls| - 1] == old(firewallCalls);
      }
    }

    /** The response to one scored window of the packet's flow: an alert
        record from risk 60, and from risk 70 a block of its source address. */
    method Respond(pkt: Packet, now: real, scores: Scores, firewallOk: bool) returns (verdict: Verdict)
      requires Valid()
      modifies this
      ensures Valid()
      ensures buffers == old(buffers)
      ensures verdict == Outcome(scores, pkt.src in old(blockedIps))
      ensures alerts == old(alerts) + (if verdict.alerted then [AlertFor(now, pkt, scores)] else [])
      ensures firewallCalls == if verdict.blockIssued then old(firewallCalls) + [FirewallCall(pkt.src, firewallOk)]
                               else old(firewallCalls)
      ensures blockedIps == if verdict.blockIssued && firewallOk then old(blockedIps) + {pkt.src}
                            else old(blockedIps)
    {
      var finalRisk := scores.finalRisk;
      var alerted, blockIssued := false, false;
      if finalRisk >= RiskThreshold {
        alerts := alerts + [AlertFor(now, pkt, scores)];
        alerted := true;
        if finalRisk >= BlockThreshold {
          blockIssued := BlockIp(pkt.src, firewallOk);
        }
      }
      verdict := Scored(finalRisk, alerted, blockIssued);
    }

    /** The scores of a flow buffer holding a full window. */
    function Scoring(buf: seq<real>, lib: Numerics, predict: seq<real> -> real): Scores
      requires lib.Sound() && ScoringWindow(buf).Some?
      reads this
    {
      Evaluate(ScoringWindow(buf).value, lib, predict, rfCols)
    }

    /** One captured packet: `now` is the capture time, `predict` the scaled
        classifier's covert probability for a feature row, `firewallOk` the
        outcome of a firewall command should one be issued. */
    method HandlePacket(pkt: Packet, now: real, lib: Numerics, predict: seq<real> -> real,
                        firewallOk: bool) returns (verdict: Verdict)
      requires Valid() && lib.Sound()
      modifies this
      ensures Valid()
      ensures old(blockedIps) <= blockedIps
      ensures !pkt.hasIp ==>
        verdict == Ignored && buffers == old(buffers) && blockedIps == old(blockedIps)
        && alerts == old(alerts) && firewallCalls == old(firewallCalls)
      ensures pkt.hasIp ==> buffers == old(buffers)[PacketFlow(pkt) := old(Buffer(PacketFlow(pkt))) + [now]]
      ensures pkt.hasIp && ScoringWindow(Buffer(PacketFlow(pkt))).None? ==>
        verdict == Buffered && alerts == old(alerts) && blockedIps == old(blockedIps)
        && firewallCalls == old(firewallCalls)
      ensures pkt.hasIp && ScoringWindow(Buffer(PacketFlow(pkt))).Some? ==>
        verdict == Outcome(Scoring(Buffer(PacketFlow(pkt)), lib, predict), pkt.src in old(blockedIps))
      ensures pkt.hasIp && ScoringWindow(Buffer(PacketFlow(pkt))).Some? ==>
        alerts == old(alerts) + (if verdict.alerted then
          [AlertFor(now, pkt, Scoring(Buffer(PacketFlow(pkt)), lib, predict))] else [])
      ensures pkt.hasIp && ScoringWindow(Buffer(PacketFlow(pkt))).Some? ==>
        blockedIps == (if verdict.blockIssued && firewallOk then old(blockedIps) + {pkt.src}
                       else old(blockedIps))
      ensures pkt.hasIp && ScoringWindow(Buffer(PacketFlow(pkt))).Some? ==>
        firewallCalls == (if verdict.blockIssued then old(firewallCalls) + [FirewallCall(pkt.src, firewallOk)]
                          else old(firewallCalls))
      ensures verdict.Scored? && verdict.blockIssued ==> verdict.alerted
    {
      if !pkt.hasIp {
        return Ignored;
      }
      var proto := DetectProtocol(pkt);
      var flow := FlowKey(pkt.src, pkt.dst, proto);
      var buf := Buffer(flow) + [now];
      buffers := buffers[flow := buf];
      assert flow == PacketFlow(pkt) && Buffer(flow) == buf;
      var window := ScoringWindow(buf);
      if window.None? {
        return Buffered;
      }
      verdict := Respond(pkt, now, Scoring(buf, lib, predict), firewallOk);
    }
  }
}
