/** The timed live capture: every captured IP packet's arrival time is
    appended to its flow's list, keyed by source and destination only;
    when the capture ends, every flow's consecutive arrival times become
    rows of (flow, timestamp, delay), flow after flow in the order the
    flows were first seen. */
module LiveCapture {
  import opened Common

  /** A captured packet, reduced to what the capture reads. */
  datatype Packet = Packet(hasIp: bool, src: string, dst: string)

  datatype IpdRow = IpdRow(flow: string, ts: real, ipd: real)

  function MinNat(a: nat, b: nat): nat { if a <= b then a else b }

  /** The flow key "src_dst": the protocol is not part of it. */
  function FlowKey(p: Packet): string
  {
    p.src + "_" + p.dst
  }

  /** For a source address without '_' (IPv4 and IPv6 text has none), two
      packets share a flow exactly when their sources and destinations
      agree, whatever their protocols; the key is directed, so A to B and
      B to A are two flows. */
  lemma FlowKeyInjective(p: Packet, q: Packet)
    requires '_' !in p.src && '_' !in q.src
    ensures FlowKey(p) == FlowKey(q) <==> p.src == q.src && p.dst == q.dst
  {
    UnderscoreJoinInjective(p.src, p.dst, q.src, q.dst);
  }

  /** The rows of one flow: one per arrival after the first, each with its
      arrival time and the delay since the previous arrival. */
  function FlowRows(flow: string, times: seq<real>): (r: seq<IpdRow>)
    ensures |r| == if |times| == 0 then 0 else |times| - 1
  {
    if |times| <= 1 then []
    else FlowRows(flow, times[..|times| - 1])
         + [IpdRow(flow, times[|times| - 1], times[|times| - 1] - times[|times| - 2])]
  }

  /** Row i is the (i+1)-th arrival and its delay since the i-th; every
      row carries the flow's key. */
  lemma {:induction false} FlowRowsAt(flow: string, times: seq<real>)
    ensures forall i :: 0 <= i < |FlowRows(flow, times)| ==>
      FlowRows(flow, times)[i] == IpdRow(flow, times[i + 1], times[i + 1] - times[i])
  {
    if |times| > 1 {
      var p := times[..|times| - 1];
      FlowRowsAt(flow, p);
      var r := FlowRows(flow, times);
      forall i | 0 <= i < |r| ensures r[i] == IpdRow(flow, times[i + 1], times[i + 1] - times[i]) {
        if i < |r| - 1 {
          assert r[i] == FlowRows(flow, p)[i];
          assert p[i] == times[i] && p[i + 1] == times[i + 1];
        }
      }
    }
  }

  function Delays(rows: seq<IpdRow>): (d: seq<real>)
    ensures |d| == |rows|
  {
    seq(|rows|, i requires 0 <= i < |rows| => rows[i].ipd)
  }

  /** A flow's delays add up to its last arrival time minus its first. */
  lemma FlowDelaysTelescope(flow: string, times: seq<real>)
    requires |times| > 0
    ensures Sum(Delays(FlowRows(flow, times))) == times[|times| - 1] - times[0]
  {
    FlowRowsAt(flow, times);
    var d, r := Delays(FlowRows(flow, times)), FlowRows(flow, times);
    forall i | 0 <= i < |d| ensures d[i] == Diff(times)[i] {
      assert d[i] == r[i].ipd;
    }
    assert d == Diff(times);
    SumDiff(times);
  }

  /** The rows of the listed flows, flow after flow. */
  function AllRows(flows: seq<string>, packets: map<string, seq<real>>): (r: seq<IpdRow>)
    requires forall i :: 0 <= i < |flows| ==> flows[i] in packets
  {
    if |flows| == 0 then []
    else AllRows(flows[..|flows| - 1], packets) + FlowRows(flows[|flows| - 1], packets[flows[|flows| - 1]])
  }

  /** The rows of a flow list split at any point are the rows of the two
      parts, one after the other: each flow's rows form one block. */
  lemma {:induction false} AllRowsConcat(a: seq<string>, b: seq<string>, packets: map<string, seq<real>>)
    requires forall i :: 0 <= i < |a| ==> a[i] in packets
    requires forall i :: 0 <= i < |b| ==> b[i] in packets
    ensures forall i :: 0 <= i < |a + b| ==> (a + b)[i] in packets
    ensures AllRows(a + b, packets) == AllRows(a, packets) + AllRows(b, packets)
    decreases |b|
  {
    if |b| > 0 {
      var b' := b[..|b| - 1];
      assert (a + b)[..|a + b| - 1] == a + b';
      AllRowsConcat(a, b', packets);
    } else {
      assert a + b == a;
    }
  }

  /** The block of one flow: in the full row list, the rows of the j-th
      flow follow those of the flows before it. */
  lemma FlowBlock(flows: seq<string>, packets: map<string, seq<real>>, j: nat)
    requires forall i :: 0 <= i < |flows| ==> flows[i] in packets
    requires j < |flows|
    ensures AllRows(flows, packets)
            == AllRows(flows[..j], packets) + FlowRows(flows[j], packets[flows[j]])
               + AllRows(flows[j + 1..], packets)
  {
    assert flows == flows[..j + 1] + flows[j + 1..];
    AllRowsConcat(flows[..j + 1], flows[j + 1..], packets);
    assert flows[..j + 1][..j] == flows[..j];
  }

  /** The capture's state: the arrival times per flow, and the flows in the
      order they were first seen (the dictionary's insertion order). */
  class Capture {
    var order: seq<string>
    var packets: map<string, seq<real>>

    ghost predicate Valid()
      reads this
    {
      && (forall f :: f in packets <==> f in order)
      && (forall i, j :: 0 <= i < j < |order| ==> order[i] != order[j])
    }

    function Times(f: string): seq<real>
      reads this
    {
      if f in packets then packets[f] else []
    }

    constructor ()
      ensures Valid() && order == [] && packets == map[]
    {
      order := [];
      packets := map[];
    }

    /** Records the arrival time `now` of one packet. */
    method HandlePacket(p: Packet, now: real)
      requires Valid()
      modifies this
      ensures Valid()
      ensures !p.hasIp ==> order == old(order) && packets == old(packets)
      ensures p.hasIp ==> packets == old(packets)[FlowKey(p) := old(Times(FlowKey(p))) + [now]]
      ensures p.hasIp ==> order == if FlowKey(p) in old(packets) then old(order) else old(order) + [FlowKey(p)]
    {
      if p.hasIp {
        var flow := FlowKey(p);
        if flow !in packets {
          order := order + [flow];
        }
        packets := packets[flow := Times(flow) + [now]];
      }
    }

    /** The delay rows built when the capture ends: for every flow in
        first-seen order, one row per arrival after the first. */
    method IpdRows() returns (rows: seq<IpdRow>)
      requires Valid()
      ensures rows == AllRows(order, packets)
    {
      rows := [];
      for j := 0 to |order|
        invariant rows == AllRows(order[..j], packets)
      {
        var flow := order[j];
        var times := packets[flow];
        ghost var before := rows;
        var i := 1;
        while i < |times|
          invariant 1 <= i
          invariant i <= |times| || |times| == 0
          invariant rows == before + FlowRows(flow, times[..MinNat(i, |times|)])
        {
          assert times[..i + 1][..i] == times[..i];
          rows := rows + [IpdRow(flow, times[i], times[i] - times[i - 1])];
          i := i + 1;
        }
        assert times[..MinNat(i, |times|)] == times;
        assert order[..j + 1][..j] == order[..j];
      }
      assert order[..|order|] == order;
    }
  }
}
