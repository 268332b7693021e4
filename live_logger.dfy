/** The continuous live logger: for every captured IP packet it remembers
    when its flow was last seen and, from the second packet of a flow on,
    appends the inter-packet delay to the flow's bounded buffer of the
    latest 50 delays and to the delay log. */
module LiveLogger {
  import opened Common

  const WindowSize := 50

  /** A captured packet, reduced to what the logger reads. */
  datatype Packet = Packet(hasIp: bool, src: string, dst: string, proto: nat)

  /** One line of the delay log: capture time, flow key and delay. */
  datatype LogRow = LogRow(timestamp: real, flow: string, ipd: real)

  /** The flow key "src_dst_proto", the protocol written as its number. */
  function FlowKey(p: Packet): string
  {
    p.src + "_" + p.dst + "_" + NatToString(p.proto)
  }

  /** For addresses without '_' (IPv4 and IPv6 text has none), two packets
      share a flow exactly when source, destination and protocol number all
      agree; the key is directed, so A to B and B to A are two flows. */
  lemma FlowKeyInjective(p: Packet, q: Packet)
    requires '_' !in p.src && '_' !in p.dst && '_' !in q.src && '_' !in q.dst
    ensures FlowKey(p) == FlowKey(q) <==> p.src == q.src && p.dst == q.dst && p.proto == q.proto
  {
    assert FlowKey(p) == p.src + "_" + (p.dst + "_" + NatToString(p.proto));
    assert FlowKey(q) == q.src + "_" + (q.dst + "_" + NatToString(q.proto));
    UnderscoreJoinInjective(p.src, p.dst + "_" + NatToString(p.proto), q.src, q.dst + "_" + NatToString(q.proto));
    UnderscoreJoinInjective(p.dst, NatToString(p.proto), q.dst, NatToString(q.proto));
    if NatToString(p.proto) == NatToString(q.proto) {
      NatToStringInjective(p.proto, q.proto);
    }
  }

  /** Two packets between the same addresses with different protocol
      numbers belong to different flows. */
  lemma FlowKeySeparatesProtocols(p: Packet, q: Packet)
    requires p.src == q.src && p.dst == q.dst && p.proto != q.proto
    ensures FlowKey(p) != FlowKey(q)
  {
    var prefix := p.src + "_" + p.dst + "_";
    if FlowKey(p) == FlowKey(q) {
      assert FlowKey(p)[|prefix|..] == NatToString(p.proto);
      assert FlowKey(q)[|prefix|..] == NatToString(q.proto);
      NatToStringInjective(p.proto, q.proto);
    }
  }

  /** Appending to a deque bounded by `cap`: once it is full the oldest
      entry falls out at the other end. */
  function Push(buf: seq<real>, x: real, cap: nat): (r: seq<real>)
    requires 0 < cap && |buf| <= cap
    ensures |r| == if |buf| < cap then |buf| + 1 else cap
    ensures r[|r| - 1] == x
    ensures r[..|r| - 1] == LastN(buf, cap - 1)
  {
    if |buf| == cap then buf[1..] + [x] else buf + [x]
  }

  /** A bounded buffer holding the latest `cap` items of a history still
      holds the latest `cap` items once one more is pushed. */
  lemma PushKeepsLatest(history: seq<real>, x: real, cap: nat)
    requires 0 < cap
    ensures Push(LastN(history, cap), x, cap) == LastN(history + [x], cap)
  {
    var h := history + [x];
    if |history| >= cap {
      assert LastN(history, cap)[1..] + [x] == h[|h| - cap..];
    }
  }

  /** The logger's state: the per-flow delay buffers, the time each flow
      was last seen, and the rows written to the delay log. `history` is
      every delay ever computed per flow, of which a buffer keeps the last 50. */
  class Logger {
    var buffers: map<string, seq<real>>
    var lastSeen: map<string, real>
    var log: seq<LogRow>
    ghost var history: map<string, seq<real>>

    ghost predicate Valid()
      reads this
    {
      && buffers.Keys == history.Keys
      && buffers.Keys <= lastSeen.Keys
      && forall f :: f in buffers ==> buffers[f] == LastN(history[f], WindowSize)
    }

    /** The buffer of a flow, empty until its first delay. */
    function Buffer(f: string): seq<real>
      reads this
    {
      if f in buffers then buffers[f] else []
    }

    ghost function History(f: string): seq<real>
      reads this
    {
      if f in history then history[f] else []
    }

    constructor ()
      ensures Valid()
      ensures buffers == map[] && lastSeen == map[] && log == [] && history == map[]
    {
      buffers := map[];
      lastSeen := map[];
      log := [];
      history := map[];
    }

    /** Every buffer holds the latest delays of its flow, at most 50 of them. */
    lemma BuffersAreLatest(f: string)
      requires Valid()
      ensures Buffer(f) == LastN(History(f), WindowSize)
      ensures |Buffer(f)| <= WindowSize
    {
    }

    /** Handles one packet captured at time `now`. */
    method HandlePacket(p: Packet, now: real)
      requires Valid()
      modifies this
      ensures Valid()
      ensures !p.hasIp ==> buffers == old(buffers) && lastSeen == old(lastSeen)
                           && log == old(log) && history == old(history)
      ensures p.hasIp ==> lastSeen == old(lastSeen)[FlowKey(p) := now]
      ensures p.hasIp && FlowKey(p) !in old(lastSeen)
              ==> buffers == old(buffers) && log == old(log) && history == old(history)
      ensures p.hasIp && FlowKey(p) in old(lastSeen) ==>
        var f := FlowKey(p);
        var ipd := now - old(lastSeen)[f];
        && history == old(history)[f := old(History(f)) + [ipd]]
        && buffers == old(buffers)[f := Push(old(Buffer(f)), ipd, WindowSize)]
        && log == old(log) + [LogRow(now, f, ipd)]
    {
      if !p.hasIp {
        return;
      }
      var flow := FlowKey(p);
      if flow in lastSeen {
        RecordDelay(flow, now, now - lastSeen[flow]);
      }
      lastSeen := lastSeen[flow := now];
    }

    /** Appends one delay of a flow already seen to its buffer and to the log. */
    method RecordDelay(flow: string, now: real, ipd: real)
      requires Valid() && flow in lastSeen
      modifies this
      ensures Valid()
      ensures lastSeen == old(lastSeen)
      ensures history == old(history)[flow := old(History(flow)) + [ipd]]
      ensures buffers == old(buffers)[flow := Push(old(Buffer(flow)), ipd, WindowSize)]
      ensures log == old(log) + [LogRow(now, flow, ipd)]
    {
      PushKeepsLatest(History(flow), ipd, WindowSize);
      buffers := buffers[flow := Push(Buffer(flow), ipd, WindowSize)];
      history := history[flow := History(flow) + [ipd]];
      log := log + [LogRow(now, flow, ipd)];
    }
  }
}
