/** Flow aggregation of `PcapZeekEngine.extract_flows`: the dictionary loop, against
    grouping packets by unordered endpoint pair, oriented by the pair's first packet. */
module Flows {
  import opened Wrappers
  import opened Bytes
  import opened Packets
  import Capture

  datatype Endpoint = Endpoint(ip: ip4, port: u16)

  /** The flow id text, source to destination. */
  datatype FlowKey = FlowKey(src: Endpoint, dst: Endpoint)

  function KeyOf(p: RawPacket): FlowKey {
    FlowKey(Endpoint(p.srcIp, p.srcPort), Endpoint(p.dstIp, p.dstPort))
  }

  function Rev(k: FlowKey): FlowKey {
    FlowKey(k.dst, k.src)
  }

  /** Same unordered endpoint pair. */
  predicate Same(a: FlowKey, b: FlowKey) {
    a == b || a == Rev(b)
  }

  datatype Flow = Flow(
    timestamp: real,
    key: FlowKey,
    proto: Proto,
    flags: seq<Flag>,
    bytesOut: nat,
    bytesIn: nat,
    packetsOut: nat,
    packetsIn: nat,
    dnsQuery: Option<string>,
    dnsQueryType: Option<string>,
    ja3Hash: Option<string>,
    serverName: Option<string>)

  predicate OneWaySyn(p: RawPacket) {
    SYN in p.flags && ACK !in p.flags
  }

  type Md5 = string -> string

  function HashOf(md5: Md5, sni: Option<string>): Option<string> {
    if Truthy(sni) then Some(md5(sni.value)) else None
  }

  // ---------- Specification: groups of a packet list ----------

  /** Total wire bytes of the packets travelling exactly from `k.src` to `k.dst`. */
  function BytesOf(ps: seq<RawPacket>, k: FlowKey): nat {
    if ps == [] then 0
    else BytesOf(ps[..|ps| - 1], k) + if KeyOf(ps[|ps| - 1]) == k then ps[|ps| - 1].wireLen else 0
  }

  function CountOf(ps: seq<RawPacket>, k: FlowKey): nat {
    if ps == [] then 0
    else CountOf(ps[..|ps| - 1], k) + if KeyOf(ps[|ps| - 1]) == k then 1 else 0
  }

  /** Packets of the reverse direction; a self-addressed pair has none. */
  function ReverseBytes(ps: seq<RawPacket>, k: FlowKey): nat {
    if Rev(k) == k then 0 else BytesOf(ps, Rev(k))
  }

  function ReverseCount(ps: seq<RawPacket>, k: FlowKey): nat {
    if Rev(k) == k then 0 else CountOf(ps, Rev(k))
  }

  predicate InPair(p: RawPacket, k: FlowKey) {
    Same(KeyOf(p), k)
  }

  /** Index of the first packet of the pair, or `|ps|`. */
  function FirstIn(ps: seq<RawPacket>, k: FlowKey): (i: nat)
    ensures i <= |ps|
    ensures forall j | 0 <= j < i :: !InPair(ps[j], k)
    ensures i < |ps| ==> InPair(ps[i], k)
  {
    if ps == [] then 0
    else
      var i := FirstIn(ps[..|ps| - 1], k);
      if i < |ps| - 1 || InPair(ps[|ps| - 1], k) then i else |ps|
  }

  /** The oriented keys of the pairs, in order of first appearance. */
  function FirstKeys(ps: seq<RawPacket>): seq<FlowKey> {
    if ps == [] then []
    else
      var before, k := FirstKeys(ps[..|ps| - 1]), KeyOf(ps[|ps| - 1]);
      if exists i | 0 <= i < |before| :: Same(k, before[i]) then before else before + [k]
  }

  /** One flow per pair: no two of the keys name the same pair, and every packet's pair is named. */
  predicate OnePerPair(keys: seq<FlowKey>, ps: seq<RawPacket>) {
    && (forall i, j | 0 <= i < j < |keys| :: !Same(keys[i], keys[j]))
    && (forall p | p in ps :: exists i | 0 <= i < |keys| :: InPair(p, keys[i]))
  }

  /** The first truthy value among the forward packets, else what the first packet carried. */
  function FirstTruthy(read: RawPacket -> Option<string>, ps: seq<RawPacket>, k: FlowKey): Option<string> {
    if ps == [] then None
    else
      var n := |ps| - 1;
      var before := FirstTruthy(read, ps[..n], k);
      if KeyOf(ps[n]) != k then before
      else if CountOf(ps[..n], k) == 0 || (Truthy(read(ps[n])) && !Truthy(before)) then read(ps[n])
      else before
  }

  /** Index of the first packet with property `p`, or `|ps|`. */
  function FirstIndex(p: RawPacket -> bool, ps: seq<RawPacket>): (i: nat)
    ensures i <= |ps| && (i < |ps| ==> p(ps[i]))
    ensures forall j | 0 <= j < i :: !p(ps[j])
  {
    if ps == [] then 0
    else
      var i := FirstIndex(p, ps[..|ps| - 1]);
      if i < |ps| - 1 || p(ps[|ps| - 1]) then i else |ps|
  }

  function IsForward(k: FlowKey): RawPacket -> bool {
    (p: RawPacket) => KeyOf(p) == k
  }

  function IsForwardTruthy(read: RawPacket -> Option<string>, k: FlowKey): RawPacket -> bool {
    (p: RawPacket) => KeyOf(p) == k && Truthy(read(p))
  }

  lemma {:induction false} NoneForward(ps: seq<RawPacket>, k: FlowKey)
    ensures CountOf(ps, k) == 0 <==> FirstIndex(IsForward(k), ps) == |ps|
  {
    if ps != [] {
      NoneForward(ps[..|ps| - 1], k);
    }
  }

  /** The value a flow carries, by position: that of the first forward packet with a truthy one;
      where there is none, that of the first forward packet. */
  lemma {:induction false} FirstTruthyByPosition(read: RawPacket -> Option<string>, ps: seq<RawPacket>, k: FlowKey)
    ensures var i, j := FirstIndex(IsForwardTruthy(read, k), ps), FirstIndex(IsForward(k), ps);
      FirstTruthy(read, ps, k) == if i < |ps| then read(ps[i]) else if j < |ps| then read(ps[j]) else None
  {
    if ps != [] {
      var front := ps[..|ps| - 1];
      FirstTruthyByPosition(read, front, k);
      NoneForward(front, k);
    }
  }

  predicate HasFlag(ps: seq<RawPacket>, k: FlowKey, f: Flag) {
    exists p | p in ps :: InPair(p, k) && f in p.flags
  }

  function DnsOf(p: RawPacket): Option<string> { p.dnsQuery }
  function SniOf(p: RawPacket): Option<string> { p.tlsSni }

  /** The counters: forward and reverse sums, except that a first SYN without ACK is
      counted in the other direction. */
  predicate Counted(flow: Flow, ps: seq<RawPacket>, k: FlowKey)
    requires FirstIn(ps, k) < |ps|
  {
    var first := ps[FirstIn(ps, k)];
    var (b, n) := if SYN in first.flags && ACK !in first.flags then (first.wireLen, 1) else (0, 0);
    && flow.bytesOut + b == BytesOf(ps, k) && flow.bytesIn == ReverseBytes(ps, k) + b
    && flow.packetsOut + n == CountOf(ps, k) && flow.packetsIn == ReverseCount(ps, k) + n
  }

  predicate Named(flow: Flow, ps: seq<RawPacket>, k: FlowKey, md5: Md5)
    requires FirstIn(ps, k) < |ps|
  {
    var first := ps[FirstIn(ps, k)];
    && KeyOf(first) == k == flow.key && flow.proto == first.proto
    && k.src == Endpoint(first.srcIp, first.srcPort) && k.dst == Endpoint(first.dstIp, first.dstPort)
    && flow.dnsQuery == FirstTruthy(DnsOf, ps, k)
    && flow.dnsQueryType == (if first.dnsQuery == None || first.dnsQuery == Some("") then None else Some("A"))
    && flow.serverName == FirstTruthy(SniOf, ps, k)
    && (match flow.serverName
        case None => flow.ja3Hash == None
        case Some(name) => flow.ja3Hash == if name == "" then None else Some(md5(name)))
  }

  predicate Flagged(flow: Flow, ps: seq<RawPacket>, k: FlowKey)
    requires FirstIn(ps, k) < |ps|
  {
    && (forall f :: f in flow.flags <==> HasFlag(ps, k, f))
    && (Distinct(ps[FirstIn(ps, k)].flags) ==> Distinct(flow.flags))
    && ps[FirstIn(ps, k)].flags <= flow.flags
  }

  /** Timestamp of the pair's last packet. */
  function LastTime(ps: seq<RawPacket>, k: FlowKey): real {
    if ps == [] then 0.0
    else if InPair(ps[|ps| - 1], k) then ps[|ps| - 1].timestamp
    else LastTime(ps[..|ps| - 1], k)
  }

  /** `flow` is the aggregate of the packets of pair `k`. */
  predicate Summarizes(flow: Flow, ps: seq<RawPacket>, k: FlowKey, md5: Md5) {
    && FirstIn(ps, k) < |ps|
    && Counted(flow, ps, k)
    && Named(flow, ps, k, md5)
    && Flagged(flow, ps, k)
    && flow.timestamp == LastTime(ps, k)
  }

  // ---------- The loop body ----------

  function AddFlags(have: seq<Flag>, more: seq<Flag>): (r: seq<Flag>)
    ensures forall f :: f in r <==> f in have || f in more
    ensures Distinct(have) ==> Distinct(r)
    ensures have <= r
    decreases |more|
  {
    if more == [] then have
    else AddFlags(if more[0] in have then have else have + [more[0]], more[1..])
  }

  function NewFlow(p: RawPacket, md5: Md5): Flow {
    var swap := OneWaySyn(p);
    Flow(p.timestamp, KeyOf(p), p.proto, p.flags,
         if swap then 0 else p.wireLen, if swap then p.wireLen else 0,
         if swap then 0 else 1, if swap then 1 else 0,
         p.dnsQuery, if Truthy(p.dnsQuery) then Some("A") else None, HashOf(md5, p.tlsSni), p.tlsSni)
  }

  function Forward(flow: Flow, p: RawPacket, md5: Md5): Flow {
    var dns := if Truthy(p.dnsQuery) && !Truthy(flow.dnsQuery) then p.dnsQuery else flow.dnsQuery;
    var named := Truthy(p.tlsSni) && !Truthy(flow.serverName);
    flow.(bytesOut := flow.bytesOut + p.wireLen, packetsOut := flow.packetsOut + 1,
          timestamp := p.timestamp, flags := AddFlags(flow.flags, p.flags), dnsQuery := dns,
          serverName := if named then p.tlsSni else flow.serverName,
          ja3Hash := if named then Some(md5(p.tlsSni.value)) else flow.ja3Hash)
  }

  function Backward(flow: Flow, p: RawPacket): Flow {
    flow.(bytesIn := flow.bytesIn + p.wireLen, packetsIn := flow.packetsIn + 1,
          timestamp := p.timestamp, flags := AddFlags(flow.flags, p.flags))
  }

  lemma {:induction false} Last(ps: seq<RawPacket>, p: RawPacket)
    ensures (ps + [p])[..|ps|] == ps && (ps + [p])[|ps|] == p
  {
  }

  lemma {:induction false} NoneOfPair(ps: seq<RawPacket>, k: FlowKey)
    requires FirstIn(ps, k) == |ps|
    ensures BytesOf(ps, k) == CountOf(ps, k) == 0
    ensures BytesOf(ps, Rev(k)) == CountOf(ps, Rev(k)) == 0
  {
    if ps != [] {
      var n := |ps| - 1;
      assert !InPair(ps[n], k);
      NoneOfPair(ps[..n], k);
    }
  }

  lemma {:induction false} SomeForward(ps: seq<RawPacket>, k: FlowKey)
    requires FirstIn(ps, k) < |ps| && KeyOf(ps[FirstIn(ps, k)]) == k
    ensures CountOf(ps, k) > 0
  {
    var n := |ps| - 1;
    if FirstIn(ps, k) < n {
      SomeForward(ps[..n], k);
    }
  }

  lemma {:induction false} HasFlagStep(ps: seq<RawPacket>, p: RawPacket, k: FlowKey, f: Flag)
    ensures HasFlag(ps + [p], k, f) <==> HasFlag(ps, k, f) || (InPair(p, k) && f in p.flags)
  {
    if HasFlag(ps, k, f) {
      var q :| q in ps && InPair(q, k) && f in q.flags;
      assert q in ps + [p];
    }
    assert p in ps + [p];
  }

  lemma {:induction false} FlagsGrow(have: seq<Flag>, ps: seq<RawPacket>, p: RawPacket, k: FlowKey)
    requires InPair(p, k) && forall f :: f in have <==> HasFlag(ps, k, f)
    ensures forall f :: f in AddFlags(have, p.flags) <==> HasFlag(ps + [p], k, f)
  {
    forall f ensures f in AddFlags(have, p.flags) <==> HasFlag(ps + [p], k, f) {
      HasFlagStep(ps, p, k, f);
    }
  }

  lemma {:induction false} NewFlowSummarizes(ps: seq<RawPacket>, p: RawPacket, md5: Md5)
    requires FirstIn(ps, KeyOf(p)) == |ps|
    ensures Summarizes(NewFlow(p, md5), ps + [p], KeyOf(p), md5)
  {
    var k := KeyOf(p);
    Last(ps, p);
    NoneOfPair(ps, k);
    assert FirstIn(ps + [p], k) == |ps|;
    forall f ensures f in p.flags <==> HasFlag(ps + [p], k, f) {
      HasFlagStep(ps, p, k, f);
      assert !HasFlag(ps, k, f);
    }
  }

  lemma {:induction false} UntouchedSummarizes(flow: Flow, ps: seq<RawPacket>, p: RawPacket, k: FlowKey, md5: Md5)
    requires Summarizes(flow, ps, k, md5) && !InPair(p, k)
    ensures Summarizes(flow, ps + [p], k, md5)
  {
    Last(ps, p);
    forall f ensures f in flow.flags <==> HasFlag(ps + [p], k, f) {
      HasFlagStep(ps, p, k, f);
    }
  }

  lemma {:induction false} ForwardSummarizes(flow: Flow, ps: seq<RawPacket>, p: RawPacket, k: FlowKey, md5: Md5)
    requires Summarizes(flow, ps, k, md5) && KeyOf(p) == k
    ensures Summarizes(Forward(flow, p, md5), ps + [p], k, md5)
  {
    Last(ps, p);
    SomeForward(ps, k);
    FlagsGrow(flow.flags, ps, p, k);
  }

  lemma {:induction false} BackwardSummarizes(flow: Flow, ps: seq<RawPacket>, p: RawPacket, k: FlowKey, md5: Md5)
    requires Summarizes(flow, ps, k, md5) && KeyOf(p) == Rev(k) != k
    ensures Summarizes(Backward(flow, p), ps + [p], k, md5)
  {
    Last(ps, p);
    FlagsGrow(flow.flags, ps, p, k);
  }

  // ---------- Pairs and conservation ----------

  lemma {:induction false} FirstKeysCoverEachPairOnce(ps: seq<RawPacket>)
    ensures OnePerPair(FirstKeys(ps), ps)
    ensures forall k | k in FirstKeys(ps) :: FirstIn(ps, k) < |ps|
  {
    if ps != [] {
      var n := |ps| - 1;
      FirstKeysCoverEachPairOnce(ps[..n]);
      var before, k := FirstKeys(ps[..n]), KeyOf(ps[n]);
      forall p | p in ps
        ensures exists i | 0 <= i < |FirstKeys(ps)| :: InPair(p, FirstKeys(ps)[i])
      {
        if p in ps[..n] {
          var i :| 0 <= i < |before| && InPair(p, before[i]);
          assert InPair(p, FirstKeys(ps)[i]);
        } else {
          assert p == ps[n];
          if FirstKeys(ps) != before {
            assert InPair(p, FirstKeys(ps)[|before|]);
          }
        }
      }
    }
  }

  function WireBytes(ps: seq<RawPacket>): nat {
    if ps == [] then 0 else WireBytes(ps[..|ps| - 1]) + ps[|ps| - 1].wireLen
  }

  /** Bytes and packets of both directions, summed over a list of pairs. */
  function PairBytes(keys: seq<FlowKey>, ps: seq<RawPacket>): nat {
    if keys == [] then 0
    else BytesOf(ps, keys[0]) + ReverseBytes(ps, keys[0]) + PairBytes(keys[1..], ps)
  }

  function PairCount(keys: seq<FlowKey>, ps: seq<RawPacket>): nat {
    if keys == [] then 0
    else CountOf(ps, keys[0]) + ReverseCount(ps, keys[0]) + PairCount(keys[1..], ps)
  }

  /** One more packet adds its length to the sum exactly once when one of the pairs is its own. */
  lemma {:induction false} PairSumsStep(keys: seq<FlowKey>, ps: seq<RawPacket>, p: RawPacket)
    requires forall i, j | 0 <= i < j < |keys| :: !Same(keys[i], keys[j])
    ensures var mine := exists i | 0 <= i < |keys| :: InPair(p, keys[i]);
      && PairBytes(keys, ps + [p]) == PairBytes(keys, ps) + (if mine then p.wireLen else 0)
      && PairCount(keys, ps + [p]) == PairCount(keys, ps) + (if mine then 1 else 0)
  {
    Last(ps, p);
    if keys != [] {
      PairSumsStep(keys[1..], ps, p);
      if InPair(p, keys[0]) {
        forall i | 0 <= i < |keys[1..]| ensures !InPair(p, keys[1..][i]) {
          assert !Same(keys[0], keys[i + 1]);
        }
      } else if exists i | 0 <= i < |keys| :: InPair(p, keys[i]) {
        var i :| 0 <= i < |keys| && InPair(p, keys[i]);
        assert InPair(p, keys[1..][i - 1]);
      } else {
        forall i | 0 <= i < |keys[1..]| ensures !InPair(p, keys[1..][i]) {
          assert keys[1..][i] == keys[i + 1];
        }
      }
    }
  }

  lemma {:induction false} PairSumsAppend(keys: seq<FlowKey>, k: FlowKey, ps: seq<RawPacket>)
    ensures PairBytes(keys + [k], ps) == PairBytes(keys, ps) + BytesOf(ps, k) + ReverseBytes(ps, k)
    ensures PairCount(keys + [k], ps) == PairCount(keys, ps) + CountOf(ps, k) + ReverseCount(ps, k)
  {
    if keys != [] {
      assert (keys + [k])[1..] == keys[1..] + [k];
      PairSumsAppend(keys[1..], k, ps);
    }
  }

  /** Summed over the pairs, both directions together account for every packet and byte. */
  lemma {:induction false} PairsPartitionPackets(ps: seq<RawPacket>)
    ensures PairBytes(FirstKeys(ps), ps) == WireBytes(ps)
    ensures PairCount(FirstKeys(ps), ps) == |ps|
  {
    if ps != [] {
      var n := |ps| - 1;
      var front, p := ps[..n], ps[n];
      assert ps == front + [p];
      PairsPartitionPackets(front);
      FirstKeysCoverEachPairOnce(front);
      var before := FirstKeys(front);
      PairSumsStep(before, front, p);
      if FirstKeys(ps) != before {
        var k := KeyOf(p);
        PairSumsAppend(before, k, ps);
        NewPairIsAlone(front, p);
      }
    }
  }

  lemma {:induction false} SamePair(a: FlowKey, b: FlowKey, c: FlowKey)
    requires Same(a, b) && Same(a, c)
    ensures Same(b, c)
  {
  }

  lemma {:induction false} NewPairIsAlone(ps: seq<RawPacket>, p: RawPacket)
    requires forall i | 0 <= i < |FirstKeys(ps)| :: !Same(KeyOf(p), FirstKeys(ps)[i])
    ensures FirstIn(ps, KeyOf(p)) == |ps|
    ensures BytesOf(ps + [p], KeyOf(p)) + ReverseBytes(ps + [p], KeyOf(p)) == p.wireLen
    ensures CountOf(ps + [p], KeyOf(p)) + ReverseCount(ps + [p], KeyOf(p)) == 1
  {
    var k := KeyOf(p);
    FirstKeysCoverEachPairOnce(ps);
    if FirstIn(ps, k) < |ps| {
      var q := ps[FirstIn(ps, k)];
      assert q in ps;
      var i :| 0 <= i < |FirstKeys(ps)| && InPair(q, FirstKeys(ps)[i]);
      SamePair(KeyOf(q), k, FirstKeys(ps)[i]);
    }
    NoneOfPair(ps, k);
    Last(ps, p);
  }

  function TotalBytes(flows: seq<Flow>): nat {
    if flows == [] then 0 else flows[0].bytesOut + flows[0].bytesIn + TotalBytes(flows[1..])
  }

  function TotalPackets(flows: seq<Flow>): nat {
    if flows == [] then 0 else flows[0].packetsOut + flows[0].packetsIn + TotalPackets(flows[1..])
  }

  predicate SummarizesAll(flows: seq<Flow>, ps: seq<RawPacket>, keys: seq<FlowKey>, md5: Md5) {
    |flows| == |keys| && forall i | 0 <= i < |keys| :: Summarizes(flows[i], ps, keys[i], md5)
  }

  lemma {:induction false} FlowTotals(flows: seq<Flow>, ps: seq<RawPacket>, keys: seq<FlowKey>, md5: Md5)
    requires SummarizesAll(flows, ps, keys, md5)
    ensures TotalBytes(flows) == PairBytes(keys, ps)
    ensures TotalPackets(flows) == PairCount(keys, ps)
    decreases |keys|
  {
    if keys != [] {
      assert Summarizes(flows[0], ps, keys[0], md5);
      FlowTotals(flows[1..], ps, keys[1..], md5);
    }
  }

  /** Conservation: the direction swap moves counts but loses none. */
  lemma {:induction false} FlowsConserveTraffic(flows: seq<Flow>, ps: seq<RawPacket>, md5: Md5)
    requires SummarizesAll(flows, ps, FirstKeys(ps), md5)
    ensures TotalBytes(flows) == WireBytes(ps)
    ensures TotalPackets(flows) == |ps|
  {
    FlowTotals(flows, ps, FirstKeys(ps), md5);
    PairsPartitionPackets(ps);
  }

  // ---------- The aggregation loop ----------

  lemma {:induction false} KeyForDirection(ps: seq<RawPacket>, table: map<FlowKey, Flow>, p: RawPacket)
    requires table.Keys == (set k | k in FirstKeys(ps))
    ensures (exists i | 0 <= i < |FirstKeys(ps)| :: Same(KeyOf(p), FirstKeys(ps)[i]))
       <==> KeyOf(p) in table || Rev(KeyOf(p)) in table
    ensures forall k | k in table && InPair(p, k) :: k == KeyOf(p) || k == Rev(KeyOf(p))
    ensures KeyOf(p) in table && Rev(KeyOf(p)) in table ==> KeyOf(p) == Rev(KeyOf(p))
  {
    var keys, k := FirstKeys(ps), KeyOf(p);
    FirstKeysCoverEachPairOnce(ps);
    if k in table {
      var i :| 0 <= i < |keys| && keys[i] == k;
      assert Same(k, keys[i]);
    }
    if Rev(k) in table {
      var i :| 0 <= i < |keys| && keys[i] == Rev(k);
      assert Same(k, keys[i]);
    }
  }

  /** Every flow of the table summarizes the packets read so far. */
  predicate TableOf(table: map<FlowKey, Flow>, ps: seq<RawPacket>, md5: Md5) {
    table.Keys == (set k | k in FirstKeys(ps))
    && forall k | k in table :: Summarizes(table[k], ps, k, md5)
  }

  /** Updating or adding the one flow a packet belongs to. */
  lemma {:induction false} TableStep(table: map<FlowKey, Flow>, done: seq<RawPacket>, p: RawPacket, k: FlowKey,
                                     flow: Flow, md5: Md5)
    requires TableOf(table, done, md5) && Summarizes(flow, done + [p], k, md5)
    requires forall j | j in table && InPair(p, j) :: j == k
    requires forall j :: j in FirstKeys(done + [p]) <==> j in FirstKeys(done) || j == k
    ensures TableOf(table[k := flow], done + [p], md5)
  {
    var table' := table[k := flow];
    forall j | j in table' ensures Summarizes(table'[j], done + [p], j, md5) {
      if j != k {
        UntouchedSummarizes(table[j], done, p, j, md5);
      }
    }
  }

  /** The loop body of `extract_flows`: attach the packet to its flow, or start one. */
  method Absorb(table: map<FlowKey, Flow>, order: seq<FlowKey>, p: RawPacket, md5: Md5,
                ghost done: seq<RawPacket>)
    returns (table': map<FlowKey, Flow>, order': seq<FlowKey>)
    requires TableOf(table, done, md5) && order == FirstKeys(done)
    ensures TableOf(table', done + [p], md5) && order' == FirstKeys(done + [p])
  {
    table', order' := table, order;
    Last(done, p);
    KeyForDirection(done, table, p);
    var key, rev := KeyOf(p), Rev(KeyOf(p));
    if key in table {
      ForwardSummarizes(table[key], done, p, key, md5);
      TableStep(table, done, p, key, Forward(table[key], p, md5), md5);
      table' := table[key := Forward(table[key], p, md5)];
    } else if rev in table {
      BackwardSummarizes(table[rev], done, p, rev, md5);
      TableStep(table, done, p, rev, Backward(table[rev], p), md5);
      table' := table[rev := Backward(table[rev], p)];
    } else {
      NewPairIsAlone(done, p);
      NewFlowSummarizes(done, p, md5);
      TableStep(table, done, p, key, NewFlow(p, md5), md5);
      table' := table[key := NewFlow(p, md5)];
      order' := order + [key];
    }
  }

  /** One flow per unordered pair, in order of first appearance, each the summary of its
      packets, and together all the traffic. */
  predicate GroupsTraffic(flows: seq<Flow>, ps: seq<RawPacket>, md5: Md5) {
    && OnePerPair(FirstKeys(ps), ps)
    && SummarizesAll(flows, ps, FirstKeys(ps), md5)
    && TotalBytes(flows) == WireBytes(ps) && TotalPackets(flows) == |ps|
  }

  /** The loop of `extract_flows`: flows live in a dictionary in insertion order. */
  method Aggregate(packets: seq<RawPacket>, md5: Md5) returns (flows: seq<Flow>)
    ensures GroupsTraffic(flows, packets, md5)
  {
    var table: map<FlowKey, Flow> := map[];
    var order: seq<FlowKey> := [];
    var i := 0;
    while i < |packets|
      invariant 0 <= i <= |packets|
      invariant order == FirstKeys(packets[..i])
      invariant TableOf(table, packets[..i], md5)
    {
      table, order := Absorb(table, order, packets[i], md5, packets[..i]);
      assert packets[..i + 1] == packets[..i] + [packets[i]];
      i := i + 1;
    }
    assert packets[..i] == packets;
    flows := seq(|order|, j requires 0 <= j < |order| && order[j] in table => table[order[j]]);
    FirstKeysCoverEachPairOnce(packets);
    FlowsConserveTraffic(flows, packets, md5);
  }

  // ---------- Whole captures ----------

  lemma {:induction false} ParsedFlagsAreDistinct(ts: real, wireLen: nat, data: bytes)
    ensures ParseFrame(ts, wireLen, data).Some? ==> Distinct(ParseFrame(ts, wireLen, data).value.flags)
  {
    forall bits: byte ensures Distinct(FlagsOf(bits)) {
      FlagsAreDistinct(bits);
    }
  }

  lemma {:induction false} ReadFlagsAreDistinct(decode: Capture.Decoder, at: Capture.Source, size: nat, pos: nat)
    requires forall r :: decode(r).Some? ==> Distinct(decode(r).value.flags)
    ensures forall p | p in Capture.PacketsFrom(decode, at, size, pos) :: Distinct(p.flags)
    decreases size - pos
  {
    var r := at(pos);
    if r.Some? && pos + 16 + |r.value.data| <= size {
      ReadFlagsAreDistinct(decode, at, size, pos + 16 + |r.value.data|);
    }
  }

  lemma {:induction false} CaptureFlagsAreDistinct(file: bytes)
    ensures forall p | p in Capture.PacketsOf(file) :: Distinct(p.flags)
  {
    var f := Capture.FormatOf(file);
    if f.Some? {
      var decode := Capture.DecoderOf(ParseFrame, f.value.nano);
      forall r ensures decode(r).Some? ==> Distinct(decode(r).value.flags) {
        ParsedFlagsAreDistinct(Capture.Stamp(f.value.nano, r.sec, r.frac), r.wireLen, r.data);
      }
      ReadFlagsAreDistinct(decode, Capture.RecordsIn(f.value.little, file), |file|, 24);
    }
  }

  /** `extract_flows` on a capture file: one flow per endpoint pair, its flags without duplicates. */
  method ExtractFlows(file: bytes, md5: Md5) returns (flows: seq<Flow>)
    ensures GroupsTraffic(flows, Capture.PacketsOf(file), md5)
    ensures forall i | 0 <= i < |flows| :: Distinct(flows[i].flags)
  {
    var packets := Capture.ReadPackets(file);
    flows := Aggregate(packets, md5);
    CaptureFlagsAreDistinct(file);
    forall i | 0 <= i < |flows| ensures Distinct(flows[i].flags) {
      assert Summarizes(flows[i], packets, FirstKeys(packets)[i], md5);
    }
  }
}
