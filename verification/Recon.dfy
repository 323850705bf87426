/** The reconnaissance engine over the 10- and 60-second windows, and exactly when it
    fires in a whole pipeline run. */
module Recon {
  import opened Wrappers
  import opened Sequences
  import opened Chronology
  import opened WindowStore
  import opened Ingest
  import opened Decimal
  import opened Alerts
  import Rounding

  datatype Thresholds = Thresholds(minTargetCardinality: int, maxProbeBytes: int)

  function MaxOf(a: int, b: int): int {
    if a >= b then a else b
  }

  // ---------- Window metrics ----------

  /** Distinct non-zero ports, distinct non-empty hosts, distinct endpoints. */
  function UniquePorts(ps: seq<Payload>): set<int> {
    set x | x in ps && x.Probe? && x.dstPort != 0 :: x.dstPort
  }

  function UniqueHosts(ps: seq<Payload>): set<string> {
    set x | x in ps && x.Probe? && x.dstIp != "" :: x.dstIp
  }

  function FanOut(ps: seq<Payload>): set<(string, int)> {
    set x | x in ps && x.Packet? :: (x.dstIp, x.dstPort)
  }

  // ---------- The engine ----------

  predicate ProbeProfile(e: FlowEvent, th: Thresholds) {
    (e.syn || e.bytesIn == 0) && e.bytesOut <= th.maxProbeBytes && e.packetsOut <= 2
  }

  function Cardinality(probes: seq<Payload>, packets: seq<Payload>): int {
    MaxOf(MaxOf(|UniquePorts(probes)|, |UniqueHosts(probes)|), |FanOut(packets)|)
  }

  function Confidence(cardinality: int, th: Thresholds): real {
    var bonus := Rounding.Min(0.18, (MaxOf(cardinality, 3) - th.minTargetCardinality) as real * 0.03);
    Rounding.Round(Rounding.Min(0.98, 0.80 + bonus), 10000.0)
  }

  /** `evaluate`, given the payloads of the 60-second probe window and of the 10-second
      packet window. Negative byte counts make the byte ratio raise. */
  function Judge(e: FlowEvent, probes: seq<Payload>, packets: seq<Payload>, th: Thresholds): Option<Candidate> {
    var cardinality := Cardinality(probes, packets);
    if cardinality < th.minTargetCardinality || !ProbeProfile(e, th) then None
    else if e.bytesOut < 0 || e.bytesIn < 0 then None
    else Some(Candidate(ReconScan, Confidence(cardinality, th)))
  }

  function JudgeAt(redis: bool, log: seq<Op<Payload>>, e: FlowEvent, th: Thresholds): Option<Candidate> {
    Judge(e,
          Payloads(Read(redis, log, ReconKey(e.srcIp), e.timestamp)),
          Payloads(Read(redis, log, SourceKey(e.srcIp), e.timestamp)),
          th)
  }

  /** The order in which the store hands out its payloads does not matter. */
  lemma {:induction false} JudgeIgnoresOrder(e: FlowEvent, probes: seq<Payload>, probes': seq<Payload>,
                                             packets: seq<Payload>, packets': seq<Payload>, th: Thresholds)
    requires multiset(probes) == multiset(probes') && multiset(packets) == multiset(packets')
    ensures Judge(e, probes, packets, th) == Judge(e, probes', packets', th)
  {
    SameMembers(probes, probes');
    SameMembers(packets, packets');
    assert UniquePorts(probes) == UniquePorts(probes') && UniqueHosts(probes) == UniqueHosts(probes');
    assert FanOut(packets) == FanOut(packets');
  }

  lemma {:induction false} SameMembers<T>(a: seq<T>, b: seq<T>)
    requires multiset(a) == multiset(b)
    ensures forall x :: x in a <==> x in b
  {
    forall x ensures x in a <==> x in b {
      assert x in a <==> x in multiset(a);
      assert x in b <==> x in multiset(b);
    }
  }

  /** `ReconEngine.evaluate` */
  method Evaluate(store: SlidingWindowStore<Payload>, e: FlowEvent, th: Thresholds) returns (c: Option<Candidate>)
    requires store.Valid()
    modifies store`memory, store`zsets, store`log
    ensures store.Valid()
    ensures store.log == old(store.log) + [Get(SourceKey(e.srcIp), e.timestamp)]
                         + [Get(ReconKey(e.srcIp), e.timestamp)]
    ensures c == JudgeAt(store.useRedis, old(store.log), e, th)
  {
    ghost var log, redis := store.log, store.useRedis;
    ghost var packetsRead := Read(redis, log, SourceKey(e.srcIp), e.timestamp);
    ghost var probesRead := Read(redis, log, ReconKey(e.srcIp), e.timestamp);
    var packets := store.GetEvents(SourceKey(e.srcIp), e.timestamp);
    var probes := store.GetEvents(ReconKey(e.srcIp), e.timestamp);
    QueryIsInvisible(redis, log, SourceKey(e.srcIp), ReconKey(e.srcIp), e.timestamp);
    HandedOutItems(redis, packets, packetsRead);
    HandedOutItems(redis, probes, probesRead);
    JudgeIgnoresOrder(e, probes, Payloads(probesRead), packets, Payloads(packetsRead), th);
    c := Judge(e, probes, packets, th);
  }

  /** A candidate's confidence lies in [0.80, 0.98]. */
  lemma {:induction false} ConfidenceRange(e: FlowEvent, probes: seq<Payload>, packets: seq<Payload>, th: Thresholds)
    ensures var c := Judge(e, probes, packets, th);
      c.Some? ==> 0.80 <= c.value.confidence <= 0.98
  {
    var n := Cardinality(probes, packets);
    if n >= th.minTargetCardinality {
      ConfidenceBounds(n, th);
    }
  }

  lemma {:induction false} ConfidenceBounds(cardinality: int, th: Thresholds)
    requires cardinality >= th.minTargetCardinality
    ensures 0.80 <= Confidence(cardinality, th) <= 0.98
  {
    var bonus := Rounding.Min(0.18, (MaxOf(cardinality, 3) - th.minTargetCardinality) as real * 0.03);
    var raw := Rounding.Min(0.98, 0.80 + bonus);
    assert (MaxOf(cardinality, 3) - th.minTargetCardinality) as real >= 0.0;
    Rounding.Monotone(0.80, raw, 10000.0);
    Rounding.Monotone(raw, 0.98, 10000.0);
    Rounding.Exact(8000, 10000.0);
    Rounding.Exact(9800, 10000.0);
  }

  /** The score of a number of targets, of which `needed` are required: 0.80, and 0.03 for each
      beyond those, up to 0.98. Fewer than three targets score like three. */
  function ScanScore(targets: int, needed: int): real {
    var beyond := (if targets < 3 then 3 else targets) - needed;
    if beyond >= 6 then 0.98 else 0.80 + beyond as real * 0.03
  }

  lemma {:induction false} ScanConfidence(cardinality: int, th: Thresholds)
    requires cardinality >= th.minTargetCardinality
    ensures Confidence(cardinality, th) == ScanScore(cardinality, th.minTargetCardinality)
  {
    var beyond := MaxOf(cardinality, 3) - th.minTargetCardinality;
    var extra := if beyond >= 6 then 6 else beyond;
    assert beyond as real * 0.03 >= 0.18 <==> extra == 6;
    var raw := 0.80 + extra as real * 0.03;
    assert raw == (8000 + extra * 300) as real / 10000.0;
    Rounding.Exact(8000 + extra * 300, 10000.0);
  }

  // ---------- Exactly when a run fires ----------

  predicate During(t: Turn, span: Span) {
    span.Has(t.event.timestamp)
  }

  function PortsProbed(turns: seq<Turn>, ip: string, span: Span): set<int> {
    set t | t in turns && During(t, span) && t.event.srcIp == ip && t.event.dstPort != 0 :: t.event.dstPort
  }

  function HostsProbed(turns: seq<Turn>, ip: string, span: Span): set<string> {
    set t | t in turns && During(t, span) && t.event.srcIp == ip && t.event.dstIp != "" :: t.event.dstIp
  }

  /** The packet windows of sources and of targets share one name space: a packet counts for
      its own source, and for a source whose text is the storage name of its target. */
  predicate CountsFor(e: FlowEvent, ip: string) {
    e.srcIp == ip || TargetKey(e.dstIp, e.dstPort) == SourceKey(ip)
  }

  function EndpointsContacted(turns: seq<Turn>, ip: string, span: Span): set<(string, int)> {
    set t | t in turns && During(t, span) && CountsFor(t.event, ip) :: (t.event.dstIp, t.event.dstPort)
  }

  /** No address is mistaken for a target: then only a source's own packets count for it. */
  lemma {:induction false} AddressesCountAlone(e: FlowEvent, ip: string)
    requires !("target:" <= ip)
    ensures CountsFor(e, ip) <==> e.srcIp == ip
  {
    assert TargetKey(e.dstIp, e.dstPort).name == "target:" + (e.dstIp + ":" + Text(e.dstPort));
  }

  lemma {:induction false} ReconRecorded(e: FlowEvent, t: real, ip: string)
    ensures Recorded(e, t, ReconKey(ip)) == if e.srcIp == ip then [Timed(t, Probe(e.dstIp, e.dstPort))] else []
  {
    assert ReconKey(ip).name[0] == 'r' && DnsKey(e.srcIp).name[0] == 'd';
    assert ReconKey(e.srcIp).name[6..] == e.srcIp && ReconKey(ip).name[6..] == ip;
    if IsDns(e) {
      HistoryOfOne(DnsOps(e, t)[0], ReconKey(ip));
    }
  }

  lemma {:induction false} SourceRecorded(e: FlowEvent, t: real, ip: string)
    ensures forall x :: x in Recorded(e, t, SourceKey(ip)) <==> x == Timed(t, PacketOf(e)) && CountsFor(e, ip)
  {
    if IsDns(e) {
      HistoryOfOne(DnsOps(e, t)[0], SourceKey(ip));
    }
  }

  /** The turn put `x` into the window of `key`. */
  predicate PutBy(t: Turn, key: Key, span: Span, x: Payload) {
    During(t, span) && Timed(t.event.timestamp, x) in Recorded(t.event, t.event.timestamp, key)
  }

  predicate PutBySome(turns: seq<Turn>, key: Key, span: Span, x: Payload) {
    exists t | t in turns :: PutBy(t, key, span, x)
  }

  predicate InWindow(turns: seq<Turn>, key: Key, span: Span, x: Payload) {
    x in Payloads(Within(RecordedBy(turns, key), span))
  }

  predicate Stamped(turns: seq<Turn>) {
    forall i | 0 <= i < |turns| :: turns[i].event.timestamp != 0.0
  }

  lemma {:induction false} EmptyRunWindow(key: Key, span: Span, x: Payload)
    ensures !InWindow([], key, span, x) && !PutBySome([], key, span, x)
  {
  }

  lemma {:induction false} PutByStep(turns: seq<Turn>, last: Turn, key: Key, span: Span, x: Payload)
    ensures PutBySome(turns + [last], key, span, x) <==> PutBySome(turns, key, span, x) || PutBy(last, key, span, x)
  {
  }

  lemma {:induction false} WindowStep(turns: seq<Turn>, last: Turn, key: Key, span: Span, x: Payload)
    requires last.event.timestamp != 0.0
    ensures InWindow(turns + [last], key, span, x) <==> InWindow(turns, key, span, x) || PutBy(last, key, span, x)
  {
    assert (turns + [last])[..|turns|] == turns;
    var ts := last.event.timestamp;
    HistoryStamps(last.event, ts, key);
    WithinMore(RecordedBy(turns, key), Recorded(last.event, ts, key), ts, span, x);
  }

  /** The payloads in a window of a run are those the turns inside that window put there. */
  lemma {:induction false} WindowOfRun(turns: seq<Turn>, key: Key, span: Span, x: Payload)
    requires Stamped(turns)
    ensures InWindow(turns, key, span, x) <==> PutBySome(turns, key, span, x)
  {
    var holds := (run: seq<Turn>) => Stamped(run) ==> (InWindow(run, key, span, x) <==> PutBySome(run, key, span, x));
    EmptyRunWindow(key, span, x);
    forall run, last | holds(run) ensures holds(run + [last]) {
      if Stamped(run + [last]) {
        StampedFront(run, last);
        WindowStep(run, last, key, span, x);
        PutByStep(run, last, key, span, x);
      }
    }
    BySnoc(holds, turns);
  }

  lemma {:induction false} StampedFront(run: seq<Turn>, last: Turn)
    requires Stamped(run + [last])
    ensures Stamped(run) && last.event.timestamp != 0.0
  {
    assert forall i | 0 <= i < |run| :: (run + [last])[i] == run[i];
    assert (run + [last])[|run|] == last;
  }

  /** Membership in a window after recording more events of one instant. */
  lemma {:induction false} WithinMore(es: seq<Event<Payload>>, more: seq<Event<Payload>>, ts: real, span: Span,
                                      x: Payload)
    requires forall y | y in more :: y.ts == ts
    ensures x in Payloads(Within(es + more, span))
       <==> x in Payloads(Within(es, span)) || (span.Has(ts) && Timed(ts, x) in more)
  {
    WithinSplit(es, more, span);
    PayloadIn(Within(es + more, span), x);
    PayloadIn(Within(es, span), x);
    forall y ensures y in Within(more, span) <==> y in more && span.Has(ts) {
      WithinBounds(more, span, y);
    }
    if exists y | y in Within(more, span) :: y.item == x {
      var y :| y in Within(more, span) && y.item == x;
      assert y == Timed(ts, x);
    }
  }

  lemma {:induction false} PayloadIn(es: seq<Event<Payload>>, x: Payload)
    ensures x in Payloads(es) <==> exists y | y in es :: y.item == x
  {
    if x in Payloads(es) {
      var i :| 0 <= i < |es| && Payloads(es)[i] == x;
      assert es[i] in es;
    }
    if exists y | y in es :: y.item == x {
      var y :| y in es && y.item == x;
      var i :| 0 <= i < |es| && es[i] == y;
      assert Payloads(es)[i] == x;
    }
  }

  predicate Probed(turns: seq<Turn>, ip: string, span: Span, x: Payload) {
    exists t | t in turns :: During(t, span) && t.event.srcIp == ip && x == Probe(t.event.dstIp, t.event.dstPort)
  }

  predicate Contacted(turns: seq<Turn>, ip: string, span: Span, x: Payload) {
    exists t | t in turns :: During(t, span) && CountsFor(t.event, ip) && x == PacketOf(t.event)
  }

  lemma {:induction false} ProbeInWindow(turns: seq<Turn>, ip: string, span: Span, x: Payload)
    requires Stamped(turns)
    ensures InWindow(turns, ReconKey(ip), span, x) <==> Probed(turns, ip, span, x)
  {
    WindowOfRun(turns, ReconKey(ip), span, x);
    forall t | t in turns
      ensures PutBy(t, ReconKey(ip), span, x)
         <==> During(t, span) && t.event.srcIp == ip && x == Probe(t.event.dstIp, t.event.dstPort)
    {
      ReconRecorded(t.event, t.event.timestamp, ip);
    }
  }

  lemma {:induction false} PacketInWindow(turns: seq<Turn>, ip: string, span: Span, x: Payload)
    requires Stamped(turns)
    ensures InWindow(turns, SourceKey(ip), span, x) <==> Contacted(turns, ip, span, x)
  {
    WindowOfRun(turns, SourceKey(ip), span, x);
    forall t | t in turns
      ensures PutBy(t, SourceKey(ip), span, x) <==> During(t, span) && CountsFor(t.event, ip) && x == PacketOf(t.event)
    {
      SourceRecorded(t.event, t.event.timestamp, ip);
    }
  }

  /** Payloads that are exactly the probes of the source have its ports and hosts. */
  lemma {:induction false} SetsOfProbes(ps: seq<Payload>, turns: seq<Turn>, ip: string, span: Span)
    requires forall x :: x in ps <==> Probed(turns, ip, span, x)
    ensures UniquePorts(ps) == PortsProbed(turns, ip, span) && UniqueHosts(ps) == HostsProbed(turns, ip, span)
  {
    forall t | t in turns && During(t, span) && t.event.srcIp == ip
      ensures Probe(t.event.dstIp, t.event.dstPort) in ps
    {
      assert Probed(turns, ip, span, Probe(t.event.dstIp, t.event.dstPort));
    }
  }

  lemma {:induction false} SetOfPackets(ps: seq<Payload>, turns: seq<Turn>, ip: string, span: Span)
    requires forall x :: x in ps <==> Contacted(turns, ip, span, x)
    ensures FanOut(ps) == EndpointsContacted(turns, ip, span)
  {
    forall t | t in turns && During(t, span) && CountsFor(t.event, ip) ensures PacketOf(t.event) in ps {
      assert Contacted(turns, ip, span, PacketOf(t.event));
    }
  }

  lemma {:induction false} ProbeSets(turns: seq<Turn>, ip: string, span: Span)
    requires Stamped(turns)
    ensures var ps := Payloads(Within(RecordedBy(turns, ReconKey(ip)), span));
      UniquePorts(ps) == PortsProbed(turns, ip, span) && UniqueHosts(ps) == HostsProbed(turns, ip, span)
  {
    var ps := Payloads(Within(RecordedBy(turns, ReconKey(ip)), span));
    forall x ensures x in ps <==> Probed(turns, ip, span, x) {
      ProbeInWindow(turns, ip, span, x);
    }
    SetsOfProbes(ps, turns, ip, span);
  }

  lemma {:induction false} PacketSets(turns: seq<Turn>, ip: string, span: Span)
    requires Stamped(turns)
    ensures var ps := Payloads(Within(RecordedBy(turns, SourceKey(ip)), span));
      FanOut(ps) == EndpointsContacted(turns, ip, span)
  {
    var ps := Payloads(Within(RecordedBy(turns, SourceKey(ip)), span));
    forall x ensures x in ps <==> Contacted(turns, ip, span, x) {
      PacketInWindow(turns, ip, span, x);
    }
    SetOfPackets(ps, turns, ip, span);
  }

  /** Enough distinct targets: ports or hosts within 60 seconds, endpoints within 10. Redis
      leaves out the lower end of both windows. */
  predicate EnoughTargets(redis: bool, turns: seq<Turn>, e: FlowEvent, n: int) {
    var now := e.timestamp;
    || |PortsProbed(turns, e.srcIp, Span(redis, now - 60.0, now))| >= n
    || |HostsProbed(turns, e.srcIp, Span(redis, now - 60.0, now))| >= n
    || |EndpointsContacted(turns, e.srcIp, Span(redis, now - 10.0, now))| >= n
  }

  /** The most distinct targets by any of the three counts. */
  function Targets(redis: bool, turns: seq<Turn>, e: FlowEvent): (n: nat)
    ensures forall k :: n >= k <==> k <= 0 || EnoughTargets(redis, turns, e, k)
  {
    var now := e.timestamp;
    var ports := |PortsProbed(turns, e.srcIp, Span(redis, now - 60.0, now))|;
    var hosts := |HostsProbed(turns, e.srcIp, Span(redis, now - 60.0, now))|;
    var endpoints := |EndpointsContacted(turns, e.srcIp, Span(redis, now - 10.0, now))|;
    if ports >= hosts && ports >= endpoints then ports else if hosts >= endpoints then hosts else endpoints
  }

  lemma {:induction false} JudgeExactly(e: FlowEvent, probes: seq<Payload>, packets: seq<Payload>, n: int,
                                        th: Thresholds)
    requires n == Cardinality(probes, packets)
    ensures Judge(e, probes, packets, th)
         == if (e.syn || e.bytesIn == 0) && 0 <= e.bytesOut <= th.maxProbeBytes && e.bytesIn >= 0 && e.packetsOut <= 2
               && n >= th.minTargetCardinality
            then Some(Candidate(ReconScan, ScanScore(n, th.minTargetCardinality)))
            else None
  {
    if n >= th.minTargetCardinality {
      ScanConfidence(n, th);
    }
  }

  /** The two windows the engine reads on the last event of an in-order run. */
  lemma {:induction false} RunWindows(redis: bool, turns: seq<Turn>, e: FlowEvent)
    requires turns != [] && InOrderRun(turns) && e == turns[|turns| - 1].event
    ensures var now := e.timestamp;
      var probes := Payloads(Read(redis, RunLog(turns), ReconKey(e.srcIp), now));
      var packets := Payloads(Read(redis, RunLog(turns), SourceKey(e.srcIp), now));
      && UniquePorts(probes) == PortsProbed(turns, e.srcIp, Span(redis, now - 60.0, now))
      && UniqueHosts(probes) == HostsProbed(turns, e.srcIp, Span(redis, now - 60.0, now))
      && FanOut(packets) == EndpointsContacted(turns, e.srcIp, Span(redis, now - 10.0, now))
  {
    var now := e.timestamp;
    RunReadsExactly(redis, turns, ReconKey(e.srcIp), now);
    RunReadsExactly(redis, turns, SourceKey(e.srcIp), now);
    ProbeSets(turns, e.srcIp, Span(redis, now - 60.0, now));
    PacketSets(turns, e.srcIp, Span(redis, now - 10.0, now));
  }

  /** In any in-order run, whatever else is queried, the last event yields a candidate exactly
      when it opens or gets no answer, carries at most the allowed bytes in at most two packets,
      and its source has reached enough distinct targets; the candidate is then a scan with the
      score of that number of targets, in [0.80, 0.98]. */
  lemma {:induction false} ReconFiresExactly(redis: bool, turns: seq<Turn>, e: FlowEvent, th: Thresholds)
    requires turns != [] && InOrderRun(turns) && e == turns[|turns| - 1].event
    ensures var c, n := JudgeAt(redis, RunLog(turns), e, th), Targets(redis, turns, e);
      && (c.Some? <==> (e.syn || e.bytesIn == 0) && 0 <= e.bytesOut <= th.maxProbeBytes && e.bytesIn >= 0
                       && e.packetsOut <= 2 && n >= th.minTargetCardinality)
      && (c.Some? ==> c.value == Candidate(ReconScan, ScanScore(n, th.minTargetCardinality))
                      && 0.80 <= c.value.confidence <= 0.98)
  {
    RunWindows(redis, turns, e);
    var probes := Payloads(Read(redis, RunLog(turns), ReconKey(e.srcIp), e.timestamp));
    var packets := Payloads(Read(redis, RunLog(turns), SourceKey(e.srcIp), e.timestamp));
    JudgeExactly(e, probes, packets, Targets(redis, turns, e), th);
    ConfidenceRange(e, probes, packets, th);
  }
}
