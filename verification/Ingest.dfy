/** Flow events and what the pipeline records of them in the sliding windows; whole
    pipeline runs as logs of store calls. */
module Ingest {
  import opened Wrappers
  import opened Chronology
  import opened Decimal
  import opened WindowStore

  /** A canonical flow event. An empty flow id stands for a missing one, and a zero
      timestamp is as good as missing to the ingest step. */
  datatype FlowEvent = FlowEvent(
    flowId: string,
    srcIp: string,
    srcPort: int,
    dstIp: string,
    dstPort: int,
    timestamp: real,
    bytesOut: int,
    bytesIn: int,
    packetsOut: int,
    packetsIn: int,
    syn: bool,
    ja3Hash: Option<string>,
    dnsQuery: Option<string>,
    dnsQueryType: Option<string>)

  datatype Payload =
    | Packet(dstIp: string, dstPort: int, syn: bool, byteCount: int, sourceIp: string)
    | Query(domain: string, queryType: string)
    | Probe(dstIp: string, dstPort: int)
    | Sample(timestamp: real, bytesOut: int, bytesIn: int, ja3Hash: Option<string>)

  function OrElse(o: Option<string>, other: string): string {
    if Truthy(o) then o.value else other
  }

  // ---------- Storage keys ----------

  function SourceKey(ip: string): Key {
    Key(10, ip)
  }

  function TargetKey(ip: string, port: int): Key {
    Key(10, "target:" + ip + ":" + Text(port))
  }

  function DnsKey(ip: string): Key {
    Key(60, "dns:" + ip)
  }

  function ReconKey(ip: string): Key {
    Key(60, "recon:" + ip)
  }

  function FlowKey(id: string): Key {
    Key(300, id)
  }

  /** The flow id under which an event is recorded. */
  function FlowIdOf(e: FlowEvent): string {
    if e.flowId != "" then e.flowId
    else e.srcIp + ":" + Text(e.srcPort) + "->" + e.dstIp + ":" + Text(e.dstPort)
  }

  // ---------- Recording ----------

  /** The instant an event is recorded under; `wall` is the clock of the machine. */
  function RecordTime(e: FlowEvent, wall: real): real {
    if e.timestamp == 0.0 then wall else e.timestamp
  }

  predicate IsDns(e: FlowEvent) {
    Truthy(e.dnsQuery) || e.dstPort == 53
  }

  function PacketOf(e: FlowEvent): Payload {
    Packet(e.dstIp, e.dstPort, e.syn, e.bytesOut, e.srcIp)
  }

  function DnsOps(e: FlowEvent, t: real): seq<Op<Payload>> {
    if IsDns(e)
    then [Add(DnsKey(e.srcIp), t, Query(OrElse(e.dnsQuery, "unknown.domain"), OrElse(e.dnsQueryType, "A")))]
    else []
  }

  /** The store calls of `ingest_to_store`, in order. */
  function IngestOps(e: FlowEvent, wall: real): seq<Op<Payload>> {
    var t := RecordTime(e, wall);
    [Add(SourceKey(e.srcIp), t, PacketOf(e))]
    + [Add(TargetKey(e.dstIp, e.dstPort), t, PacketOf(e))]
    + DnsOps(e, t)
    + [Add(ReconKey(e.srcIp), t, Probe(e.dstIp, e.dstPort))]
    + [Add(FlowKey(FlowIdOf(e)), t, Sample(t, e.bytesOut, e.bytesIn, e.ja3Hash))]
  }

  /** `ingest_to_store` */
  method IngestToStore(store: SlidingWindowStore<Payload>, e: FlowEvent, wall: real)
    requires store.Valid()
    modifies store`memory, store`zsets, store`log
    ensures store.Valid() && store.log == old(store.log) + IngestOps(e, wall)
  {
    var t := RecordTime(e, wall);
    store.AddEvent(SourceKey(e.srcIp), t, PacketOf(e));
    store.AddEvent(TargetKey(e.dstIp, e.dstPort), t, PacketOf(e));
    if IsDns(e) {
      store.AddEvent(DnsKey(e.srcIp), t,
                     Query(OrElse(e.dnsQuery, "unknown.domain"), OrElse(e.dnsQueryType, "A")));
    }
    store.AddEvent(ReconKey(e.srcIp), t, Probe(e.dstIp, e.dstPort));
    store.AddEvent(FlowKey(FlowIdOf(e)), t, Sample(t, e.bytesOut, e.bytesIn, e.ja3Hash));
  }

  // ---------- Whole runs ----------

  /** One event through the pipeline: it is recorded, then the engines query any keys, in
      any order, at the event's timestamp. */
  datatype Turn = Turn(event: FlowEvent, wall: real, queries: seq<Key>)

  function Queries(keys: seq<Key>, now: real): seq<Op<Payload>> {
    if keys == [] then [] else Queries(keys[..|keys| - 1], now) + [Get(keys[|keys| - 1], now)]
  }

  function TurnOps(t: Turn): seq<Op<Payload>> {
    IngestOps(t.event, t.wall) + Queries(t.queries, t.event.timestamp)
  }

  function RunLog(turns: seq<Turn>): seq<Op<Payload>> {
    if turns == [] then [] else RunLog(turns[..|turns| - 1]) + TurnOps(turns[|turns| - 1])
  }

  /** Events arrive in timestamp order, and no timestamp is zero. */
  predicate InOrderRun(turns: seq<Turn>) {
    && (forall i | 0 <= i < |turns| :: turns[i].event.timestamp != 0.0)
    && (forall i, j | 0 <= i <= j < |turns| :: turns[i].event.timestamp <= turns[j].event.timestamp)
  }

  // ---------- What a run leaves in the history of a key ----------

  lemma {:induction false} QueriesLeaveNothing(keys: seq<Key>, now: real, key: Key)
    ensures History(Queries(keys, now), key) == []
    ensures forall op | op in Queries(keys, now) :: op.Clock() == now
  {
    if keys != [] {
      QueriesLeaveNothing(keys[..|keys| - 1], now, key);
      var front := Queries(keys[..|keys| - 1], now);
      assert Queries(keys, now)[..|front|] == front;
    }
  }

  /** What one event adds to the history of one key. */
  function Recorded(e: FlowEvent, t: real, key: Key): seq<Event<Payload>> {
    (if key == SourceKey(e.srcIp) then [Timed(t, PacketOf(e))] else [])
    + (if key == TargetKey(e.dstIp, e.dstPort) then [Timed(t, PacketOf(e))] else [])
    + History(DnsOps(e, t), key)
    + (if key == ReconKey(e.srcIp) then [Timed(t, Probe(e.dstIp, e.dstPort))] else [])
    + (if key == FlowKey(FlowIdOf(e)) then [Timed(t, Sample(t, e.bytesOut, e.bytesIn, e.ja3Hash))] else [])
  }

  lemma {:induction false} HistoryOfIngest(e: FlowEvent, wall: real, key: Key)
    ensures History(IngestOps(e, wall), key) == Recorded(e, RecordTime(e, wall), key)
  {
    var t := RecordTime(e, wall);
    var a := [Add(SourceKey(e.srcIp), t, PacketOf(e))];
    var b := [Add(TargetKey(e.dstIp, e.dstPort), t, PacketOf(e))];
    var c := DnsOps(e, t);
    var d := [Add(ReconKey(e.srcIp), t, Probe(e.dstIp, e.dstPort))];
    var f := [Add(FlowKey(FlowIdOf(e)), t, Sample(t, e.bytesOut, e.bytesIn, e.ja3Hash))];
    HistoryAppend(a + b + c + d, f, key);
    HistoryAppend(a + b + c, d, key);
    HistoryAppend(a + b, c, key);
    HistoryAppend(a, b, key);
    HistoryOfOne(a[0], key);
    HistoryOfOne(b[0], key);
    HistoryOfOne(d[0], key);
    HistoryOfOne(f[0], key);
  }

  /** What a whole run leaves in the history of a key, event by event. */
  function RecordedBy(turns: seq<Turn>, key: Key): seq<Event<Payload>> {
    if turns == [] then []
    else
      var last := turns[|turns| - 1];
      RecordedBy(turns[..|turns| - 1], key) + Recorded(last.event, RecordTime(last.event, last.wall), key)
  }

  lemma {:induction false} HistoryOfRun(turns: seq<Turn>, key: Key)
    ensures History(RunLog(turns), key) == RecordedBy(turns, key)
  {
    if turns != [] {
      var front, last := turns[..|turns| - 1], turns[|turns| - 1];
      HistoryOfRun(front, key);
      HistoryAppend(RunLog(front), TurnOps(last), key);
      HistoryAppend(IngestOps(last.event, last.wall), Queries(last.queries, last.event.timestamp), key);
      HistoryOfIngest(last.event, last.wall, key);
      QueriesLeaveNothing(last.queries, last.event.timestamp, key);
    }
  }

  // ---------- What each window holds, in terms of the events ----------

  /** The instant of an event: its own, or the machine's clock where it has none. */
  function InstantOf(t: Turn): real {
    if t.event.timestamp != 0.0 then t.event.timestamp else t.wall
  }

  /** What an event leaves in the 60-second window of its source's DNS queries: its query and type
      if it has a query or goes to port 53, with stand-ins for what is missing. */
  function DnsSeen(t: Turn, ip: string): seq<Event<Payload>> {
    var e := t.event;
    if e.srcIp != ip then []
    else
      match e.dnsQuery
      case Some(domain) =>
        if domain != "" then [Timed(InstantOf(t), Query(domain, TypeSeen(e)))]
        else if e.dstPort == 53 then [Timed(InstantOf(t), Query("unknown.domain", TypeSeen(e)))] else []
      case None => if e.dstPort == 53 then [Timed(InstantOf(t), Query("unknown.domain", TypeSeen(e)))] else []
  }

  function TypeSeen(e: FlowEvent): string {
    match e.dnsQueryType
    case Some(text) => if text == "" then "A" else text
    case None => "A"
  }

  /** What an event leaves in the 10-second windows: one packet for its source, and one for the
      address and port it goes to. */
  function PacketsSeen(t: Turn, key: Key): seq<Event<Payload>> {
    var e := t.event;
    var packet := Timed(InstantOf(t), Packet(e.dstIp, e.dstPort, e.syn, e.bytesOut, e.srcIp));
    (if key == Key(10, e.srcIp) then [packet] else [])
    + (if key == Key(10, "target:" + e.dstIp + ":" + Text(e.dstPort)) then [packet] else [])
  }

  /** What an event leaves in the 300-second window of its flow, named by its flow id or else by its
      two endpoints. */
  function SamplesSeen(t: Turn, id: string): seq<Event<Payload>> {
    var e := t.event;
    var name := if e.flowId == "" then e.srcIp + ":" + Text(e.srcPort) + "->" + e.dstIp + ":" + Text(e.dstPort)
                else e.flowId;
    if name == id then [Timed(InstantOf(t), Sample(InstantOf(t), e.bytesOut, e.bytesIn, e.ja3Hash))] else []
  }

  function ProbesSeen(t: Turn, ip: string): seq<Event<Payload>> {
    if t.event.srcIp == ip then [Timed(InstantOf(t), Probe(t.event.dstIp, t.event.dstPort))] else []
  }

  /** What the turns leave, one after the other. */
  function AllSeen(seen: Turn -> seq<Event<Payload>>, turns: seq<Turn>): seq<Event<Payload>> {
    if turns == [] then [] else AllSeen(seen, turns[..|turns| - 1]) + seen(turns[|turns| - 1])
  }

  /** If every event leaves what `seen` says, a run leaves what `AllSeen` says. */
  lemma {:induction false} HistoryIsSeen(seen: Turn -> seq<Event<Payload>>, turns: seq<Turn>, key: Key)
    requires forall t: Turn :: Recorded(t.event, RecordTime(t.event, t.wall), key) == seen(t)
    ensures History(RunLog(turns), key) == AllSeen(seen, turns)
  {
    HistoryOfRun(turns, key);
    SeenByTurns(seen, turns, key);
  }

  lemma {:induction false} SeenByTurns(seen: Turn -> seq<Event<Payload>>, turns: seq<Turn>, key: Key)
    requires forall t: Turn :: Recorded(t.event, RecordTime(t.event, t.wall), key) == seen(t)
    ensures RecordedBy(turns, key) == AllSeen(seen, turns)
  {
    if turns != [] {
      SeenByTurns(seen, turns[..|turns| - 1], key);
    }
  }

  lemma {:induction false} DnsOpsHistory(e: FlowEvent, t: real, key: Key)
    ensures History(DnsOps(e, t), key)
         == if IsDns(e) && key == DnsKey(e.srcIp)
            then [Timed(t, Query(OrElse(e.dnsQuery, "unknown.domain"), OrElse(e.dnsQueryType, "A")))] else []
  {
    if IsDns(e) {
      HistoryOfOne(DnsOps(e, t)[0], key);
    }
  }

  /** The window of a source's DNS queries holds, in any run, the queries its events made. */
  lemma {:induction false} DnsHistory(turns: seq<Turn>, ip: string)
    ensures History(RunLog(turns), Key(60, "dns:" + ip)) == AllSeen((t: Turn) => DnsSeen(t, ip), turns)
  {
    var key := Key(60, "dns:" + ip);
    forall t: Turn ensures Recorded(t.event, RecordTime(t.event, t.wall), key) == DnsSeen(t, ip) {
      DnsOpsHistory(t.event, RecordTime(t.event, t.wall), key);
      SixtySecondKeys(t.event.srcIp, ip);
    }
    HistoryIsSeen((t: Turn) => DnsSeen(t, ip), turns, key);
  }

  lemma {:induction false} SixtySecondKeys(a: string, b: string)
    ensures DnsKey(a) == Key(60, "dns:" + b) <==> a == b
    ensures ReconKey(a) != Key(60, "dns:" + b) && DnsKey(a) != Key(60, "recon:" + b)
    ensures ReconKey(a) == Key(60, "recon:" + b) <==> a == b
  {
    assert DnsKey(a).name[4..] == a && ("dns:" + b)[4..] == b && ("dns:" + b)[0] == 'd';
    assert ReconKey(a).name[0] == 'r' && ReconKey(a).name[6..] == a && ("recon:" + b)[6..] == b;
  }

  /** The window of a source's probes holds, in any run, the addresses and ports of its events. */
  lemma {:induction false} ProbeHistory(turns: seq<Turn>, ip: string)
    ensures History(RunLog(turns), Key(60, "recon:" + ip)) == AllSeen((t: Turn) => ProbesSeen(t, ip), turns)
  {
    var key := Key(60, "recon:" + ip);
    forall t: Turn ensures Recorded(t.event, RecordTime(t.event, t.wall), key) == ProbesSeen(t, ip) {
      DnsOpsHistory(t.event, RecordTime(t.event, t.wall), key);
      SixtySecondKeys(t.event.srcIp, ip);
    }
    HistoryIsSeen((t: Turn) => ProbesSeen(t, ip), turns, key);
  }

  /** The 10-second windows of sources and targets hold, in any run, the packets of its events. */
  lemma {:induction false} PacketHistory(turns: seq<Turn>, name: string)
    ensures History(RunLog(turns), Key(10, name)) == AllSeen((t: Turn) => PacketsSeen(t, Key(10, name)), turns)
  {
    var key := Key(10, name);
    forall t: Turn ensures Recorded(t.event, RecordTime(t.event, t.wall), key) == PacketsSeen(t, key) {
      DnsOpsHistory(t.event, RecordTime(t.event, t.wall), key);
    }
    HistoryIsSeen((t: Turn) => PacketsSeen(t, key), turns, key);
  }

  /** The 300-second window of a flow holds, in any run, the samples of its events. */
  lemma {:induction false} SampleHistory(turns: seq<Turn>, id: string)
    ensures History(RunLog(turns), Key(300, id)) == AllSeen((t: Turn) => SamplesSeen(t, id), turns)
  {
    var key := Key(300, id);
    forall t: Turn ensures Recorded(t.event, RecordTime(t.event, t.wall), key) == SamplesSeen(t, id) {
      DnsOpsHistory(t.event, RecordTime(t.event, t.wall), key);
    }
    HistoryIsSeen((t: Turn) => SamplesSeen(t, id), turns, key);
  }

  // ---------- Clocks of a run ----------

  lemma {:induction false} TurnClocks(t: Turn)
    requires t.event.timestamp != 0.0
    ensures forall op | op in TurnOps(t) :: op.Clock() == t.event.timestamp
  {
    QueriesLeaveNothing(t.queries, t.event.timestamp, SourceKey(""));
  }

  /** No clock of an in-order run is ahead of its last event. */
  lemma {:induction false} RunClocks(turns: seq<Turn>, now: real)
    requires InOrderRun(turns)
    requires turns != [] ==> turns[|turns| - 1].event.timestamp <= now
    ensures forall op | op in RunLog(turns) :: op.Clock() <= now
  {
    if turns != [] {
      var n := |turns| - 1;
      if n > 0 {
        assert turns[n - 1].event.timestamp <= turns[n].event.timestamp;
      }
      RunClocks(turns[..n], now);
      TurnClocks(turns[n]);
    }
  }

  lemma {:induction false} HistoryStamps(e: FlowEvent, t: real, key: Key)
    ensures forall x | x in Recorded(e, t, key) :: x.ts == t
  {
    if IsDns(e) {
      HistoryOfOne(DnsOps(e, t)[0], key);
    }
  }

  /** The history of every key of an in-order run is in order. */
  lemma {:induction false} RunHistoryInOrder(turns: seq<Turn>, key: Key, now: real)
    requires InOrderRun(turns)
    requires turns != [] ==> turns[|turns| - 1].event.timestamp <= now
    ensures InOrder(RecordedBy(turns, key))
    ensures forall x | x in RecordedBy(turns, key) :: x.ts <= now
  {
    if turns != [] {
      var n := |turns| - 1;
      var t := turns[n].event.timestamp;
      if n > 0 {
        assert turns[n - 1].event.timestamp <= t;
      }
      RunHistoryInOrder(turns[..n], key, t);
      HistoryStamps(turns[n].event, t, key);
      InOrderAppend(RecordedBy(turns[..n], key), Recorded(turns[n].event, t, key), t);
    }
  }

  lemma {:induction false} InOrderAppend(a: seq<Event<Payload>>, b: seq<Event<Payload>>, t: real)
    requires InOrder(a) && (forall x | x in a :: x.ts <= t) && (forall x | x in b :: x.ts == t)
    ensures InOrder(a + b)
  {
    forall i, j | 0 <= i <= j < |a + b| ensures (a + b)[i].ts <= (a + b)[j].ts {
      assert (a + b)[j] in a || (a + b)[j] in b;
      assert (a + b)[i] in a || (a + b)[i] in b;
    }
  }

  /** During the last event of an in-order run, a query at its timestamp reads exactly what the
      run recorded under that key within the window, whatever was queried before. Redis leaves
      out the lower end of the window. */
  lemma {:induction false} RunReadsExactly(redis: bool, turns: seq<Turn>, key: Key, now: real)
    requires InOrderRun(turns)
    requires turns != [] ==> turns[|turns| - 1].event.timestamp <= now
    ensures Read(redis, RunLog(turns), key, now) == Within(RecordedBy(turns, key), Span(redis, Cutoff(key, now), now))
  {
    HistoryOfRun(turns, key);
    RunClocks(turns, now);
    RunHistoryInOrder(turns, key, now);
    ReadIsWithin(redis, RunLog(turns), key, now);
  }

  // ---------- Queries at one instant ----------

  /** However the engines' queries for an event are interleaved, each reads what it would have
      read alone: queries at the same instant never disturb each other. */
  lemma {:induction false} QueriesAreInvisible(redis: bool, log: seq<Op<Payload>>, keys: seq<Key>, key: Key, now: real)
    ensures Read(redis, log + Queries(keys, now), key, now) == Read(redis, log, key, now)
  {
    if keys == [] {
      assert log + [] == log;
    } else {
      var n := |keys| - 1;
      QueriesAreInvisible(redis, log, keys[..n], key, now);
      QueryIsInvisible(redis, log + Queries(keys[..n], now), keys[n], key, now);
      assert log + Queries(keys, now) == log + Queries(keys[..n], now) + [Get(keys[n], now)];
    }
  }
}
