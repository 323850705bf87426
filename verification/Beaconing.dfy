/** The beaconing engine over the 300-second window, and its completeness for periodic
    heartbeats through a whole pipeline run. */
module Beaconing {
  import opened Wrappers
  import opened Sequences
  import opened Chronology
  import opened WindowStore
  import opened Ingest
  import opened Statistics
  import opened Alerts
  import Rounding

  datatype Thresholds = Thresholds(maxVariance: real, minHeartbeats: int, minPeriod: real)

  /** `sd` is the square root of the variance of the gaps. */
  predicate IsDeviation(sd: real, deltas: seq<real>) {
    sd >= 0.0 && deltas != [] && Square(sd) == Variance(deltas)
  }

  datatype Periodicity = Periodicity(mean: real, concentration: real, autocorrelation: real)

  /** `_compute_fft_periodicity` */
  function PeriodicityOf(deltas: seq<real>, sd: real): Periodicity {
    if |deltas| < 2 then Periodicity(0.0, 0.0, 0.0)
    else
      var mean := Mean(deltas);
      var jitter := sd / Rounding.Max(mean, 0.0001);
      Periodicity(mean,
                  Rounding.Round(Rounding.Max(0.0, 1.0 - Rounding.Min(jitter, 1.0)), 10000.0),
                  Rounding.Round(Autocorrelation(deltas), 10000.0))
  }

  /** The detection condition. */
  predicate LooksPeriodic(p: Periodicity, variance: real, th: Thresholds) {
    p.mean >= th.minPeriod
    && (variance <= th.maxVariance || p.concentration >= 0.85 || p.autocorrelation >= 0.70)
  }

  function Confidence(variance: real, heartbeats: int, th: Thresholds): real {
    var varianceBonus := Rounding.Min(0.12, (th.maxVariance - Rounding.Min(variance, th.maxVariance)) * 2.0);
    var sampleBonus := Rounding.Min(0.05, (heartbeats - 3) as real * 0.01);
    Rounding.Round(Rounding.Min(0.99, 0.82 + varianceBonus + sampleBonus), 10000.0)
  }

  /** Enough heartbeats, and the detection condition holds for their gaps. */
  predicate Fires(timestamps: seq<real>, th: Thresholds, sd: real) {
    && |timestamps| >= th.minHeartbeats && |timestamps| >= 2
    && LooksPeriodic(PeriodicityOf(Deltas(SortedOf(timestamps)), sd), InterArrivalVariance(timestamps), th)
  }

  /** `evaluate`, given the timestamps and byte totals of the window. Negative byte totals
      make the byte ratio raise, which the aggregator turns into no candidate. */
  function Judge(timestamps: seq<real>, bytesOut: int, bytesIn: int, th: Thresholds, sd: real): Option<Candidate> {
    if bytesOut < 0 || bytesIn < 0 || !Fires(timestamps, th, sd) then None
    else Some(Candidate(BotnetC2, Confidence(InterArrivalVariance(timestamps), |timestamps|, th)))
  }

  // ---------- Equally spaced heartbeats always qualify ----------

  predicate Spaced(ts: seq<real>, p: real) {
    forall i | 0 <= i < |ts| - 1 :: ts[i + 1] - ts[i] == p
  }

  lemma {:induction false} SpacedIsSorted(ts: seq<real>, p: real)
    requires Spaced(ts, p) && p >= 0.0
    ensures Sorted(ts)
  {
    if |ts| > 1 {
      var n := |ts| - 1;
      SpacedIsSorted(ts[..n], p);
      assert ts[n] - ts[n - 1] == p;
      forall i | 0 <= i < n ensures ts[i] <= ts[n] {
        assert ts[..n][i] <= ts[..n][n - 1];
      }
    }
  }

  lemma {:induction false} ZeroDeviation(sd: real)
    requires Square(sd) == 0.0
    ensures sd == 0.0
  {
    SquareSign(sd);
  }

  lemma {:induction false} SpacedVariance(ts: seq<real>, p: real)
    requires Spaced(ts, p) && p >= 0.0 && |ts| >= 3
    ensures SortedOf(ts) == ts
    ensures Mean(Deltas(ts)) == p && Variance(Deltas(ts)) == 0.0
  {
    SpacedIsSorted(ts, p);
    AlreadySorted(ts);
    MeanOfEqual(Deltas(ts), p);
    VarianceZero(Deltas(ts));
  }

  lemma {:induction false} FullConcentration(deltas: seq<real>)
    requires |deltas| >= 2
    ensures PeriodicityOf(deltas, 0.0).concentration == 1.0
    ensures PeriodicityOf(deltas, 0.0).mean == Mean(deltas)
  {
    var m := Rounding.Max(Mean(deltas), 0.0001);
    assert 0.0 / m == 0.0;
    Rounding.Exact(10000, 10000.0);
  }

  lemma {:induction false} ConcentratedIsPeriodic(p: Periodicity, variance: real, th: Thresholds)
    requires p.mean >= th.minPeriod && p.concentration == 1.0
    ensures LooksPeriodic(p, variance, th)
  {
  }

  /** Any three or more equally spaced heartbeats at or above the minimum period qualify,
      whatever the variance threshold. */
  lemma {:induction false} SpacedHeartbeatsQualify(ts: seq<real>, p: real, th: Thresholds, sd: real)
    requires Spaced(ts, p) && p >= 0.0 && p >= th.minPeriod
    requires |ts| >= 3 && |ts| >= th.minHeartbeats
    requires IsDeviation(sd, Deltas(SortedOf(ts)))
    ensures Fires(ts, th, sd)
  {
    SpacedVariance(ts, p);
    ZeroDeviation(sd);
    FullConcentration(Deltas(ts));
    ConcentratedIsPeriodic(PeriodicityOf(Deltas(ts), 0.0), InterArrivalVariance(ts), th);
  }

  // ---------- Heartbeats with jitter ----------

  /** The square of the jitter, rounded as the engine rounds the variance, is allowed. */
  predicate Tolerates(th: Thresholds, d: real) {
    Rounding.Round(Square(d), 1000000.0) <= th.maxVariance
  }

  /** For a threshold of at most six digits that is the case if the square itself is allowed. */
  lemma {:induction false} ToleratesWithin(th: Thresholds, d: real, k: int)
    requires th.maxVariance == k as real / 1000000.0 && Square(d) <= th.maxVariance
    ensures Tolerates(th, d)
  {
    Rounding.Monotone(Square(d), th.maxVariance, 1000000.0);
    Rounding.Exact(k, 1000000.0);
  }

  /** Three or more heartbeats whose gaps all lie within `d` of `p` qualify, if the jitter is
      tolerated and the shortest possible gap is not below the minimum period. */
  lemma {:induction false} JitteryHeartbeatsQualify(ts: seq<real>, p: real, d: real, th: Thresholds, sd: real)
    requires Sorted(ts) && Near(Deltas(ts), p, d)
    requires |ts| >= 3 && |ts| >= th.minHeartbeats && p - d >= th.minPeriod && Tolerates(th, d)
    ensures Fires(ts, th, sd)
  {
    AlreadySorted(ts);
    NearVariance(Deltas(ts), p, d);
    MeanAtLeast(Deltas(ts), p - d);
    Rounding.Monotone(Variance(Deltas(ts)), Square(d), 1000000.0);
    assert PeriodicityOf(Deltas(ts), sd).mean == Mean(Deltas(ts));
  }

  /** Every candidate's confidence lies in [0.81, 0.99]. */
  lemma {:induction false} ConfidenceRange(ts: seq<real>, bytesOut: int, bytesIn: int, th: Thresholds, sd: real)
    ensures var c := Judge(ts, bytesOut, bytesIn, th, sd);
      c.Some? ==> 0.81 <= c.value.confidence <= 0.99
  {
    if Judge(ts, bytesOut, bytesIn, th, sd).Some? {
      ConfidenceBounds(InterArrivalVariance(ts), |ts|, th);
    }
  }

  lemma {:induction false} ConfidenceBounds(variance: real, heartbeats: int, th: Thresholds)
    requires heartbeats >= 2
    ensures 0.81 <= Confidence(variance, heartbeats, th) <= 0.99
  {
    var v := Rounding.Min(0.12, (th.maxVariance - Rounding.Min(variance, th.maxVariance)) * 2.0);
    var s := Rounding.Min(0.05, (heartbeats - 3) as real * 0.01);
    var raw := Rounding.Min(0.99, 0.82 + v + s);
    assert (heartbeats - 3) as real >= -1.0;
    Rounding.Monotone(0.81, raw, 10000.0);
    Rounding.Monotone(raw, 0.99, 10000.0);
    Rounding.Exact(8100, 10000.0);
    Rounding.Exact(9900, 10000.0);
  }

  /** With the shipped thresholds, perfectly regular heartbeats score 0.92, plus 0.01 for each
      heartbeat beyond three up to five. */
  lemma {:induction false} RegularConfidence(heartbeats: int, th: Thresholds)
    requires heartbeats >= 3 && th.maxVariance == 0.05
    ensures Confidence(0.0, heartbeats, th)
         == 0.92 + (if heartbeats >= 8 then 0.05 else (heartbeats - 3) as real * 0.01)
  {
    var extra := if heartbeats >= 8 then 5 else heartbeats - 3;
    assert (heartbeats - 3) as real * 0.01 >= 0.05 <==> heartbeats >= 8;
    var raw := 0.92 + extra as real * 0.01;
    assert raw == (9200 + extra * 100) as real / 10000.0;
    Rounding.Exact(9200 + extra * 100, 10000.0);
  }

  // ---------- Through the store ----------

  /** The flow id the engine looks an event up under. */
  function LookupId(e: FlowEvent): string {
    if e.flowId != "" then e.flowId else e.srcIp + "->" + e.dstIp
  }

  /** The key the engine queries. */
  function BeaconTarget(e: FlowEvent): Key {
    FlowKey(LookupId(e))
  }

  function Stamps(ps: seq<Payload>): seq<real> {
    if ps == [] then [] else (if ps[0].Sample? then [ps[0].timestamp] else []) + Stamps(ps[1..])
  }

  function TotalOut(ps: seq<Payload>): int {
    if ps == [] then 0 else (if ps[0].Sample? then ps[0].bytesOut else 0) + TotalOut(ps[1..])
  }

  function TotalIn(ps: seq<Payload>): int {
    if ps == [] then 0 else (if ps[0].Sample? then ps[0].bytesIn else 0) + TotalIn(ps[1..])
  }

  function JudgePayloads(ps: seq<Payload>, th: Thresholds, sd: real): Option<Candidate> {
    Judge(Stamps(ps), TotalOut(ps), TotalIn(ps), th, sd)
  }

  /** What the engine concludes for event `e` when the store has seen the calls of `log`. */
  function JudgeAt(redis: bool, log: seq<Op<Payload>>, e: FlowEvent, th: Thresholds, sd: real): Option<Candidate> {
    JudgePayloads(Payloads(Read(redis, log, BeaconTarget(e), e.timestamp)), th, sd)
  }

  lemma {:induction false} MetricsAppend(a: seq<Payload>, b: seq<Payload>)
    ensures Stamps(a + b) == Stamps(a) + Stamps(b)
    ensures TotalOut(a + b) == TotalOut(a) + TotalOut(b) && TotalIn(a + b) == TotalIn(a) + TotalIn(b)
  {
    if a == [] {
      assert a + b == b;
    } else {
      assert (a + b)[1..] == a[1..] + b;
      MetricsAppend(a[1..], b);
    }
  }

  /** Same timestamps in some order, same totals. */
  predicate SameMetrics(ps: seq<Payload>, qs: seq<Payload>) {
    && multiset(Stamps(ps)) == multiset(Stamps(qs))
    && TotalOut(ps) == TotalOut(qs) && TotalIn(ps) == TotalIn(qs)
  }

  lemma {:induction false} PutBetween(a: seq<real>, left: seq<real>, x: seq<real>, right: seq<real>)
    requires multiset(a) == multiset(left + right)
    ensures multiset(a + x) == multiset(left + x + right)
  {
  }

  lemma {:induction false} MetricsBetween(left: seq<Payload>, x: Payload, right: seq<Payload>)
    ensures var s := left + [x] + right;
      && Stamps(s) == Stamps(left) + Stamps([x]) + Stamps(right)
      && TotalOut(s) == TotalOut(left) + TotalOut([x]) + TotalOut(right)
      && TotalIn(s) == TotalIn(left) + TotalIn([x]) + TotalIn(right)
  {
    MetricsAppend(left + [x], right);
    MetricsAppend(left, [x]);
  }

  lemma {:induction false} StampsStep(ps: seq<Payload>, x: Payload, left: seq<Payload>, right: seq<Payload>)
    requires multiset(Stamps(ps)) == multiset(Stamps(left + right))
    ensures multiset(Stamps(ps + [x])) == multiset(Stamps(left + [x] + right))
  {
    MetricsAppend(ps, [x]);
    MetricsAppend(left, right);
    MetricsBetween(left, x, right);
    PutBetween(Stamps(ps), Stamps(left), Stamps([x]), Stamps(right));
  }

  lemma {:induction false} TotalsStep(ps: seq<Payload>, x: Payload, left: seq<Payload>, right: seq<Payload>)
    requires TotalOut(ps) == TotalOut(left + right) && TotalIn(ps) == TotalIn(left + right)
    ensures TotalOut(ps + [x]) == TotalOut(left + [x] + right) && TotalIn(ps + [x]) == TotalIn(left + [x] + right)
  {
    MetricsAppend(ps, [x]);
    MetricsAppend(left, right);
    MetricsBetween(left, x, right);
  }

  lemma {:induction false} SameMetricsStep(ps: seq<Payload>, x: Payload, left: seq<Payload>, right: seq<Payload>)
    requires SameMetrics(ps, left + right)
    ensures SameMetrics(ps + [x], left + [x] + right)
  {
    StampsStep(ps, x, left, right);
    TotalsStep(ps, x, left, right);
  }

  lemma {:induction false} JudgeIgnoresStampOrder(a: seq<real>, b: seq<real>, bytesOut: int, bytesIn: int,
                                                  th: Thresholds,
                                                  sd: real)
    requires multiset(a) == multiset(b)
    ensures Judge(a, bytesOut, bytesIn, th, sd) == Judge(b, bytesOut, bytesIn, th, sd)
  {
    assert |a| == |multiset(a)| == |multiset(b)| == |b|;
    SortedSpec(a);
    SortedSpec(b);
    SortedIsUnique(SortedOf(a), SortedOf(b));
    VarianceIgnoresOrder(a, b);
  }

  /** The order in which the store hands out its payloads does not matter. */
  lemma {:induction false} JudgeIgnoresOrder(ps: seq<Payload>, qs: seq<Payload>, th: Thresholds, sd: real)
    requires multiset(ps) == multiset(qs)
    ensures JudgePayloads(ps, th, sd) == JudgePayloads(qs, th, sd)
  {
    forall s, x, left, right | SameMetrics(s, left + right) ensures SameMetrics(s + [x], left + [x] + right) {
      SameMetricsStep(s, x, left, right);
    }
    ByReordering(SameMetrics, ps, qs);
    JudgeIgnoresStampOrder(Stamps(ps), Stamps(qs), TotalOut(ps), TotalIn(ps), th, sd);
  }

  /** `BeaconingEngine.evaluate`. `sd` stands for the square root the engine takes of the
      variance of the gaps. */
  method Evaluate(store: SlidingWindowStore<Payload>, e: FlowEvent, th: Thresholds, sd: real)
    returns (c: Option<Candidate>)
    requires store.Valid()
    modifies store`memory, store`zsets, store`log
    ensures store.Valid() && store.log == old(store.log) + [Get(BeaconTarget(e), e.timestamp)]
    ensures c == JudgeAt(store.useRedis, old(store.log), e, th, sd)
  {
    ghost var read := Read(store.useRedis, store.log, BeaconTarget(e), e.timestamp);
    var ps := store.GetEvents(BeaconTarget(e), e.timestamp);
    c := JudgePayloads(ps, th, sd);
    HandedOutItems(store.useRedis, ps, read);
    JudgeIgnoresOrder(ps, Payloads(read), th, sd);
  }

  // ---------- What a run shows the engine ----------

  /** What the run recorded for one flow, oldest first. */
  function Heartbeats(turns: seq<Turn>, id: string): seq<Event<Payload>> {
    if turns == [] then []
    else
      var e, wall := turns[|turns| - 1].event, turns[|turns| - 1].wall;
      var t := RecordTime(e, wall);
      Heartbeats(turns[..|turns| - 1], id)
      + if FlowIdOf(e) == id then [Timed(t, Sample(t, e.bytesOut, e.bytesIn, e.ja3Hash))] else []
  }

  lemma {:induction false} FlowHistory(turns: seq<Turn>, id: string)
    ensures RecordedBy(turns, FlowKey(id)) == Heartbeats(turns, id)
  {
    if turns != [] {
      FlowHistory(turns[..|turns| - 1], id);
      var e, wall := turns[|turns| - 1].event, turns[|turns| - 1].wall;
      if IsDns(e) {
        HistoryOfOne(DnsOps(e, RecordTime(e, wall))[0], FlowKey(id));
      }
    }
  }

  /** The last 300 seconds of a backend's window; Redis leaves out the lower end. */
  function Recent(redis: bool, now: real): Span {
    Span(redis, now - 300.0, now)
  }

  /** The recent heartbeats recorded under the text the engine looks `e` up by. */
  function Seen(redis: bool, turns: seq<Turn>, e: FlowEvent): seq<Event<Payload>> {
    Within(Heartbeats(turns, LookupId(e)), Recent(redis, e.timestamp))
  }

  /** `e` is the last event of an in-order run. */
  predicate EndsWith(turns: seq<Turn>, e: FlowEvent) {
    turns != [] && InOrderRun(turns) && e == turns[|turns| - 1].event
  }

  /** In any in-order run, the engine reads exactly those heartbeats. */
  lemma {:induction false} RunShowsSeen(redis: bool, turns: seq<Turn>, e: FlowEvent)
    requires EndsWith(turns, e)
    ensures InOrder(Heartbeats(turns, LookupId(e)))
    ensures forall x | x in Heartbeats(turns, LookupId(e)) :: x.ts <= e.timestamp
    ensures Read(redis, RunLog(turns), BeaconTarget(e), e.timestamp) == Seen(redis, turns, e)
  {
    FlowHistory(turns, LookupId(e));
    RunReadsExactly(redis, turns, BeaconTarget(e), e.timestamp);
    RunHistoryInOrder(turns, BeaconTarget(e), e.timestamp);
  }

  /** The verdict on the last event of any in-order run depends on nothing but the recent
      heartbeats recorded under the text the engine looks the event up by. */
  lemma {:induction false} JudgedOnSeen(redis: bool, turns: seq<Turn>, e: FlowEvent, th: Thresholds, sd: real)
    requires EndsWith(turns, e)
    ensures JudgeAt(redis, RunLog(turns), e, th, sd) == JudgePayloads(Payloads(Seen(redis, turns, e)), th, sd)
  {
    RunShowsSeen(redis, turns, e);
  }

  // ---------- Completeness over whole runs ----------

  /** Each heartbeat is a sample of its own time with non-negative byte counts. */
  predicate Sampled(hs: seq<Event<Payload>>) {
    forall i | 0 <= i < |hs| ::
      hs[i].item.Sample? && hs[i].item.timestamp == hs[i].ts && hs[i].item.bytesOut >= 0 && hs[i].item.bytesIn >= 0
  }

  lemma {:induction false} MetricsOfSamples(hs: seq<Event<Payload>>)
    requires Sampled(hs)
    ensures |Stamps(Payloads(hs))| == |hs|
    ensures forall i | 0 <= i < |hs| :: Stamps(Payloads(hs))[i] == hs[i].ts
    ensures TotalOut(Payloads(hs)) >= 0 && TotalIn(Payloads(hs)) >= 0
  {
    if hs != [] {
      MetricsOfSamples(hs[1..]);
      assert Payloads(hs)[1..] == Payloads(hs[1..]);
      assert hs[0].item.Sample?;
    }
  }

  /** Heartbeats at constant period with non-negative byte counts. */
  predicate Periodic(hs: seq<Event<Payload>>, p: real) {
    Sampled(hs) && forall i | 0 <= i < |hs| - 1 :: hs[i + 1].ts - hs[i].ts == p
  }

  lemma {:induction false} PeriodicSuffix(hs: seq<Event<Payload>>, p: real, m: nat)
    requires Periodic(hs, p) && m <= |hs|
    ensures Periodic(hs[m..], p)
  {
    var live := hs[m..];
    forall i | 0 <= i < |live| - 1 ensures live[i + 1].ts - live[i].ts == p {
      assert live[i] == hs[m + i] && live[i + 1] == hs[m + i + 1];
    }
  }

  /** The least number of heartbeats the engine may need. */
  function Needed(th: Thresholds): nat {
    if th.minHeartbeats > 3 then th.minHeartbeats else 3
  }

  /** Enough heartbeats at one constant period p >= min_period. */
  predicate Beating(hs: seq<Event<Payload>>, p: real, th: Thresholds) {
    Periodic(hs, p) && |hs| >= Needed(th) && p >= 0.0 && p >= th.minPeriod
  }

  /** `sd` is the square root the engine takes when it judges `e`. */
  predicate TakesRoot(redis: bool, sd: real, log: seq<Op<Payload>>, e: FlowEvent) {
    IsDeviation(sd, Deltas(SortedOf(Stamps(Payloads(Read(redis, log, BeaconTarget(e), e.timestamp))))))
  }

  lemma {:induction false} BeatingIsSpaced(hs: seq<Event<Payload>>, p: real, th: Thresholds)
    requires Beating(hs, p, th)
    ensures Spaced(Stamps(Payloads(hs)), p) && |Stamps(Payloads(hs))| == |hs|
  {
    MetricsOfSamples(hs);
    var ts := Stamps(Payloads(hs));
    forall i | 0 <= i < |ts| - 1 ensures ts[i + 1] - ts[i] == p {
      assert hs[i + 1].ts - hs[i].ts == p;
    }
  }

  lemma {:induction false} BeatingQualifies(hs: seq<Event<Payload>>, p: real, th: Thresholds, sd: real)
    requires Beating(hs, p, th) && IsDeviation(sd, Deltas(SortedOf(Stamps(Payloads(hs)))))
    ensures JudgePayloads(Payloads(hs), th, sd).Some?
  {
    MetricsOfSamples(hs);
    BeatingIsSpaced(hs, p, th);
    SpacedHeartbeatsQualify(Stamps(Payloads(hs)), p, th, sd);
  }

  /** Completeness: in any in-order run, whatever else it holds and whatever was pruned, an
      event yields a candidate when the heartbeats of the last 300 seconds are equally spaced
      by p >= min_period and at least max(3, min_heartbeats). Earlier ones may be irregular. */
  lemma {:induction false} RecentBeatsAreDetected(redis: bool, turns: seq<Turn>, e: FlowEvent, p: real, th: Thresholds,
                                                  sd: real)
    requires EndsWith(turns, e) && Beating(Seen(redis, turns, e), p, th)
    requires TakesRoot(redis, sd, RunLog(turns), e)
    ensures JudgeAt(redis, RunLog(turns), e, th, sd).Some?
  {
    RunShowsSeen(redis, turns, e);
    BeatingQualifies(Seen(redis, turns, e), p, th, sd);
  }

  /** The root exists: what the engine sees of such a flow has no variance at all. */
  lemma {:induction false} BeatsHaveRoot(redis: bool, turns: seq<Turn>, e: FlowEvent, p: real, th: Thresholds)
    requires EndsWith(turns, e) && Beating(Seen(redis, turns, e), p, th)
    ensures TakesRoot(redis, 0.0, RunLog(turns), e)
  {
    var hs := Seen(redis, turns, e);
    RunShowsSeen(redis, turns, e);
    BeatingIsSpaced(hs, p, th);
    SpacedVariance(Stamps(Payloads(hs)), p);
  }

  // ---------- The same with jitter ----------

  /** Enough heartbeats, in order, with gaps within `d` of `p` and non-negative byte counts. */
  predicate BeatingNearly(hs: seq<Event<Payload>>, p: real, d: real, th: Thresholds) {
    && |hs| >= Needed(th) && p - d >= th.minPeriod && Tolerates(th, d)
    && (forall i | 0 <= i < |hs| - 1 :: p - d <= hs[i + 1].ts - hs[i].ts <= p + d)
    && Sampled(hs)
  }

  lemma {:induction false} SeenInOrder(redis: bool, turns: seq<Turn>, e: FlowEvent)
    requires EndsWith(turns, e)
    ensures InOrder(Seen(redis, turns, e))
  {
    RunShowsSeen(redis, turns, e);
    var m := WithinIsSuffix(Heartbeats(turns, LookupId(e)), Recent(redis, e.timestamp));
  }

  /** Completeness with jitter: in any in-order run, an event yields a candidate when the gaps
      of its heartbeats of the last 300 seconds all lie within a tolerated jitter of one period,
      whatever the square root the engine takes. */
  lemma {:induction false} JitteryBeatsAreDetected(redis: bool, turns: seq<Turn>, e: FlowEvent, p: real, d: real,
                                                   th: Thresholds, sd: real)
    requires EndsWith(turns, e) && BeatingNearly(Seen(redis, turns, e), p, d, th)
    ensures JudgeAt(redis, RunLog(turns), e, th, sd).Some?
  {
    var hs := Seen(redis, turns, e);
    SeenInOrder(redis, turns, e);
    JudgedOnSeen(redis, turns, e, th, sd);
    JitteryQualifies(hs, p, d, th, sd);
  }

  lemma {:induction false} JitteryQualifies(hs: seq<Event<Payload>>, p: real, d: real, th: Thresholds, sd: real)
    requires InOrder(hs) && BeatingNearly(hs, p, d, th)
    ensures JudgePayloads(Payloads(hs), th, sd).Some?
  {
    MetricsOfSamples(hs);
    var ts := Stamps(Payloads(hs));
    forall i | 0 <= i < |Deltas(ts)| ensures p - d <= Deltas(ts)[i] <= p + d {
      assert p - d <= hs[i + 1].ts - hs[i].ts <= p + d;
    }
    JitteryHeartbeatsQualify(ts, p, d, th, sd);
  }

  // ---------- Flows that have always beaten at one period ----------

  /** The length of `k` periods. */
  function Elapsed(k: nat, p: real): real {
    k as real * p
  }

  lemma {:induction false} PeriodicGap(hs: seq<Event<Payload>>, p: real, k: nat)
    requires Periodic(hs, p) && k < |hs|
    ensures hs[|hs| - 1].ts - hs[|hs| - 1 - k].ts == Elapsed(k, p)
  {
    if k > 0 {
      PeriodicGap(hs, p, k - 1);
      var i := |hs| - 1 - k;
      assert hs[i + 1].ts - hs[i].ts == p;
      OneMore(k, p);
    }
  }

  lemma {:induction false} OneMore(k: nat, p: real)
    requires k > 0
    ensures Elapsed(k, p) == Elapsed(k - 1, p) + p
  {
  }

  /** Of an in-order history the window keeps a suffix, and it reaches back at least to
      every event that is fresh enough. */
  lemma {:induction false} WithinIsSuffix(es: seq<Event<Payload>>, span: Span) returns (n: nat)
    requires InOrder(es) && forall i | 0 <= i < |es| :: es[i].ts <= span.hi
    ensures n <= |es| && Within(es, span) == es[n..]
    ensures forall i | 0 <= i < |es| && span.Has(es[i].ts) :: n <= i
  {
    if es == [] {
      n := 0;
    } else if span.Has(es[0].ts) {
      n := 0;
      AllWithin(es, span);
    } else {
      var m := WithinIsSuffix(es[1..], span);
      n := m + 1;
      forall i | 0 <= i < |es| && span.Has(es[i].ts) ensures n <= i {
        assert es[i] == es[1..][i - 1];
      }
    }
  }

  lemma {:induction false} AllWithin(es: seq<Event<Payload>>, span: Span)
    requires forall i | 0 <= i < |es| :: span.Has(es[i].ts)
    ensures Within(es, span) == es
  {
    if es != [] {
      AllWithin(es[1..], span);
    }
  }

  /** `k` heartbeats of period `p` fit into the window, for Redis strictly. */
  predicate Fits(redis: bool, k: nat, p: real)
    requires k > 0
  {
    if redis then Elapsed(k - 1, p) < 300.0 else Elapsed(k - 1, p) <= 300.0
  }

  /** The flow of `e` has always beaten at constant period p >= min_period, often enough, and
      the needed number of heartbeats fits into the window. */
  predicate BeatsEnough(redis: bool, turns: seq<Turn>, e: FlowEvent, p: real, th: Thresholds) {
    Beating(Heartbeats(turns, FlowIdOf(e)), p, th) && Fits(redis, Needed(th), p)
  }

  lemma {:induction false} LastHeartbeat(turns: seq<Turn>, e: FlowEvent)
    requires EndsWith(turns, e)
    ensures var hs := Heartbeats(turns, FlowIdOf(e)); hs != [] && hs[|hs| - 1].ts == e.timestamp
  {
    assert e.timestamp != 0.0;
  }

  lemma {:induction false} NeededAreRecent(redis: bool, hs: seq<Event<Payload>>, p: real, k: nat, now: real)
    requires Periodic(hs, p) && 1 <= k <= |hs| && Fits(redis, k, p)
    requires hs[|hs| - k].ts <= hs[|hs| - 1].ts == now
    ensures Recent(redis, now).Has(hs[|hs| - k].ts)
  {
    PeriodicGap(hs, p, k - 1);
    assert |hs| - 1 - (k - 1) == |hs| - k;
  }

  lemma {:induction false} WindowShowsBeating(redis: bool, hs: seq<Event<Payload>>, p: real, th: Thresholds, now: real)
    requires Beating(hs, p, th) && Fits(redis, Needed(th), p)
    requires InOrder(hs) && hs[|hs| - 1].ts == now && forall i | 0 <= i < |hs| :: hs[i].ts <= now
    ensures Beating(Within(hs, Recent(redis, now)), p, th)
  {
    NeededAreRecent(redis, hs, p, Needed(th), now);
    var m := WithinIsSuffix(hs, Recent(redis, now));
    assert m <= |hs| - Needed(th);
    PeriodicSuffix(hs, p, m);
  }

  lemma {:induction false} BeatsAreSeen(redis: bool, turns: seq<Turn>, e: FlowEvent, p: real, th: Thresholds)
    requires EndsWith(turns, e) && e.flowId != "" && BeatsEnough(redis, turns, e, p, th)
    ensures Beating(Seen(redis, turns, e), p, th)
  {
    RunShowsSeen(redis, turns, e);
    LastHeartbeat(turns, e);
    WindowShowsBeating(redis, Heartbeats(turns, e.flowId), p, th, e.timestamp);
  }

  /** In particular, a flow with a flow id that keeps one constant period yields a candidate on
      every heartbeat from the max(3, min_heartbeats)-th on, if that many fit into 300 seconds. */
  lemma {:induction false} BeaconCompleteness(redis: bool, turns: seq<Turn>, e: FlowEvent, p: real, th: Thresholds,
                                              sd: real)
    requires EndsWith(turns, e) && e.flowId != "" && BeatsEnough(redis, turns, e, p, th)
    requires TakesRoot(redis, sd, RunLog(turns), e)
    ensures JudgeAt(redis, RunLog(turns), e, th, sd).Some?
  {
    BeatsAreSeen(redis, turns, e, p, th);
    RecentBeatsAreDetected(redis, turns, e, p, th, sd);
  }

  // ---------- Events without a flow id ----------

  /** No event of the run is recorded under `id`. */
  predicate NothingUnder(turns: seq<Turn>, id: string) {
    forall i | 0 <= i < |turns| :: FlowIdOf(turns[i].event) != id
  }

  lemma {:induction false} NoHeartbeats(turns: seq<Turn>, id: string)
    requires NothingUnder(turns, id)
    ensures Heartbeats(turns, id) == []
  {
    if turns != [] {
      NoHeartbeats(turns[..|turns| - 1], id);
    }
  }

  /** An event without a flow id is recorded under one text and looked up under a shorter one. */
  lemma {:induction false} FallbacksDiffer(e: FlowEvent)
    requires e.flowId == ""
    ensures FlowIdOf(e) != LookupId(e)
  {
    assert |FlowIdOf(e)| > |LookupId(e)|;
  }

  /** The flow id is necessary: in any in-order run, whatever its other traffic, an event without
      one yields no candidate, however regular its flow, unless some event of the run is recorded
      under the shorter text itself. */
  lemma {:induction false} BlindWithoutFlowId(redis: bool, turns: seq<Turn>, e: FlowEvent, th: Thresholds, sd: real)
    requires EndsWith(turns, e) && e.flowId == "" && NothingUnder(turns, LookupId(e))
    ensures JudgeAt(redis, RunLog(turns), e, th, sd) == None
  {
    NoHeartbeats(turns, LookupId(e));
    JudgedOnSeen(redis, turns, e, th, sd);
  }

  /** In any in-order run, an event of a constantly beating flow is detected if and only if it
      carries a flow id (or the run holds events recorded under the shorter text). */
  lemma {:induction false} PeriodicFlowDetectedExactlyWithFlowId(redis: bool, turns: seq<Turn>, e: FlowEvent, p: real,
                                                                 th: Thresholds, sd: real)
    requires EndsWith(turns, e) && BeatsEnough(redis, turns, e, p, th)
    requires if e.flowId != "" then TakesRoot(redis, sd, RunLog(turns), e) else NothingUnder(turns, LookupId(e))
    ensures JudgeAt(redis, RunLog(turns), e, th, sd).Some? <==> e.flowId != ""
  {
    if e.flowId != "" {
      BeaconCompleteness(redis, turns, e, p, th, sd);
    } else {
      BlindWithoutFlowId(redis, turns, e, th, sd);
    }
  }
}
