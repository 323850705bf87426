/** Exactly when the beaconing engine reports a flow, read off the heartbeats alone; and irregular
    flows it never reports. */
module BeaconVerdicts {
  import opened Wrappers
  import opened Chronology
  import opened WindowStore
  import opened Ingest
  import opened Statistics
  import opened Alerts
  import opened Beaconing
  import Rounding

  // ---------- What the condition speaks of ----------

  /** Times between consecutive heartbeats. */
  function Gaps(hs: seq<Event<Payload>>): (r: seq<real>)
    ensures |r| == if hs == [] then 0 else |hs| - 1
    ensures forall i | 0 <= i < |r| :: r[i] == hs[i + 1].ts - hs[i].ts
  {
    if hs == [] then [] else seq(|hs| - 1, i requires 0 <= i < |hs| - 1 => hs[i + 1].ts - hs[i].ts)
  }

  /** Each heartbeat is a sample of its own time. */
  predicate Samples(hs: seq<Event<Payload>>) {
    forall i | 0 <= i < |hs| :: hs[i].item.Sample? && hs[i].item.timestamp == hs[i].ts
  }

  function BytesSent(hs: seq<Event<Payload>>): int
    requires Samples(hs)
  {
    if hs == [] then 0 else BytesSent(hs[..|hs| - 1]) + hs[|hs| - 1].item.bytesOut
  }

  function BytesReceived(hs: seq<Event<Payload>>): int
    requires Samples(hs)
  {
    if hs == [] then 0 else BytesReceived(hs[..|hs| - 1]) + hs[|hs| - 1].item.bytesIn
  }

  /** The spread of the gaps relative to their mean, to four digits: at most 0.15. */
  predicate Concentrated(gaps: seq<real>, sd: real)
    requires gaps != []
  {
    Rounding.Round(1.0 - sd / Rounding.Max(Mean(gaps), 0.0001), 10000.0) >= 0.85
  }

  /** Neighbouring gaps deviate alike, or hardly at all. */
  predicate Correlated(gaps: seq<real>)
    requires |gaps| >= 2
  {
    || Variance(gaps) <= 0.000001
    || (SquaredError(gaps, Mean(gaps)) > 0.0
        && Rounding.Round(Lagged(Centered(gaps, Mean(gaps))) / SquaredError(gaps, Mean(gaps)), 10000.0) >= 0.70)
  }

  /** What the gaps of a reported flow satisfy. A single gap has mean, concentration and
      correlation zero for the engine. */
  predicate RegularGaps(gaps: seq<real>, sd: real, th: Thresholds)
    requires gaps != []
  {
    if |gaps| == 1 then th.minPeriod <= 0.0 <= th.maxVariance
    else
      && Mean(gaps) >= th.minPeriod
      && (|| Rounding.Round(Variance(gaps), 1000000.0) <= th.maxVariance
          || Concentrated(gaps, sd)
          || Correlated(gaps))
  }

  /** The variance the score is computed from. */
  function ScoredVariance(gaps: seq<real>): real
    requires gaps != []
  {
    if |gaps| == 1 then 0.0 else Rounding.Round(Variance(gaps), 1000000.0)
  }

  /** The score: 0.82, up to 0.12 for a variance below the threshold, up to 0.05 for samples
      beyond three, at most 0.99. */
  function Score(variance: real, heartbeats: int, th: Thresholds): real {
    var regularity := if variance >= th.maxVariance then 0.0
                      else if 2.0 * (th.maxVariance - variance) >= 0.12 then 0.12
                      else 2.0 * (th.maxVariance - variance);
    var samples := if heartbeats >= 8 then 0.05 else (heartbeats - 3) as real * 0.01;
    Rounding.Round(if 0.82 + regularity + samples >= 0.99 then 0.99 else 0.82 + regularity + samples, 10000.0)
  }

  // ---------- The condition is exact ----------

  lemma {:induction false} MetricsOfHeartbeats(hs: seq<Event<Payload>>)
    requires Samples(hs)
    ensures |Stamps(Payloads(hs))| == |hs|
    ensures forall i | 0 <= i < |hs| :: Stamps(Payloads(hs))[i] == hs[i].ts
    ensures TotalOut(Payloads(hs)) == BytesSent(hs) && TotalIn(Payloads(hs)) == BytesReceived(hs)
  {
    if hs != [] {
      var n := |hs| - 1;
      MetricsOfHeartbeats(hs[..n]);
      assert Payloads(hs) == Payloads(hs[..n]) + [hs[n].item];
      MetricsAppend(Payloads(hs[..n]), [hs[n].item]);
      MetricsOfOne(hs[n].item);
    }
  }

  lemma {:induction false} MetricsOfOne(x: Payload)
    requires x.Sample?
    ensures Stamps([x]) == [x.timestamp] && TotalOut([x]) == x.bytesOut && TotalIn([x]) == x.bytesIn
  {
    assert [x][1..] == [];
  }

  lemma {:induction false} ConcentrationExact(sd: real, mean: real)
    requires sd >= 0.0
    ensures var j := sd / Rounding.Max(mean, 0.0001);
      Rounding.Round(Rounding.Max(0.0, 1.0 - Rounding.Min(j, 1.0)), 10000.0) >= 0.85
      <==> Rounding.Round(1.0 - j, 10000.0) >= 0.85
  {
    var j := sd / Rounding.Max(mean, 0.0001);
    if j > 1.0 {
      Rounding.Monotone(1.0 - j, 0.0, 10000.0);
      Rounding.Exact(0, 10000.0);
    }
  }

  lemma {:induction false} CorrelationExact(gaps: seq<real>)
    requires |gaps| >= 2
    ensures Rounding.Round(Autocorrelation(gaps), 10000.0) >= 0.70 <==> Correlated(gaps)
  {
    if Variance(gaps) <= 0.000001 {
      Rounding.Exact(10000, 10000.0);
    } else {
      ClampsNeverBind(gaps);
    }
  }

  lemma {:induction false} PeriodicExact(gaps: seq<real>, variance: real, sd: real, th: Thresholds)
    requires gaps != [] && IsDeviation(sd, gaps)
    requires variance == ScoredVariance(gaps)
    ensures LooksPeriodic(PeriodicityOf(gaps, sd), variance, th) <==> RegularGaps(gaps, sd, th)
  {
    if |gaps| >= 2 {
      ConcentrationExact(sd, Mean(gaps));
      CorrelationExact(gaps);
    }
  }

  lemma {:induction false} VarianceOfInOrder(ts: seq<real>, gaps: seq<real>)
    requires Sorted(ts) && |ts| >= 2 && gaps == Deltas(ts)
    ensures SortedOf(ts) == ts && InterArrivalVariance(ts) == ScoredVariance(gaps)
  {
    AlreadySorted(ts);
    if |ts| == 2 {
      Rounding.Exact(0, 1000000.0);
      assert GapVariance(ts) == 0.0;
    }
  }

  lemma {:induction false} ScoreExact(variance: real, heartbeats: int, th: Thresholds)
    ensures Confidence(variance, heartbeats, th) == Score(variance, heartbeats, th)
  {
    assert heartbeats >= 8 <==> (heartbeats - 3) as real * 0.01 >= 0.05;
  }

  /** The verdict on a number of heartbeats with given gaps and byte totals: enough of them, no
      negative total, and regular gaps. */
  function Verdict(heartbeats: nat, gaps: seq<real>, sent: int, received: int, th: Thresholds,
                   sd: real): Option<Candidate> {
    if heartbeats >= 2 && heartbeats >= th.minHeartbeats && sent >= 0 && received >= 0
       && gaps != [] && RegularGaps(gaps, sd, th)
    then Some(Candidate(BotnetC2, Score(ScoredVariance(gaps), heartbeats, th)))
    else None
  }

  lemma {:induction false} JudgedByStamps(ts: seq<real>, gaps: seq<real>, bytesOut: int, bytesIn: int, th: Thresholds,
                                           sd: real)
    requires Sorted(ts) && gaps == Deltas(ts) && (|ts| >= 2 ==> IsDeviation(sd, gaps))
    ensures Judge(ts, bytesOut, bytesIn, th, sd) == Verdict(|ts|, gaps, bytesOut, bytesIn, th, sd)
  {
    if |ts| >= 2 {
      VarianceOfInOrder(ts, gaps);
      PeriodicExact(gaps, InterArrivalVariance(ts), sd, th);
      ScoreExact(InterArrivalVariance(ts), |ts|, th);
    }
  }

  lemma {:induction false} TimesOfHeartbeats(ts: seq<real>, hs: seq<Event<Payload>>)
    requires |ts| == |hs| && InOrder(hs) && forall i | 0 <= i < |hs| :: ts[i] == hs[i].ts
    ensures Sorted(ts) && Deltas(ts) == Gaps(hs)
  {
  }

  lemma {:induction false} JudgedExactly(hs: seq<Event<Payload>>, th: Thresholds, sd: real)
    requires Samples(hs) && InOrder(hs) && (|hs| >= 2 ==> IsDeviation(sd, Gaps(hs)))
    ensures JudgePayloads(Payloads(hs), th, sd)
         == Verdict(|hs|, Gaps(hs), BytesSent(hs), BytesReceived(hs), th, sd)
  {
    MetricsOfHeartbeats(hs);
    TimesOfHeartbeats(Stamps(Payloads(hs)), hs);
    JudgedByStamps(Stamps(Payloads(hs)), Gaps(hs), TotalOut(Payloads(hs)), TotalIn(Payloads(hs)), th, sd);
  }

  lemma {:induction false} HeartbeatsAreSamples(turns: seq<Turn>, id: string)
    ensures Samples(Heartbeats(turns, id))
  {
    if turns != [] {
      HeartbeatsAreSamples(turns[..|turns| - 1], id);
    }
  }

  lemma {:induction false} SeenAreSamples(redis: bool, turns: seq<Turn>, e: FlowEvent)
    requires EndsWith(turns, e)
    ensures Samples(Seen(redis, turns, e))
  {
    RunShowsSeen(redis, turns, e);
    HeartbeatsAreSamples(turns, LookupId(e));
    var m := WithinIsSuffix(Heartbeats(turns, LookupId(e)), Recent(redis, e.timestamp));
  }

  /** The flow text an event is looked up under. */
  function LookedUp(e: FlowEvent): string {
    if e.flowId == "" then e.srcIp + "->" + e.dstIp else e.flowId
  }

  lemma {:induction false} HeartbeatsAreSeen(turns: seq<Turn>, id: string)
    ensures Heartbeats(turns, id) == AllSeen((t: Turn) => SamplesSeen(t, id), turns)
  {
    FlowHistory(turns, id);
    HistoryOfRun(turns, FlowKey(id));
    SampleHistory(turns, id);
  }

  /** The recent heartbeats are the samples that the run's events left under that text during the
      last 300 seconds, the lower end excluded by Redis. */
  lemma {:induction false} SeenAreRecentSamples(redis: bool, turns: seq<Turn>, e: FlowEvent)
    ensures Seen(redis, turns, e)
         == Within(AllSeen((t: Turn) => SamplesSeen(t, LookedUp(e)), turns),
                   Span(redis, e.timestamp - 300.0, e.timestamp))
  {
    HeartbeatsAreSeen(turns, LookedUp(e));
  }

  /** In any in-order run, on either backend, the last event yields a candidate if and only if the
      recent heartbeats recorded under the text it is looked up by are at least two and at least
      the required number, have non-negative byte totals, and have regular gaps; the candidate is
      then a botnet candidate with the stated score. */
  lemma {:induction false} BeaconFiresExactly(redis: bool, turns: seq<Turn>, e: FlowEvent, th: Thresholds, sd: real)
    requires EndsWith(turns, e)
    requires |Seen(redis, turns, e)| >= 2 ==> IsDeviation(sd, Gaps(Seen(redis, turns, e)))
    ensures var hs := Seen(redis, turns, e);
      && Samples(hs)
      && JudgeAt(redis, RunLog(turns), e, th, sd)
         == Verdict(|hs|, Gaps(hs), BytesSent(hs), BytesReceived(hs), th, sd)
  {
    SeenAreSamples(redis, turns, e);
    SeenInOrder(redis, turns, e);
    JudgedOnSeen(redis, turns, e, th, sd);
    JudgedExactly(Seen(redis, turns, e), th, sd);
  }

  // ---------- Irregular flows stay silent ----------

  /** Gaps that alternate by `d` around `p` are too irregular: the variance exceeds the threshold
      whatever the number of gaps, and `d` is more than 17 percent of `p`. */
  predicate TooIrregular(p: real, d: real, th: Thresholds) {
    d >= 0.0 && d > 0.17 * p && 8.0 * Square(d) > 9.0 * (Rounding.Max(th.maxVariance, 0.0) + 0.000001)
  }

  lemma {:induction false} RoundedAbove(v: real, t: real)
    requires v > t + 0.000001
    ensures Rounding.Round(v, 1000000.0) > t
  {
    Rounding.Near(v, 1000000.0);
  }

  lemma {:induction false} RoundedBelow(x: real)
    requires x < 0.8499
    ensures Rounding.Round(x, 10000.0) < 0.85
  {
    Rounding.Near(x, 10000.0);
  }

  lemma {:induction false} QuotientAbove(sd: real, m: real, q: real)
    requires m > 0.0 && sd > q * m
    ensures sd / m > q
  {
    assert sd == sd / m * m;
  }

  lemma {:induction false} WideSpread(sd: real, d: real)
    requires sd >= 0.0 && d >= 0.0 && 9.0 * Square(sd) >= 8.0 * Square(d) && d > 0.0
    ensures sd > 0.94 * d
  {
    assert Square(0.94 * d) == 0.8836 * Square(d);
    SquareSign(d);
    if sd <= 0.94 * d {
      SquareWithin(sd, 0.94 * d);
    }
  }

  lemma {:induction false} LargeEnough(d: real)
    requires d >= 0.0 && 8.0 * Square(d) > 0.000009
    ensures d > 0.001
  {
    assert Square(0.001) == 0.000001;
    if d <= 0.001 {
      SquareWithin(d, 0.001);
    }
  }

  lemma {:induction false} NotConcentrated(gaps: seq<real>, p: real, d: real, th: Thresholds, sd: real)
    requires Alternating(gaps, p, d) && |gaps| >= 2 && TooIrregular(p, d, th) && IsDeviation(sd, gaps)
    ensures !Concentrated(gaps, sd)
  {
    LargeEnough(d);
    AlternatingMean(gaps, p, d);
    AlternatingVariance(gaps, p, d);
    WideSpread(sd, d);
    var m := Rounding.Max(Mean(gaps), 0.0001);
    QuotientAbove(sd, m, 0.1502);
    RoundedBelow(1.0 - sd / m);
  }

  lemma {:induction false} NotPositiveQuotient(x: real, e: real)
    requires x <= 0.0 && e > 0.0
    ensures Rounding.Round(x / e, 10000.0) < 0.70
  {
    assert x / e <= 0.0;
    Rounding.Monotone(x / e, 0.0, 10000.0);
    Rounding.Exact(0, 10000.0);
  }

  lemma {:induction false} NotCorrelated(gaps: seq<real>, p: real, d: real, th: Thresholds)
    requires Alternating(gaps, p, d) && |gaps| >= 2 && TooIrregular(p, d, th)
    ensures !Correlated(gaps)
  {
    var m := Mean(gaps);
    AlternatingMean(gaps, p, d);
    AlternatingVariance(gaps, p, d);
    AlternatingLag(gaps, p, d, m);
    if SquaredError(gaps, m) > 0.0 {
      NotPositiveQuotient(Lagged(Centered(gaps, m)), SquaredError(gaps, m));
    }
  }

  lemma {:induction false} AlternatingIsIrregular(gaps: seq<real>, p: real, d: real, th: Thresholds, sd: real)
    requires Alternating(gaps, p, d) && |gaps| >= 2 && TooIrregular(p, d, th) && IsDeviation(sd, gaps)
    ensures !RegularGaps(gaps, sd, th)
  {
    AlternatingVariance(gaps, p, d);
    RoundedAbove(Variance(gaps), th.maxVariance);
    NotConcentrated(gaps, p, d, th, sd);
    NotCorrelated(gaps, p, d, th);
  }

  /** Soundness: in any in-order run, a flow whose recent gaps alternate widely around any period
      never yields a candidate, however many heartbeats it sends. */
  lemma {:induction false} AlternatingFlowIsSilent(redis: bool, turns: seq<Turn>, e: FlowEvent, p: real, d: real,
                                                   th: Thresholds)
    requires EndsWith(turns, e) && |Seen(redis, turns, e)| >= 3
    requires Alternating(Gaps(Seen(redis, turns, e)), p, d) && TooIrregular(p, d, th)
    ensures forall sd | IsDeviation(sd, Gaps(Seen(redis, turns, e))) ::
              JudgeAt(redis, RunLog(turns), e, th, sd) == None
  {
    forall sd | IsDeviation(sd, Gaps(Seen(redis, turns, e)))
      ensures JudgeAt(redis, RunLog(turns), e, th, sd) == None
    {
      BeaconFiresExactly(redis, turns, e, th, sd);
      AlternatingIsIrregular(Gaps(Seen(redis, turns, e)), p, d, th, sd);
    }
  }

  /** Nor does a flow whose mean gap is below the minimum period, however regular it is. */
  lemma {:induction false} FastFlowIsSilent(redis: bool, turns: seq<Turn>, e: FlowEvent, th: Thresholds, sd: real)
    requires EndsWith(turns, e) && |Seen(redis, turns, e)| >= 3 && IsDeviation(sd, Gaps(Seen(redis, turns, e)))
    requires Mean(Gaps(Seen(redis, turns, e))) < th.minPeriod
    ensures JudgeAt(redis, RunLog(turns), e, th, sd) == None
  {
    BeaconFiresExactly(redis, turns, e, th, sd);
  }
}
