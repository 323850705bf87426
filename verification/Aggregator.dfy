/** The alert aggregator: confidence with corroboration and attack-chain bonuses, stage
    sets per incident, and their growth over an incident. */
module Aggregator {
  import opened Wrappers
  import opened Alerts
  import opened Incidents
  import Rounding

  datatype Alert = Alert(
    flowId: string,
    sourceIp: string,
    destinationIp: string,
    time: real,
    threatClass: ThreatClass,
    confidence: real,
    severity: Severity,
    incidentId: Option<nat>,
    chain: set<ThreatClass>,
    detectors: seq<ThreatClass>,
    suppressedBy: Option<string>)

  // ---------- Scores ----------

  function Clamp01(x: real): real {
    if x < 0.0 then 0.0 else if x > 1.0 then 1.0 else x
  }

  function CorroborationBonus(candidates: nat): real {
    if candidates > 1 then 0.03 else 0.0
  }

  function ChainBonus(stages: nat): real {
    if stages >= 3 then 0.05 else if stages == 2 then 0.02 else 0.0
  }

  /** The normalized score of an alert, to two digits. */
  function FinalConfidence(score: real, candidates: nat, stages: nat): real {
    Rounding.Round(Clamp01(score + CorroborationBonus(candidates) + ChainBonus(stages)), 100.0)
  }

  lemma {:induction false} ConfidenceInUnitInterval(score: real, candidates: nat, stages: nat)
    ensures 0.0 <= FinalConfidence(score, candidates, stages) <= 1.0
  {
    var x := Clamp01(score + CorroborationBonus(candidates) + ChainBonus(stages));
    Rounding.Monotone(0.0, x, 100.0);
    Rounding.Monotone(x, 1.0, 100.0);
    Rounding.Exact(0, 100.0);
    Rounding.Exact(100, 100.0);
  }

  /** More stages and a higher score never lower the confidence or the severity. */
  lemma {:induction false} ConfidenceMonotone(score: real, score': real, candidates: nat, stages: nat, stages': nat)
    requires score <= score' && stages <= stages'
    ensures var c, c' := FinalConfidence(score, candidates, stages), FinalConfidence(score', candidates, stages');
      c <= c' && CalibrateSeverity(c).Rank() <= CalibrateSeverity(c').Rank()
  {
    Rounding.Monotone(Clamp01(score + CorroborationBonus(candidates) + ChainBonus(stages)),
                      Clamp01(score' + CorroborationBonus(candidates) + ChainBonus(stages')), 100.0);
  }

  // ---------- Stage sets ----------

  function Classes(found: seq<Candidate>): set<ThreatClass> {
    set c | c in found :: c.threatClass
  }

  /** Every threat class found so far by the calls that received the incident id `id`
      (calls without a source share the default incident). */
  function ClassesSeen(calls: seq<Call>, id: Option<nat>): set<ThreatClass> {
    if calls == [] then {}
    else
      var n := |calls| - 1;
      ClassesSeen(calls[..n], id) + if IdOf(calls, n) == id then Classes(calls[n].found) else {}
  }

  lemma {:induction false} ClassesSeenStep(calls: seq<Call>, c: Call, id: Option<nat>)
    ensures ClassesSeen(calls + [c], id)
         == ClassesSeen(calls, id) + if IdFor(After(calls), c) == id then Classes(c.found) else {}
  {
    assert (calls + [c])[..|calls|] == calls;
  }

  /** Call `k` received the id `id` and found a candidate of class `c`. */
  ghost predicate FoundBy(calls: seq<Call>, k: nat, id: Option<nat>, c: ThreatClass) {
    k < |calls| && IdOf(calls, k) == id && c in Classes(calls[k].found)
  }

  lemma {:induction false} FoundByPrefix(calls: seq<Call>, n: nat, k: nat, id: Option<nat>, c: ThreatClass)
    requires k < n <= |calls|
    ensures FoundBy(calls[..n], k, id, c) <==> FoundBy(calls, k, id, c)
  {
    PrefixId(calls, n, k);
  }

  /** It is the union, over the calls of that incident, of the classes of their candidates. */
  lemma {:induction false} ClassesSeenIsUnion(calls: seq<Call>, id: Option<nat>, c: ThreatClass)
    ensures c in ClassesSeen(calls, id) <==> exists k: nat :: FoundBy(calls, k, id, c)
  {
    if calls == [] {
      assert forall k: nat :: !FoundBy(calls, k, id, c);
    } else {
      var n := |calls| - 1;
      ClassesSeenIsUnion(calls[..n], id, c);
      if c in ClassesSeen(calls[..n], id) {
        var k: nat :| FoundBy(calls[..n], k, id, c);
        FoundByPrefix(calls, n, k, id, c);
      }
      if IdOf(calls, n) == id && c in Classes(calls[n].found) {
        assert FoundBy(calls, n, id, c);
      }
      if exists k: nat :: FoundBy(calls, k, id, c) {
        var k: nat :| FoundBy(calls, k, id, c);
        if k < n {
          FoundByPrefix(calls, n, k, id, c);
        }
      }
    }
  }

  /** The stages known to the incident of call `i` when its alerts were made. */
  function StagesAt(calls: seq<Call>, i: nat): set<ThreatClass>
    requires i < |calls|
  {
    ClassesSeen(calls[..i + 1], IdOf(calls, i))
  }

  lemma {:induction false} SeenGrows(calls: seq<Call>, i: nat, j: nat, id: Option<nat>)
    requires i <= j <= |calls|
    ensures ClassesSeen(calls[..i], id) <= ClassesSeen(calls[..j], id)
    decreases j - i
  {
    if i < j {
      SeenGrows(calls, i, j - 1, id);
      assert calls[..j][..j - 1] == calls[..j - 1];
    }
  }

  lemma {:induction false} SubsetSize<T>(a: set<T>, b: set<T>)
    requires a <= b
    ensures |a| <= |b|
  {
    assert b == a + (b - a);
  }

  /** Attack-chain growth: within one incident, a later call with the same corroboration
      never reports a candidate of the same (or a higher) score with lower confidence or
      severity than an earlier call did. */
  lemma {:induction false} ChainGrowth(calls: seq<Call>, i: nat, j: nat, score: real, score': real)
    requires i <= j < |calls| && IdOf(calls, i) == IdOf(calls, j)
    requires CorroborationBonus(|calls[i].found|) == CorroborationBonus(|calls[j].found|)
    requires score <= score'
    ensures StagesAt(calls, i) <= StagesAt(calls, j)
    ensures var c := FinalConfidence(score, |calls[i].found|, |StagesAt(calls, i)|);
      var c' := FinalConfidence(score', |calls[j].found|, |StagesAt(calls, j)|);
      c <= c' && CalibrateSeverity(c).Rank() <= CalibrateSeverity(c').Rank()
  {
    SeenGrows(calls, i + 1, j + 1, IdOf(calls, i));
    SubsetSize(StagesAt(calls, i), StagesAt(calls, j));
    ConfidenceMonotone(score, score', |calls[i].found|, |StagesAt(calls, i)|, |StagesAt(calls, j)|);
    assert FinalConfidence(score', |calls[i].found|, |StagesAt(calls, j)|)
        == FinalConfidence(score', |calls[j].found|, |StagesAt(calls, j)|);
  }

  /** The stages an alert is scored with are the classes found by its own incident's calls up
      to the present one, for calls at any times with any windows. */
  lemma {:induction false} StagesAreThoseOfTheRun(calls: seq<Call>, j: nat, c: ThreatClass)
    requires j < |calls| && calls[j].source != ""
    ensures c in StagesAt(calls, j)
       <==> exists i: nat | i <= j :: SameRun(calls, i, j) && c in Classes(calls[i].found)
  {
    var upTo, id := calls[..j + 1], IdOf(calls, j);
    ClassesSeenIsUnion(upTo, id, c);
    if c in StagesAt(calls, j) {
      var i: nat :| FoundBy(upTo, i, id, c);
      FoundByPrefix(calls, j + 1, i, id, c);
      SameIncidentIffSameRun(calls, i, j);
      assert SameRun(calls, i, j) && c in Classes(calls[i].found);
    }
    if exists i: nat | i <= j :: SameRun(calls, i, j) && c in Classes(calls[i].found) {
      var i: nat :| i <= j && SameRun(calls, i, j) && c in Classes(calls[i].found);
      SameIncidentIffSameRun(calls, i, j);
      FoundByPrefix(calls, j + 1, i, id, c);
      assert FoundBy(upTo, i, id, c);
    }
  }

  /** With ordered times that is its session: the calls of its source, up to the present one,
      with no gap above the window in between. */
  lemma {:induction false} StagesAreThoseOfTheSession(calls: seq<Call>, j: nat, window: real, c: ThreatClass)
    requires Regular(calls, window) && j < |calls| && calls[j].source != ""
    ensures c in StagesAt(calls, j)
       <==> exists i: nat | i <= j :: SameSession(calls, i, j) && c in Classes(calls[i].found)
  {
    StagesAreThoseOfTheRun(calls, j, c);
    forall i: nat | i <= j && calls[i].source != "" ensures SameRun(calls, i, j) <==> SameSession(calls, i, j) {
      SameIncidentIffSameRun(calls, i, j);
      SameIncidentIffSameSession(calls, i, j, window);
    }
  }

  // ---------- The aggregator object ----------

  /** What the caller of `aggregate` knows about the event. */
  datatype Flow = Flow(flowId: string, sourceIp: string, destinationIp: string, time: real)

  function DetectorsFired(found: seq<Candidate>): seq<ThreatClass> {
    seq(|found|, i requires 0 <= i < |found| => found[i].threatClass)
  }

  function AlertFor(f: Flow, c: Candidate, found: seq<Candidate>, id: Option<nat>, stages: set<ThreatClass>): Alert {
    var confidence := FinalConfidence(c.confidence, |found|, |stages|);
    Alert(f.flowId, f.sourceIp, f.destinationIp, f.time, c.threatClass, confidence, CalibrateSeverity(confidence),
          id, stages, DetectorsFired(found), None)
  }

  /** The alert loop of `aggregate`. */
  method MakeAlerts(f: Flow, found: seq<Candidate>, id: Option<nat>, stages: set<ThreatClass>)
    returns (alerts: seq<Alert>)
    ensures |alerts| == |found|
    ensures forall k | 0 <= k < |found| :: alerts[k] == AlertFor(f, found[k], found, id, stages)
  {
    alerts := [];
    var k := 0;
    while k < |found|
      invariant 0 <= k <= |found| && |alerts| == k
      invariant forall j | 0 <= j < k :: alerts[j] == AlertFor(f, found[j], found, id, stages)
    {
      alerts := alerts + [AlertFor(f, found[k], found, id, stages)];
      k := k + 1;
    }
  }

  /** The alerts a call makes, read off the history that ends with it. */
  predicate AlertsOfLast(alerts: seq<Alert>, f: Flow, calls: seq<Call>)
    requires calls != []
  {
    var n := |calls| - 1;
    var found := calls[n].found;
    |alerts| == |found|
    && forall k | 0 <= k < |found| :: alerts[k] == AlertFor(f, found[k], found, IdOf(calls, n), StagesAt(calls, n))
  }

  // ---------- What the alerts say ----------

  /** The score of a candidate with the bonuses for corroboration and for the stages known. */
  function Boosted(score: real, candidates: nat, stages: nat): real {
    score + (if candidates >= 2 then 0.03 else 0.0)
    + (if stages <= 1 then 0.0 else if stages == 2 then 0.02 else 0.05)
  }

  /** The severity that a confidence calls for. */
  predicate Calibrated(s: Severity, confidence: real) {
    match s
    case Critical => 0.95 <= confidence
    case High => 0.90 <= confidence < 0.95
    case Moderate => 0.80 <= confidence < 0.90
    case Low => confidence < 0.80
  }

  /** Alert `a` says of flow `f` what candidate `c`, one of `found`, and the incident's history say. */
  ghost predicate Reports(a: Alert, f: Flow, c: Candidate, found: seq<Candidate>) {
    && a.flowId == f.flowId && a.sourceIp == f.sourceIp && a.destinationIp == f.destinationIp && a.time == f.time
    && a.threatClass == c.threatClass
    && |a.detectors| == |found| && (forall i | 0 <= i < |found| :: a.detectors[i] == found[i].threatClass)
    && a.suppressedBy == None
    && (var raw := Boosted(c.confidence, |found|, |a.chain|);
        a.confidence == Rounding.Round(if raw <= 0.0 then 0.0 else if raw >= 1.0 then 1.0 else raw, 100.0))
    && Calibrated(a.severity, a.confidence)
  }

  lemma {:induction false} AlertForReports(f: Flow, c: Candidate, found: seq<Candidate>, id: Option<nat>,
                                           stages: set<ThreatClass>)
    ensures var a := AlertFor(f, c, found, id, stages);
      Reports(a, f, c, found) && a.incidentId == id && a.chain == stages
  {
  }

  /** The chain an alert carries: every class found by the calls linked to the last one. */
  ghost predicate ChainOfRun(chain: set<ThreatClass>, calls: seq<Call>)
    requires calls != []
  {
    forall c :: c in chain
      <==> exists i: nat | i < |calls| :: SameRun(calls, i, |calls| - 1) && c in Classes(calls[i].found)
  }

  lemma {:induction false} StagesAreChain(calls: seq<Call>)
    requires calls != [] && calls[|calls| - 1].source != ""
    ensures ChainOfRun(StagesAt(calls, |calls| - 1), calls)
  {
    var n := |calls| - 1;
    forall c ensures c in StagesAt(calls, n)
                <==> exists i: nat | i < |calls| :: SameRun(calls, i, n) && c in Classes(calls[i].found) {
      StagesAreThoseOfTheRun(calls, n, c);
    }
  }

  /** Everything about the alerts of the last call of a history: who they are about, what they
      score, and, for a known source, which incident and which classes its linked calls found. */
  lemma {:induction false} AlertsReport(alerts: seq<Alert>, f: Flow, calls: seq<Call>, k: nat)
    requires calls != [] && AlertsOfLast(alerts, f, calls) && k < |alerts|
    ensures Reports(alerts[k], f, calls[|calls| - 1].found[k], calls[|calls| - 1].found)
    ensures alerts[k].incidentId == IdOf(calls, |calls| - 1)
    ensures alerts[k].incidentId.Some? <==> calls[|calls| - 1].source != ""
    ensures calls[|calls| - 1].source != "" ==> ChainOfRun(alerts[k].chain, calls)
  {
    var n := |calls| - 1;
    AlertForReports(f, calls[n].found[k], calls[n].found, IdOf(calls, n), StagesAt(calls, n));
    if calls[n].source != "" {
      StagesAreChain(calls);
    }
  }

  lemma {:induction false} AlertsCarryId(alerts: seq<Alert>, f: Flow, calls: seq<Call>, i: nat, k: nat)
    requires i < |calls| && AlertsOfLast(alerts, f, calls[..i + 1]) && k < |alerts|
    ensures alerts[k].incidentId == IdOf(calls, i)
    ensures IdOf(calls, i).Some? <==> calls[i].source != ""
  {
    PrefixId(calls, i + 1, i);
  }

  /** Alerts of two calls of known sources carry the same incident if and only if calls of their
      source link them, each joining the one before. */
  lemma {:induction false} AlertsShareIncident(earlier: seq<Alert>, f: Flow, later: seq<Alert>, g: Flow,
                                               calls: seq<Call>,
                                               i: nat, j: nat, k: nat, l: nat)
    requires i <= j < |calls| && calls[i].source != "" && calls[j].source != ""
    requires AlertsOfLast(earlier, f, calls[..i + 1]) && k < |earlier|
    requires AlertsOfLast(later, g, calls[..j + 1]) && l < |later|
    ensures earlier[k].incidentId.Some? && later[l].incidentId.Some?
    ensures earlier[k].incidentId == later[l].incidentId <==> SameRun(calls, i, j)
  {
    AlertsCarryId(earlier, f, calls, i, k);
    AlertsCarryId(later, g, calls, j, l);
    SameIncidentIffSameRun(calls, i, j);
  }

  /** With ordered times: if and only if no gap of their source between them exceeds the window. */
  lemma {:induction false} AlertsShareSession(earlier: seq<Alert>, f: Flow, later: seq<Alert>, g: Flow,
                                              calls: seq<Call>,
                                              i: nat, j: nat, k: nat, l: nat, window: real)
    requires Regular(calls, window)
    requires i <= j < |calls| && calls[i].source != "" && calls[j].source != ""
    requires AlertsOfLast(earlier, f, calls[..i + 1]) && k < |earlier|
    requires AlertsOfLast(later, g, calls[..j + 1]) && l < |later|
    ensures earlier[k].incidentId == later[l].incidentId <==> SameSession(calls, i, j)
  {
    AlertsShareIncident(earlier, f, later, g, calls, i, j, k, l);
    SameIncidentIffSameRun(calls, i, j);
    SameIncidentIffSameSession(calls, i, j, window);
  }

  lemma {:induction false} AlertConfidences(alerts: seq<Alert>, f: Flow, calls: seq<Call>)
    requires calls != [] && AlertsOfLast(alerts, f, calls)
    ensures forall k | 0 <= k < |alerts| :: 0.0 <= alerts[k].confidence <= 1.0
  {
    var n := |calls| - 1;
    forall k | 0 <= k < |alerts| ensures 0.0 <= alerts[k].confidence <= 1.0 {
      ConfidenceInUnitInterval(calls[n].found[k].confidence, |calls[n].found|, |StagesAt(calls, n)|);
    }
  }

  /** The per-incident stage sets are what the history of calls makes them. */
  ghost predicate StagesHold(m: map<Option<nat>, set<ThreatClass>>, calls: seq<Call>) {
    forall id :: (if id in m then m[id] else {}) == ClassesSeen(calls, id)
  }

  lemma {:induction false} StagesStep(m: map<Option<nat>, set<ThreatClass>>, calls: seq<Call>, c: Call)
    requires StagesHold(m, calls)
    ensures var id := IdFor(After(calls), c);
      StagesHold(m[id := (if id in m then m[id] else {}) + Classes(c.found)], calls + [c])
  {
    forall id ensures ClassesSeen(calls + [c], id)
                   == ClassesSeen(calls, id) + if IdFor(After(calls), c) == id then Classes(c.found) else {} {
      ClassesSeenStep(calls, c, id);
    }
  }

  lemma {:induction false} LastCall(calls: seq<Call>, c: Call)
    ensures var all := calls + [c];
      && After(all) == Step(After(calls), c)
      && IdOf(all, |calls|) == IdFor(After(calls), c)
      && StagesAt(all, |calls|) == ClassesSeen(all, IdFor(After(calls), c))
  {
    var all := calls + [c];
    assert all[..|calls|] == calls && all[..|calls| + 1] == all;
  }

  /** The alerts handed out for one call, and the flow they are about. */
  datatype Handed = Handed(flow: Flow, alerts: seq<Alert>)

  /** Call `i` has been answered with the alerts its history determines. */
  ghost predicate AnsweredAt(h: Handed, calls: seq<Call>, i: nat)
    requires i < |calls|
  {
    AlertsOfLast(h.alerts, h.flow, calls[..i + 1])
    && calls[i].source == h.flow.sourceIp && calls[i].time == h.flow.time
  }

  ghost predicate Answered(handed: seq<Handed>, calls: seq<Call>) {
    |handed| == |calls| && forall i | 0 <= i < |calls| :: AnsweredAt(handed[i], calls, i)
  }

  lemma {:induction false} AnsweredLater(h: Handed, calls: seq<Call>, c: Call, i: nat)
    requires i < |calls| && AnsweredAt(h, calls, i)
    ensures AnsweredAt(h, calls + [c], i)
  {
    assert (calls + [c])[..i + 1] == calls[..i + 1];
  }

  lemma {:induction false} AnsweredStep(handed: seq<Handed>, calls: seq<Call>, h: Handed, c: Call)
    requires Answered(handed, calls) && AlertsOfLast(h.alerts, h.flow, calls + [c])
    requires c.source == h.flow.sourceIp && c.time == h.flow.time
    ensures Answered(handed + [h], calls + [c])
  {
    var all := calls + [c];
    assert all[..|all|] == all;
    forall i | 0 <= i < |calls| ensures AnsweredAt(handed[i], all, i) {
      AnsweredLater(handed[i], calls, c, i);
    }
  }

  class AlertAggregator {
    /** `_source_incidents` with the supply of ids, and `_incident_stages`. */
    var state: State
    var incidentStages: map<Option<nat>, set<ThreatClass>>
    ghost var calls: seq<Call>
    ghost var handed: seq<Handed>

    ghost predicate Valid()
      reads this
    {
      state == After(calls) && StagesHold(incidentStages, calls) && Answered(handed, calls)
    }

    constructor ()
      ensures Valid() && calls == []
    {
      state, incidentStages, calls, handed := State(map[], 0), map[], [], [];
    }

    /** `aggregate`, given the candidates the engines produced. Nothing found leaves every
        map alone; otherwise one alert is made per candidate, scored with the stages of its
        incident including the present ones. */
    method Aggregate(f: Flow, found: seq<Candidate>, window: real) returns (alerts: seq<Alert>)
      requires Valid()
      modifies this
      ensures Valid()
      ensures found == [] ==> alerts == [] && calls == old(calls) && handed == old(handed)
      ensures found != [] ==> calls == old(calls) + [Call(f.sourceIp, f.time, window, found)]
      ensures found != [] ==> handed == old(handed) + [Handed(f, alerts)]
      ensures found != [] ==> AlertsOfLast(alerts, f, calls)
      ensures forall k | 0 <= k < |alerts| :: 0.0 <= alerts[k].confidence <= 1.0
    {
      if found == [] {
        return [];
      }
      var call := Call(f.sourceIp, f.time, window, found);
      var id := IdFor(state, call);
      StagesStep(incidentStages, calls, call);
      LastCall(calls, call);
      state := Step(state, call);
      var stages := (if id in incidentStages then incidentStages[id] else {}) + Classes(found);
      incidentStages := incidentStages[id := stages];
      calls := calls + [call];
      alerts := MakeAlerts(f, found, id, stages);
      AlertConfidences(alerts, f, calls);
      AnsweredStep(handed, old(calls), Handed(f, alerts), call);
      handed := handed + [Handed(f, alerts)];
    }
  }
}
