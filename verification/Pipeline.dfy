/** The detection pipeline: one flow event recorded, judged, correlated, and tagged with the
    suppression rule that withholds its alerts from delivery. */
module Pipeline {
  import opened Wrappers
  import opened Alerts
  import opened Ingest
  import opened WindowStore
  import opened Suppression
  import Aggregator
  import Beaconing
  import Incidents
  import Recon

  // ---------- Suppression ----------

  /** Whether an address matches a rule's address or network; parsing them is not modelled. */
  type IpMatch = (string, string) -> bool

  predicate Hits(matches: IpMatch, value: string, criterion: Option<string>) {
    value != "" && criterion.Some? && criterion.value != "" && matches(value, criterion.value)
  }

  predicate RuleMatches(matches: IpMatch, r: Rule, a: Aggregator.Alert) {
    match r.ruleType
    case BySource => Hits(matches, a.sourceIp, r.sourceIp)
    case ByDestination => Hits(matches, a.destinationIp, r.destinationIp)
    case BySourceAndClass =>
      Hits(matches, a.sourceIp, r.sourceIp) && (r.threatClass.None? || r.threatClass.value == a.threatClass)
  }

  predicate Expired(r: Rule, now: real) {
    r.expiresAt.Some? && r.expiresAt.value <= now
  }

  /** What a rule means: it holds until its expiry, and the address or network it names, which
      must not be empty, is matched against the alert's source, or destination, or source and
      threat class, by its type; nothing else about the alert decides. */
  lemma {:induction false} RuleMeans(matches: IpMatch, r: Rule, a: Aggregator.Alert, now: real)
    ensures Expired(r, now) <==> r.expiresAt != None && r.expiresAt.value <= now
    ensures r.ruleType == BySource ==>
      (RuleMatches(matches, r, a)
       <==> a.sourceIp != "" && r.sourceIp != None && r.sourceIp != Some("") && matches(a.sourceIp, r.sourceIp.value))
    ensures r.ruleType == ByDestination ==>
      (RuleMatches(matches, r, a)
       <==> a.destinationIp != "" && r.destinationIp != None && r.destinationIp != Some("")
            && matches(a.destinationIp, r.destinationIp.value))
    ensures r.ruleType == BySourceAndClass ==>
      (RuleMatches(matches, r, a)
       <==> a.sourceIp != "" && r.sourceIp != None && r.sourceIp != Some("") && matches(a.sourceIp, r.sourceIp.value)
            && (r.threatClass == None || r.threatClass == Some(a.threatClass)))
  {
  }

  /** `_matching_suppression_rule`: the first rule in the list that has not expired and
      matches. */
  method MatchingRule(matches: IpMatch, rules: seq<Rule>, a: Aggregator.Alert, now: real) returns (rule: Option<Rule>)
    ensures rule.None? <==> forall i | 0 <= i < |rules| :: Expired(rules[i], now) || !RuleMatches(matches, rules[i], a)
    ensures rule.Some? ==> exists i | 0 <= i < |rules| ::
      rules[i] == rule.value && !Expired(rules[i], now) && RuleMatches(matches, rules[i], a)
      && forall j | 0 <= j < i :: Expired(rules[j], now) || !RuleMatches(matches, rules[j], a)
  {
    var i := 0;
    while i < |rules|
      invariant 0 <= i <= |rules|
      invariant forall j | 0 <= j < i :: Expired(rules[j], now) || !RuleMatches(matches, rules[j], a)
    {
      if !Expired(rules[i], now) && RuleMatches(matches, rules[i], a) {
        return Some(rules[i]);
      }
      i := i + 1;
    }
    return None;
  }

  /** Tagging withholds delivery only: it drops, reorders and rescores nothing, and tags an
      alert exactly when some unexpired rule matches it, with the id of such a rule. */
  predicate TaggedOnly(matches: IpMatch, rules: seq<Rule>, now: real, made: seq<Aggregator.Alert>,
                       out: seq<Aggregator.Alert>) {
    |out| == |made|
    && forall k | 0 <= k < |made| ::
         && out[k].(suppressedBy := None) == made[k].(suppressedBy := None)
         && (out[k].suppressedBy.Some? <==> AnyMatch(matches, rules, made[k], now))
         && (out[k].suppressedBy.Some? ==> exists r | r in rules ::
               r.id == out[k].suppressedBy.value && !Expired(r, now) && RuleMatches(matches, r, made[k]))
  }

  predicate AnyMatch(matches: IpMatch, rules: seq<Rule>, a: Aggregator.Alert, now: real) {
    exists r | r in rules :: !Expired(r, now) && RuleMatches(matches, r, a)
  }

  method Tag(matches: IpMatch, rules: seq<Rule>, now: real, made: seq<Aggregator.Alert>)
    returns (out: seq<Aggregator.Alert>)
    requires forall k | 0 <= k < |made| :: made[k].suppressedBy.None?
    ensures TaggedOnly(matches, rules, now, made, out)
  {
    out := [];
    var k := 0;
    while k < |made|
      invariant 0 <= k <= |made|
      invariant TaggedOnly(matches, rules, now, made[..k], out)
    {
      var rule := MatchingRule(matches, rules, made[k], now);
      if rule.None? {
        out := out + [made[k]];
      } else {
        out := out + [made[k].(suppressedBy := Some(rule.value.id))];
      }
      assert made[..k + 1] == made[..k] + [made[k]];
      k := k + 1;
    }
    assert made[..k] == made;
  }

  // ---------- The pipeline ----------

  datatype Settings = Settings(beaconing: Beaconing.Thresholds, recon: Recon.Thresholds, window: real)

  /** What the four engines that are not modelled conclude about an event, and the windows they
      query to get there: anything at all. */
  datatype Others = Others(
    ddos: Option<Candidate>,
    dns: Option<Candidate>,
    malware: Option<Candidate>,
    exfiltration: Option<Candidate>,
    queries: seq<Key>)

  /** What the six engines conclude once the event is recorded, in the order they are registered. */
  function Found(redis: bool, log: seq<Op<Payload>>, e: FlowEvent, s: Settings, sd: real, o: Others): seq<Candidate> {
    Listed(o.ddos) + Listed(Beaconing.JudgeAt(redis, log, e, s.beaconing, sd)) + Listed(o.dns)
    + Listed(o.malware) + Listed(Recon.JudgeAt(redis, log, e, s.recon)) + Listed(o.exfiltration)
  }

  /** The verdicts that are present, in order. */
  function Present(verdicts: seq<Option<Candidate>>): seq<Candidate> {
    if verdicts == [] then []
    else (match verdicts[0] case Some(c) => [c] case None => []) + Present(verdicts[1..])
  }

  /** No verdict is dropped, added or moved. */
  lemma {:induction false} FoundInOrder(redis: bool, log: seq<Op<Payload>>, e: FlowEvent, s: Settings, sd: real,
                                        o: Others)
    ensures Found(redis, log, e, s, sd, o)
         == Present([o.ddos, Beaconing.JudgeAt(redis, log, e, s.beaconing, sd), o.dns, o.malware,
                     Recon.JudgeAt(redis, log, e, s.recon), o.exfiltration])
  {
    SixPresent(o.ddos, Beaconing.JudgeAt(redis, log, e, s.beaconing, sd), o.dns, o.malware,
               Recon.JudgeAt(redis, log, e, s.recon), o.exfiltration);
  }

  lemma {:induction false} SixPresent(a: Option<Candidate>, b: Option<Candidate>, c: Option<Candidate>,
                                      d: Option<Candidate>, e: Option<Candidate>, f: Option<Candidate>)
    ensures Present([a, b, c, d, e, f]) == Listed(a) + Listed(b) + Listed(c) + Listed(d) + Listed(e) + Listed(f)
  {
    assert [a, b, c, d, e, f] == [a, b, c] + [d, e, f];
    PresentAppend([a, b, c], [d, e, f]);
    ThreePresent(a, b, c);
    ThreePresent(d, e, f);
    Regroup(Listed(a) + Listed(b) + Listed(c), Listed(d), Listed(e), Listed(f));
  }

  lemma {:induction false} ThreePresent(a: Option<Candidate>, b: Option<Candidate>, c: Option<Candidate>)
    ensures Present([a, b, c]) == Listed(a) + (Listed(b) + Listed(c))
  {
    assert [a, b, c][1..] == [b, c] && [b, c][1..] == [c] && [c][1..] == [];
    assert Present([c]) == Listed(c);
    assert Present([b, c]) == Listed(b) + Listed(c);
  }

  lemma {:induction false} PresentAppend(x: seq<Option<Candidate>>, y: seq<Option<Candidate>>)
    ensures Present(x + y) == Present(x) + Present(y)
  {
    if x == [] {
      assert x + y == y;
    } else {
      assert (x + y)[1..] == x[1..] + y;
      PresentAppend(x[1..], y);
    }
  }

  function FlowOf(e: FlowEvent): Aggregator.Flow {
    Aggregator.Flow(FlowIdOf(e), e.srcIp, e.dstIp, e.timestamp)
  }

  /** Other engines' queries for the same event do not change what the two engines conclude. */
  lemma {:induction false} VerdictsStand(redis: bool, log: seq<Op<Payload>>, e: FlowEvent, s: Settings, sd: real,
                                         keys: seq<Key>)
    ensures var later := log + Queries(keys, e.timestamp);
      && Beaconing.JudgeAt(redis, later, e, s.beaconing, sd) == Beaconing.JudgeAt(redis, log, e, s.beaconing, sd)
      && Recon.JudgeAt(redis, later, e, s.recon) == Recon.JudgeAt(redis, log, e, s.recon)
  {
    QueriesAreInvisible(redis, log, keys, Beaconing.BeaconTarget(e), e.timestamp);
    QueriesAreInvisible(redis, log, keys, SourceKey(e.srcIp), e.timestamp);
    QueriesAreInvisible(redis, log, keys, ReconKey(e.srcIp), e.timestamp);
  }

  /** The keys queried for an event. */
  function Asked(e: FlowEvent, o: Others): seq<Key> {
    o.queries + [Beaconing.BeaconTarget(e)] + [SourceKey(e.srcIp)] + [ReconKey(e.srcIp)]
  }

  lemma {:induction false} QueriesStep(keys: seq<Key>, key: Key, now: real)
    ensures Queries(keys + [key], now) == Queries(keys, now) + [Get(key, now)]
  {
    assert (keys + [key])[..|keys|] == keys;
  }

  lemma {:induction false} RunLogStep(turns: seq<Turn>, t: Turn)
    ensures RunLog(turns + [t]) == RunLog(turns) + TurnOps(t)
  {
    assert (turns + [t])[..|turns|] == turns;
  }

  /** The queries of the two modelled engines. */
  function ModelledQueries(e: FlowEvent): seq<Op<Payload>> {
    [Get(Beaconing.BeaconTarget(e), e.timestamp)] + [Get(SourceKey(e.srcIp), e.timestamp)]
    + [Get(ReconKey(e.srcIp), e.timestamp)]
  }

  lemma {:induction false} AskedQueries(e: FlowEvent, o: Others)
    ensures Queries(Asked(e, o), e.timestamp) == Queries(o.queries, e.timestamp) + ModelledQueries(e)
  {
    var beacon, source := o.queries + [Beaconing.BeaconTarget(e)], SourceKey(e.srcIp);
    QueriesStep(o.queries, Beaconing.BeaconTarget(e), e.timestamp);
    QueriesStep(beacon, source, e.timestamp);
    QueriesStep(beacon + [source], ReconKey(e.srcIp), e.timestamp);
  }

  lemma {:induction false} Regroup<T>(a: seq<T>, b: seq<T>, c: seq<T>, d: seq<T>)
    ensures a + b + c + d == a + (b + (c + d))
  {
  }

  lemma {:induction false} LogAfterTurn(turns: seq<Turn>, e: FlowEvent, wall: real, o: Others)
    ensures RunLog(turns) + IngestOps(e, wall) + Queries(o.queries, e.timestamp) + ModelledQueries(e)
         == RunLog(turns + [Turn(e, wall, Asked(e, o))])
  {
    AskedQueries(e, o);
    RunLogStep(turns, Turn(e, wall, Asked(e, o)));
    Regroup(RunLog(turns), IngestOps(e, wall), Queries(o.queries, e.timestamp), ModelledQueries(e));
  }

  /** The store as the engines find it while event `e` is judged. */
  lemma {:induction false} LogWhileJudging(turns: seq<Turn>, e: FlowEvent, wall: real)
    ensures RunLog(turns) + IngestOps(e, wall) == RunLog(turns + [Turn(e, wall, [])])
  {
    RunLogStep(turns, Turn(e, wall, []));
    assert IngestOps(e, wall) + [] == IngestOps(e, wall);
  }

  lemma {:induction false} LogQuery(log: seq<Op<Payload>>, keys: seq<Key>, i: nat, now: real)
    requires i < |keys|
    ensures log + Queries(keys[..i], now) + [Get(keys[i], now)] == log + Queries(keys[..i + 1], now)
  {
    assert keys[..i + 1] == keys[..i] + [keys[i]];
    QueriesStep(keys[..i], keys[i], now);
  }

  /** The queries of the engines that are not modelled; only their effect on the store counts. */
  method AskOthers(store: SlidingWindowStore<Payload>, keys: seq<Key>, now: real)
    requires store.Valid()
    modifies store`memory, store`zsets, store`log
    ensures store.Valid() && store.log == old(store.log) + Queries(keys, now)
  {
    ghost var log := store.log;
    var i := 0;
    assert log + Queries(keys[..0], now) == log;
    while i < |keys|
      invariant 0 <= i <= |keys|
      invariant store.Valid() && store.log == log + Queries(keys[..i], now)
    {
      var ignored := store.GetEvents(keys[i], now);
      LogQuery(log, keys, i, now);
      i := i + 1;
    }
    assert keys[..i] == keys;
  }

  /** The two modelled engines, one after the other. */
  method AskModelled(store: SlidingWindowStore<Payload>, e: FlowEvent, s: Settings, sd: real)
    returns (beacon: Option<Candidate>, scan: Option<Candidate>)
    requires store.Valid()
    modifies store`memory, store`zsets, store`log
    ensures store.Valid() && store.log == old(store.log) + ModelledQueries(e)
    ensures beacon == Beaconing.JudgeAt(store.useRedis, old(store.log), e, s.beaconing, sd)
    ensures scan == Recon.JudgeAt(store.useRedis, old(store.log), e, s.recon)
  {
    ghost var log := store.log;
    beacon := Beaconing.Evaluate(store, e, s.beaconing, sd);
    QueryIsInvisible(store.useRedis, log, Beaconing.BeaconTarget(e), SourceKey(e.srcIp), e.timestamp);
    QueryIsInvisible(store.useRedis, log, Beaconing.BeaconTarget(e), ReconKey(e.srcIp), e.timestamp);
    scan := Recon.Evaluate(store, e, s.recon);
  }

  /** Records the event, then asks all engines. */
  method IngestAndJudge(store: SlidingWindowStore<Payload>, e: FlowEvent, wall: real, s: Settings, sd: real, o: Others,
                        ghost turns: seq<Turn>)
    returns (found: seq<Candidate>)
    requires store.Valid() && store.log == RunLog(turns)
    modifies store`memory, store`zsets, store`log
    ensures store.Valid() && store.log == RunLog(turns + [Turn(e, wall, Asked(e, o))])
    ensures found == Found(store.useRedis, RunLog(turns) + IngestOps(e, wall), e, s, sd, o)
  {
    IngestToStore(store, e, wall);
    ghost var log := store.log;
    AskOthers(store, o.queries, e.timestamp);
    VerdictsStand(store.useRedis, log, e, s, sd, o.queries);
    var beacon, scan := AskModelled(store, e, s, sd);
    LogAfterTurn(turns, e, wall, o);
    found := Listed(o.ddos) + Listed(beacon) + Listed(o.dns)
             + Listed(o.malware) + Listed(scan) + Listed(o.exfiltration);
  }

  /** One alert per candidate, of the incident and with the stages that the history of calls
      with this one determines; nothing found leaves the history alone. */
  predicate AlertsFor(found: seq<Candidate>, e: FlowEvent, window: real, before: seq<Incidents.Call>,
                      calls: seq<Incidents.Call>, made: seq<Aggregator.Alert>) {
    && |made| == |found|
    && (found == [] ==> calls == before)
    && (found != [] ==>
          calls == before + [Incidents.Call(e.srcIp, e.timestamp, window, found)]
          && Aggregator.AlertsOfLast(made, FlowOf(e), calls))
  }

  class DetectionPipeline {
    const store: SlidingWindowStore<Payload>
    const aggregator: Aggregator.AlertAggregator
    /** The events processed so far. */
    ghost var turns: seq<Turn>

    ghost predicate Valid()
      reads this, store, aggregator
    {
      store.Valid() && aggregator.Valid() && store.log == RunLog(turns)
    }

    constructor (useRedis: bool)
      ensures Valid() && fresh(store) && fresh(aggregator) && store.useRedis == useRedis
      ensures turns == [] && aggregator.calls == []
    {
      store := new SlidingWindowStore(useRedis);
      aggregator := new Aggregator.AlertAggregator();
      turns := [];
    }

    /** `process_flow_event`: everything the engines find becomes an alert, and every alert is
        returned whether or not a rule matches it. `sd` stands for the square root the beaconing
        engine takes, `o` for what the engines that are not modelled do. */
    method ProcessFlowEvent(e: FlowEvent, wall: real, s: Settings, sd: real, o: Others, matches: IpMatch,
                            rules: seq<Rule>, now: real)
      returns (alerts: seq<Aggregator.Alert>, ghost made: seq<Aggregator.Alert>)
      requires Valid()
      modifies this, store, aggregator
      ensures Valid() && turns == old(turns) + [Turn(e, wall, Asked(e, o))]
      ensures AlertsFor(Found(store.useRedis, RunLog(old(turns)) + IngestOps(e, wall), e, s, sd, o), e, s.window,
                        old(aggregator.calls), aggregator.calls, made)
      ensures TaggedOnly(matches, rules, now, made, alerts)
    {
      var found := IngestAndJudge(store, e, wall, s, sd, o, turns);
      var raised := aggregator.Aggregate(FlowOf(e), found, s.window);
      made := raised;
      turns := turns + [Turn(e, wall, Asked(e, o))];
      alerts := Tag(matches, rules, now, raised);
    }
  }

  // ---------- End to end ----------

  /** An alert of class `c` about the flow of `e`. */
  predicate Raises(alerts: seq<Aggregator.Alert>, e: FlowEvent, c: ThreatClass) {
    exists k | 0 <= k < |alerts| ::
      alerts[k].threatClass == c && alerts[k].flowId == FlowIdOf(e) && alerts[k].sourceIp == e.srcIp
      && alerts[k].destinationIp == e.dstIp && alerts[k].time == e.timestamp
  }

  /** A candidate is returned as an alert, whatever the other engines find and whatever rules
      suppress. */
  lemma {:induction false} CandidateIsRaised(c: Candidate, found: seq<Candidate>, e: FlowEvent, window: real,
                                             before: seq<Incidents.Call>, calls: seq<Incidents.Call>,
                                             made: seq<Aggregator.Alert>, matches: IpMatch, rules: seq<Rule>, now: real,
                                             alerts: seq<Aggregator.Alert>)
    requires c in found && AlertsFor(found, e, window, before, calls, made)
    requires TaggedOnly(matches, rules, now, made, alerts)
    ensures Raises(alerts, e, c.threatClass)
  {
    var k :| 0 <= k < |found| && found[k] == c;
    assert made[k].threatClass == c.threatClass && made[k].flowId == FlowIdOf(e) && made[k].sourceIp == e.srcIp;
    assert made[k].destinationIp == e.dstIp && made[k].time == e.timestamp;
    assert alerts[k].(suppressedBy := None) == made[k].(suppressedBy := None);
  }

  lemma {:induction false} VerdictsAreFound(redis: bool, log: seq<Op<Payload>>, e: FlowEvent, s: Settings, sd: real,
                                            o: Others)
    ensures var beacon := Beaconing.JudgeAt(redis, log, e, s.beaconing, sd);
      beacon.Some? ==> beacon.value in Found(redis, log, e, s, sd, o) && beacon.value.threatClass == BotnetC2
    ensures var scan := Recon.JudgeAt(redis, log, e, s.recon);
      scan.Some? ==> scan.value in Found(redis, log, e, s, sd, o) && scan.value.threatClass == ReconScan
  {
  }

  /** End to end: in any in-order run through the pipeline, an event whose flow has beaten at a
      constant period for the needed count within 300 seconds is answered with a botnet alert. */
  lemma {:induction false} PeriodicFlowAlwaysRaises(redis: bool, turns: seq<Turn>, e: FlowEvent, wall: real,
                                                    s: Settings,
                                                    sd: real, o: Others, p: real, before: seq<Incidents.Call>,
                                                    calls: seq<Incidents.Call>, made: seq<Aggregator.Alert>,
                                                    matches: IpMatch, rules: seq<Rule>, now: real,
                                                    alerts: seq<Aggregator.Alert>)
    requires var run := turns + [Turn(e, wall, [])];
      && InOrderRun(run) && Beaconing.Beating(Beaconing.Seen(redis, run, e), p, s.beaconing)
      && Beaconing.TakesRoot(redis, sd, RunLog(run), e)
    ensures var found := Found(redis, RunLog(turns) + IngestOps(e, wall), e, s, sd, o);
      AlertsFor(found, e, s.window, before, calls, made) && TaggedOnly(matches, rules, now, made, alerts)
      ==> Raises(alerts, e, BotnetC2)
  {
    var log := RunLog(turns) + IngestOps(e, wall);
    LogWhileJudging(turns, e, wall);
    Beaconing.RecentBeatsAreDetected(redis, turns + [Turn(e, wall, [])], e, p, s.beaconing, sd);
    VerdictsAreFound(redis, log, e, s, sd, o);
    var found := Found(redis, log, e, s, sd, o);
    if AlertsFor(found, e, s.window, before, calls, made) && TaggedOnly(matches, rules, now, made, alerts) {
      CandidateIsRaised(Beaconing.JudgeAt(redis, log, e, s.beaconing, sd).value, found, e, s.window, before, calls,
                        made, matches, rules, now, alerts);
    }
  }

  /** End to end: a probe whose source has reached enough distinct targets is answered with a
      reconnaissance alert. */
  lemma {:induction false} ScanAlwaysRaises(redis: bool, turns: seq<Turn>, e: FlowEvent, wall: real, s: Settings,
                                            sd: real,
                                            o: Others, before: seq<Incidents.Call>, calls: seq<Incidents.Call>,
                                            made: seq<Aggregator.Alert>, matches: IpMatch, rules: seq<Rule>, now: real,
                                            alerts: seq<Aggregator.Alert>)
    requires var run := turns + [Turn(e, wall, [])];
      && InOrderRun(run) && (e.syn || e.bytesIn == 0) && 0 <= e.bytesOut <= s.recon.maxProbeBytes && e.bytesIn >= 0
      && e.packetsOut <= 2 && Recon.Targets(redis, run, e) >= s.recon.minTargetCardinality
    ensures var found := Found(redis, RunLog(turns) + IngestOps(e, wall), e, s, sd, o);
      AlertsFor(found, e, s.window, before, calls, made) && TaggedOnly(matches, rules, now, made, alerts)
      ==> Raises(alerts, e, ReconScan)
  {
    var log := RunLog(turns) + IngestOps(e, wall);
    LogWhileJudging(turns, e, wall);
    Recon.ReconFiresExactly(redis, turns + [Turn(e, wall, [])], e, s.recon);
    VerdictsAreFound(redis, log, e, s, sd, o);
    var found := Found(redis, log, e, s, sd, o);
    if AlertsFor(found, e, s.window, before, calls, made) && TaggedOnly(matches, rules, now, made, alerts) {
      CandidateIsRaised(Recon.JudgeAt(redis, log, e, s.recon).value, found, e, s.window, before, calls, made,
                        matches, rules, now, alerts);
    }
  }
}
