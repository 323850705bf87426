/** Suppression rules shared by processes through a Redis hash. Each process edits its own copy
    and writes through, and reads refresh the copy only when it counts as stale. */
module Suppression {
  import opened Wrappers
  import opened Alerts

  datatype RuleType = BySource | ByDestination | BySourceAndClass

  datatype Rule = Rule(
    id: string,
    ruleType: RuleType,
    description: Option<string>,
    sourceIp: Option<string>,
    destinationIp: Option<string>,
    threatClass: Option<ThreatClass>,
    enabled: bool,
    updatedAt: real,
    expiresAt: Option<real>)

  type Rules = map<string, Rule>

  /** A process's copy of the rules and its refresh clock: the time of its last load or edit. */
  datatype Mirror = Mirror(rules: Rules, lastRefresh: real)

  /** A process before it has loaded anything. */
  const UNLOADED := Mirror(map[], 0.0)

  // ---------- Operations ----------

  /** `_refresh_if_stale` */
  function Refreshed(m: Mirror, hash: Rules, now: real, interval: real): Mirror {
    if now - m.lastRefresh < interval then m else Mirror(hash, now)
  }

  function Active(r: Rule, now: real): bool {
    r.enabled && (r.expiresAt.None? || r.expiresAt.value > now)
  }

  function OrKeep<T>(o: Option<T>, present: T): T {
    if o.Some? then o.value else present
  }

  datatype Edit =
    | Create(rule: Rule)
    | Update(id: string, enabled: Option<bool>, description: Option<string>, expiresAt: Option<real>)
    | Delete(id: string)

  /** An edit of a rule the process does not know changes nothing. */
  predicate Applies(m: Mirror, e: Edit) {
    e.Create? || e.id in m.rules
  }

  function Updated(r: Rule, e: Edit, now: real): Rule
    requires e.Update?
  {
    r.(enabled := OrKeep(e.enabled, r.enabled),
       description := if e.description.Some? then e.description else r.description,
       expiresAt := if e.expiresAt.Some? then e.expiresAt else r.expiresAt,
       updatedAt := now)
  }

  /** The process edits its copy and writes the one entry through to the hash. */
  function EditCopy(m: Mirror, e: Edit, now: real): Mirror {
    if !Applies(m, e) then m
    else
      match e
      case Create(rule) => Mirror(m.rules[rule.id := rule], now)
      case Update(id, _, _, _) => Mirror(m.rules[id := Updated(m.rules[id], e, now)], now)
      case Delete(id) => Mirror(m.rules - {id}, now)
  }

  function EditHash(m: Mirror, hash: Rules, e: Edit, now: real): Rules {
    if !Applies(m, e) then hash
    else
      match e
      case Create(rule) => hash[rule.id := rule]
      case Update(id, _, _, _) => hash[id := Updated(m.rules[id], e, now)]
      case Delete(id) => hash - {id}
  }

  // ---------- Any number of processes ----------

  function EditedId(e: Edit): string {
    match e
    case Create(rule) => rule.id
    case Update(id, _, _, _) => id
    case Delete(id) => id
  }

  /** What an edit leaves under its id. */
  function Written(m: Mirror, e: Edit, now: real): Option<Rule>
    requires Applies(m, e)
  {
    match e
    case Create(rule) => Some(rule)
    case Update(id, _, _, _) => Some(Updated(m.rules[id], e, now))
    case Delete(_) => None
  }

  /** A process with its copy, the time it last loaded the hash, and what it has itself
      written since (an absent rule for a deletion). */
  datatype Process = Process(interval: real, copy: Mirror, loadedAt: Option<real>, own: map<string, Option<Rule>>)

  datatype Step = Loads(p: nat) | Edits(p: nat, edit: Edit) | Reads(p: nat)
  datatype Moment = Moment(step: Step, now: real)

  /** What the hash held from `since` on, until the next version. */
  datatype Version = Version(since: real, rules: Rules)

  datatype World = World(hash: Rules, processes: seq<Process>, versions: seq<Version>)

  function Loaded(q: Process, hash: Rules, now: real): Process {
    q.(copy := Mirror(hash, now), loadedAt := Some(now), own := map[])
  }

  /** The refresh guard: the copy is no longer considered fresh. */
  predicate IsStale(q: Process, now: real) {
    now - q.copy.lastRefresh >= q.interval
  }

  function Edited(q: Process, e: Edit, now: real): Process {
    if !Applies(q.copy, e) then q
    else q.(copy := EditCopy(q.copy, e, now), own := q.own[EditedId(e) := Written(q.copy, e, now)])
  }

  function StepOf(q: Process, hash: Rules, t: Moment): Process {
    match t.step
    case Loads(_) => Loaded(q, hash, t.now)
    case Edits(_, e) => Edited(q, e, t.now)
    case Reads(_) => if IsStale(q, t.now) then Loaded(q, hash, t.now) else q
  }

  function Advance(w: World, t: Moment): (r: World)
    ensures |r.processes| == |w.processes|
  {
    var p := t.step.p;
    if p >= |w.processes| then w
    else
      var q := w.processes[p];
      var processes := w.processes[p := StepOf(q, w.hash, t)];
      if t.step.Edits? then
        var hash := EditHash(q.copy, w.hash, t.step.edit, t.now);
        World(hash, processes, w.versions + [Version(t.now, hash)])
      else w.(processes := processes)
  }

  /** A process that has loaded nothing yet. */
  function Unloaded(interval: real): Process {
    Process(interval, UNLOADED, None, map[])
  }

  function Initial(hash: Rules, start: real, intervals: seq<real>): World {
    World(hash, seq(|intervals|, i requires 0 <= i < |intervals| => Unloaded(intervals[i])), [Version(start, hash)])
  }

  function Run(w: World, steps: seq<Moment>): (r: World)
    ensures |r.processes| == |w.processes|
  {
    if steps == [] then w else Advance(Run(w, steps[..|steps| - 1]), steps[|steps| - 1])
  }

  /** A step of one process changes no other. */
  lemma {:induction false} OthersAreUntouched(w: World, t: Moment, p: nat)
    requires p < |w.processes| && p != t.step.p
    ensures Advance(w, t).processes[p] == w.processes[p]
  {
  }

  // ---------- What a copy consists of ----------

  function RuleOf(rules: Rules, id: string): Option<Rule> {
    if id in rules then Some(rules[id]) else None
  }

  /** `rules` is `base` with the process's own writes laid over it. */
  ghost predicate Overlay(rules: Rules, base: Rules, own: map<string, Option<Rule>>) {
    forall id :: RuleOf(rules, id) == if id in own then own[id] else RuleOf(base, id)
  }

  /** Version `v` was what the hash held at instant `t`. */
  predicate CurrentAt(versions: seq<Version>, v: nat, t: real) {
    v < |versions| && versions[v].since <= t && (v + 1 < |versions| ==> t <= versions[v + 1].since)
  }

  /** The copy overlays what the hash held when it was last loaded with the process's own
      writes since; and without any, the refresh clock shows that load. */
  ghost predicate Explained(q: Process, versions: seq<Version>, now: real) {
    && (q.loadedAt.None? ==> Overlay(q.copy.rules, map[], q.own))
    && (q.loadedAt.Some? ==>
          q.loadedAt.value <= now
          && exists v: nat ::
               CurrentAt(versions, v, q.loadedAt.value) && Overlay(q.copy.rules, versions[v].rules, q.own))
    && (q.own == map[] ==> q.copy.lastRefresh == if q.loadedAt.Some? then q.loadedAt.value else 0.0)
  }

  /** The hash has a history that ends with what it holds now and was last changed by `now`. */
  predicate HistoryOf(w: World, now: real) {
    w.versions != [] && w.versions[|w.versions| - 1].rules == w.hash && w.versions[|w.versions| - 1].since <= now
  }

  ghost predicate Consistent(w: World, now: real) {
    HistoryOf(w, now) && forall p | 0 <= p < |w.processes| :: Explained(w.processes[p], w.versions, now)
  }

  lemma {:induction false} LoadIsExplained(q: Process, w: World, now: real)
    requires HistoryOf(w, now)
    ensures Explained(Loaded(q, w.hash, now), w.versions, now)
  {
    var v := |w.versions| - 1;
    assert CurrentAt(w.versions, v, now) && Overlay(w.hash, w.versions[v].rules, map[]);
  }

  lemma {:induction false} EditOverlays(m: Mirror, base: Rules, own: map<string, Option<Rule>>, e: Edit, now: real)
    requires Applies(m, e) && Overlay(m.rules, base, own)
    ensures Overlay(EditCopy(m, e, now).rules, base, own[EditedId(e) := Written(m, e, now)])
  {
  }

  lemma {:induction false} EditIsExplained(q: Process, versions: seq<Version>, e: Edit, before: real, now: real)
    requires Explained(q, versions, before) && before <= now
    ensures Explained(Edited(q, e, now), versions, now)
  {
    if Applies(q.copy, e) {
      var own := q.own[EditedId(e) := Written(q.copy, e, now)];
      assert EditedId(e) in own;
      if q.loadedAt.None? {
        EditOverlays(q.copy, map[], q.own, e, now);
      } else {
        var v: nat :| CurrentAt(versions, v, q.loadedAt.value) && Overlay(q.copy.rules, versions[v].rules, q.own);
        EditOverlays(q.copy, versions[v].rules, q.own, e, now);
      }
    }
  }

  lemma {:induction false} ExplainedSurvives(q: Process, versions: seq<Version>, later: Version, now: real)
    requires Explained(q, versions, now) && now <= later.since
    ensures Explained(q, versions + [later], later.since)
  {
    if q.loadedAt.Some? {
      var v: nat :| CurrentAt(versions, v, q.loadedAt.value) && Overlay(q.copy.rules, versions[v].rules, q.own);
      assert CurrentAt(versions + [later], v, q.loadedAt.value);
    }
  }

  lemma {:induction false} StepIsExplained(w: World, t: Moment, before: real, p: nat)
    requires Consistent(w, before) && before <= t.now && p < |w.processes|
    ensures Explained(Advance(w, t).processes[p], w.versions, t.now)
  {
    var q := w.processes[p];
    assert Explained(q, w.versions, before);
    if p == t.step.p && t.step.Edits? {
      EditIsExplained(q, w.versions, t.step.edit, before, t.now);
    } else if p == t.step.p {
      LoadIsExplained(q, w, t.now);
    }
  }

  /** Every load, edit and read, by any process, keeps every copy explained. */
  lemma {:induction false} AdvanceKeepsConsistent(w: World, t: Moment, before: real)
    requires Consistent(w, before) && before <= t.now
    ensures Consistent(Advance(w, t), t.now)
  {
    var next := Advance(w, t);
    forall p | 0 <= p < |next.processes| ensures Explained(next.processes[p], next.versions, t.now) {
      StepIsExplained(w, t, before, p);
      if next.versions != w.versions {
        ExplainedSurvives(next.processes[p], w.versions, next.versions[|next.versions| - 1], t.now);
      }
    }
  }

  /** Clocks never go back. */
  predicate Ticking(start: real, steps: seq<Moment>) {
    && (forall i | 0 <= i < |steps| :: start <= steps[i].now)
    && (forall i, j | 0 <= i <= j < |steps| :: steps[i].now <= steps[j].now)
  }

  function EndTime(start: real, steps: seq<Moment>): real {
    if steps == [] then start else steps[|steps| - 1].now
  }

  /** In any run of any number of editing and reading processes, every copy is what the hash
      held when that process last loaded it, overlaid with the process's own later writes. */
  lemma {:induction false} CopiesAreExplained(hash: Rules, start: real, intervals: seq<real>, steps: seq<Moment>)
    requires Ticking(start, steps)
    ensures Consistent(Run(Initial(hash, start, intervals), steps), EndTime(start, steps))
  {
    if steps == [] {
    } else {
      var n := |steps| - 1;
      CopiesAreExplained(hash, start, intervals, steps[..n]);
      if n > 0 {
        assert steps[n - 1].now <= steps[n].now;
      }
      AdvanceKeepsConsistent(Run(Initial(hash, start, intervals), steps[..n]), steps[n], EndTime(start, steps[..n]));
    }
  }

  // ---------- How recent a read is ----------

  /** The process last loaded the hash less than its interval before `now`. */
  predicate LoadedWithin(q: Process, now: real) {
    q.loadedAt.Some? && now - q.loadedAt.value < q.interval
  }

  /** Rules the process has not written itself are those the hash held at instant `at`, less
      than the interval before `now`. */
  ghost predicate ReadsRecent(q: Process, versions: seq<Version>, now: real, v: nat, at: real) {
    && now - q.interval < at <= now && CurrentAt(versions, v, at)
    && forall id | id !in q.own :: RuleOf(q.copy.rules, id) == RuleOf(versions[v].rules, id)
  }

  /** The exact staleness bound, for every process whether it edits or not: a read at `now`
      reflects a load less than the interval old if and only if the refresh guard holds or the
      last load is that recent already. Every rule the process did not write itself since is
      then what the hash held at that load. */
  lemma {:induction false} ReadIsRecentExactly(hash: Rules, start: real, intervals: seq<real>, steps: seq<Moment>,
                                               p: nat, now: real)
    requires p < |intervals| && Ticking(start, steps + [Moment(Reads(p), now)])
    ensures var before := Run(Initial(hash, start, intervals), steps);
      var after := Advance(before, Moment(Reads(p), now));
      && before.processes[p].interval == intervals[p]
      && (intervals[p] > 0.0 ==>
            (LoadedWithin(after.processes[p], now)
             <==> IsStale(before.processes[p], now) || LoadedWithin(before.processes[p], now)))
      && (LoadedWithin(after.processes[p], now) ==>
            exists v: nat, at: real :: ReadsRecent(after.processes[p], after.versions, now, v, at))
  {
    var all := steps + [Moment(Reads(p), now)];
    assert all[..|steps|] == steps && all[|steps|] == Moment(Reads(p), now);
    IntervalsStay(Initial(hash, start, intervals), steps, p);
    CopiesAreExplained(hash, start, intervals, all);
    var w := Run(Initial(hash, start, intervals), all);
    var q := w.processes[p];
    assert Explained(q, w.versions, now);
    if LoadedWithin(q, now) {
      var v: nat :| CurrentAt(w.versions, v, q.loadedAt.value) && Overlay(q.copy.rules, w.versions[v].rules, q.own);
      assert ReadsRecent(q, w.versions, now, v, q.loadedAt.value);
    }
  }

  lemma {:induction false} IntervalsStay(w: World, steps: seq<Moment>, p: nat)
    requires p < |w.processes|
    ensures Run(w, steps).processes[p].interval == w.processes[p].interval
  {
    if steps != [] {
      IntervalsStay(w, steps[..|steps| - 1], p);
    }
  }

  /** The whole copy is what the hash held at instant `at`, less than the interval before `now`. */
  ghost predicate HeldRecently(q: Process, versions: seq<Version>, now: real, v: nat, at: real) {
    now - q.interval < at <= now && CurrentAt(versions, v, at) && q.copy.rules == versions[v].rules
  }

  /** Bounded staleness of readers: a process that has written nothing since its last load (or
      has never loaded, once its clock is past the first interval) reads what the hash held at
      some instant less than its interval earlier, however many other processes edit. */
  lemma {:induction false} ReaderIsRecent(hash: Rules, start: real, intervals: seq<real>, steps: seq<Moment>,
                                          p: nat, now: real)
    returns (v: nat, at: real)
    requires p < |intervals| && intervals[p] > 0.0 && Ticking(start, steps + [Moment(Reads(p), now)])
    requires var q := Run(Initial(hash, start, intervals), steps).processes[p];
      q.own == map[] && (q.loadedAt.None? ==> now >= intervals[p])
    ensures var after := Run(Initial(hash, start, intervals), steps + [Moment(Reads(p), now)]);
      HeldRecently(after.processes[p], after.versions, now, v, at)
  {
    var all := steps + [Moment(Reads(p), now)];
    assert all[..|steps|] == steps && all[|steps|] == Moment(Reads(p), now);
    assert Ticking(start, steps) by {
      assert forall i | 0 <= i < |steps| :: steps[i] == all[i];
    }
    CopiesAreExplained(hash, start, intervals, steps);
    assert Explained(Run(Initial(hash, start, intervals), steps).processes[p],
                     Run(Initial(hash, start, intervals), steps).versions, EndTime(start, steps));
    ReadIsRecentExactly(hash, start, intervals, steps, p, now);
    var after := Run(Initial(hash, start, intervals), all);
    var q := after.processes[p];
    assert q.own == map[];
    v, at :| ReadsRecent(q, after.versions, now, v, at);
    SameRules(q.copy.rules, after.versions[v].rules);
  }

  lemma {:induction false} SameRules(a: Rules, b: Rules)
    requires forall id :: RuleOf(a, id) == RuleOf(b, id)
    ensures a == b
  {
    forall id ensures id in a <==> id in b {
      assert RuleOf(a, id) == RuleOf(b, id);
    }
    forall id | id in a ensures a[id] == b[id] {
      assert RuleOf(a, id) == RuleOf(b, id);
    }
  }

  /** No process but `p` edits. */
  predicate SoleEditor(steps: seq<Moment>, p: nat) {
    forall i | 0 <= i < |steps| && steps[i].step.Edits? :: steps[i].step.p == p
  }

  /** From a moment on at which it holds what the hash holds, a process that is the only one to
      edit always does, through all its loads, edits and reads. */
  lemma {:induction false} WriterEqualsHash(w: World, steps: seq<Moment>, p: nat)
    requires p < |w.processes| && w.processes[p].copy.rules == w.hash && SoleEditor(steps, p)
    ensures Run(w, steps).processes[p].copy.rules == Run(w, steps).hash
  {
    if steps != [] {
      WriterEqualsHash(w, steps[..|steps| - 1], p);
    }
  }

  /** One round of a busy editor: it creates a rule, then reads while the hash holds `seen`. */
  datatype Round = Round(rule: Rule, created: real, read: real, seen: Rules)

  function Rounds(m: Mirror, rounds: seq<Round>, interval: real): Mirror {
    if rounds == [] then m
    else
      var r := rounds[|rounds| - 1];
      var edited := EditCopy(Rounds(m, rounds[..|rounds| - 1], interval), Create(r.rule), r.created);
      Refreshed(edited, r.seen, r.read, interval)
  }

  /** Where the exact condition fails it can fail for ever. A process that reads only shortly
      after its own edits restarts its refresh clock with each of them: however many rounds
      pass, and whatever the hash holds by then, another process's rule stays invisible to it. */
  lemma {:induction false} BusyEditorStaysStale(m: Mirror, rounds: seq<Round>, interval: real, id: string)
    requires id !in m.rules
    requires forall i | 0 <= i < |rounds| :: rounds[i].rule.id != id && rounds[i].read - rounds[i].created < interval
    ensures id !in Rounds(m, rounds, interval).rules
  {
    if rounds != [] {
      BusyEditorStaysStale(m, rounds[..|rounds| - 1], interval, id);
    }
  }

  // ---------- Listing the active rules ----------

  /** `ids` lists each member of `keys` exactly once. */
  ghost predicate ListsOnce(ids: seq<string>, keys: set<string>) {
    (forall id :: id in ids <==> id in keys) && forall i, j | 0 <= i < j < |ids| :: ids[i] != ids[j]
  }

  /** The active rules among those of `ids`, in that order. */
  function ActiveOf(rules: Rules, ids: seq<string>, now: real): seq<Rule> {
    if ids == [] then []
    else
      var before, id := ActiveOf(rules, ids[..|ids| - 1], now), ids[|ids| - 1];
      if id in rules && Active(rules[id], now) then before + [rules[id]] else before
  }

  /** A rule is listed exactly if it is active under one of the ids. */
  lemma {:induction false} ActiveMembers(rules: Rules, ids: seq<string>, now: real, r: Rule)
    ensures r in ActiveOf(rules, ids, now) <==> Active(r, now) && exists id | id in ids :: id in rules && rules[id] == r
  {
    if ids != [] {
      var front, last := ids[..|ids| - 1], ids[|ids| - 1];
      ActiveMembers(rules, front, now, r);
      assert ids == front + [last];
    }
  }

  /** A listed rule is enabled, and expires later than now if at all; and every such rule is. */
  lemma {:induction false} ListedRulesApply(rules: Rules, ids: seq<string>, now: real, r: Rule)
    ensures r in ActiveOf(rules, ids, now)
       <==> r.enabled && (r.expiresAt == None || r.expiresAt.value > now)
            && exists id | id in ids :: id in rules && rules[id] == r
  {
    ActiveMembers(rules, ids, now, r);
  }

  /** An update sets the fields it is given and its own time, and keeps the others. */
  lemma {:induction false} UpdateSetsGivenFields(r: Rule, id: string, enabled: Option<bool>,
                                                 description: Option<string>,
                                                 expiresAt: Option<real>, now: real)
    ensures var u := Updated(r, Update(id, enabled, description, expiresAt), now);
      && (match enabled case Some(b) => u.enabled == b case None => u.enabled == r.enabled)
      && (match description case Some(d) => u.description == Some(d) case None => u.description == r.description)
      && (match expiresAt case Some(t) => u.expiresAt == Some(t) case None => u.expiresAt == r.expiresAt)
      && u.updatedAt == now
      && u.id == r.id && u.ruleType == r.ruleType && u.sourceIp == r.sourceIp && u.destinationIp == r.destinationIp
      && u.threatClass == r.threatClass
  {
  }

  /** In copy and hash alike, an edit leaves the one rule under its id and every other alone. */
  lemma {:induction false} EditChangesOneRule(m: Mirror, hash: Rules, e: Edit, now: real, id: string)
    requires Applies(m, e)
    ensures id != EditedId(e) ==> RuleOf(EditCopy(m, e, now).rules, id) == RuleOf(m.rules, id)
    ensures id != EditedId(e) ==> RuleOf(EditHash(m, hash, e, now), id) == RuleOf(hash, id)
    ensures id == EditedId(e) ==>
      RuleOf(EditCopy(m, e, now).rules, id) == RuleOf(EditHash(m, hash, e, now), id)
      == match e
         case Create(rule) => Some(rule)
         case Update(_, enabled, description, expiresAt) =>
           Some(Updated(m.rules[id], Update(id, enabled, description, expiresAt), now))
         case Delete(_) => None
  {
  }

  // ---------- The objects ----------

  /** The shared hash, with the log of what its processes have done. */
  class RedisHash {
    var rules: Rules
    ghost const initial: World
    ghost var steps: seq<Moment>

    ghost function Now(): World
      reads this
    {
      Run(initial, steps)
    }

    ghost predicate Valid()
      reads this
    {
      Now().hash == rules
    }

    constructor (rules: Rules, ghost start: real, ghost intervals: seq<real>)
      ensures Valid() && this.rules == rules && steps == [] && initial == Initial(rules, start, intervals)
    {
      this.rules := rules;
      initial := Initial(rules, start, intervals);
      steps := [];
    }
  }

  lemma {:induction false} RunStep(w: World, steps: seq<Moment>, t: Moment)
    ensures Run(w, steps + [t]) == Advance(Run(w, steps), t)
  {
    assert (steps + [t])[..|steps|] == steps;
  }

  /** The store of process `me`. */
  class SuppressionStore {
    const redis: RedisHash
    const interval: real
    ghost const me: nat
    var suppressions: Rules
    var lastRefresh: real

    ghost function Copy(): Mirror
      reads this
    {
      Mirror(suppressions, lastRefresh)
    }

    /** The store's fields are those of its process in the run that the log describes. */
    ghost predicate Valid()
      reads this, redis
    {
      && redis.Valid() && me < |redis.initial.processes|
      && redis.Now().processes[me].copy == Copy() && redis.Now().processes[me].interval == interval
    }

    constructor (redis: RedisHash, interval: real, ghost me: nat)
      requires redis.Valid() && me < |redis.initial.processes| && redis.Now().processes[me] == Unloaded(interval)
      ensures Valid() && this.redis == redis && this.interval == interval && this.me == me && Copy() == UNLOADED
    {
      this.redis, this.interval, this.me := redis, interval, me;
      suppressions, lastRefresh := map[], 0.0;
    }

    /** `_load_suppressions` at start-up. */
    method Load(now: real)
      requires Valid()
      modifies this, redis`steps
      ensures Valid() && redis.steps == old(redis.steps) + [Moment(Loads(me), now)]
      ensures Copy() == Mirror(redis.rules, now)
    {
      suppressions, lastRefresh := redis.rules, now;
      RunStep(redis.initial, redis.steps, Moment(Loads(me), now));
      redis.steps := redis.steps + [Moment(Loads(me), now)];
    }

    method RefreshIfStale(now: real)
      requires Valid()
      modifies this, redis`steps
      ensures Valid() && redis.steps == old(redis.steps) + [Moment(Reads(me), now)]
      ensures Copy() == Refreshed(old(Copy()), redis.rules, now, interval)
    {
      RunStep(redis.initial, redis.steps, Moment(Reads(me), now));
      redis.steps := redis.steps + [Moment(Reads(me), now)];
      if now - lastRefresh < interval {
        return;
      }
      suppressions, lastRefresh := redis.rules, now;
    }

    method CreateRule(rule: Rule, now: real)
      requires Valid()
      modifies this, redis
      ensures Valid() && redis.steps == old(redis.steps) + [Moment(Edits(me, Create(rule)), now)]
      ensures Copy() == EditCopy(old(Copy()), Create(rule), now)
      ensures redis.rules == EditHash(old(Copy()), old(redis.rules), Create(rule), now)
    {
      suppressions := suppressions[rule.id := rule];
      redis.rules := redis.rules[rule.id := rule];
      lastRefresh := now;
      RunStep(redis.initial, redis.steps, Moment(Edits(me, Create(rule)), now));
      redis.steps := redis.steps + [Moment(Edits(me, Create(rule)), now)];
    }

    method UpdateRule(id: string, enabled: Option<bool>, description: Option<string>, expiresAt: Option<real>,
                      now: real)
      returns (rule: Option<Rule>)
      requires Valid()
      modifies this, redis
      ensures var e := Update(id, enabled, description, expiresAt);
        && Valid() && redis.steps == old(redis.steps) + [Moment(Edits(me, e), now)]
        && Copy() == EditCopy(old(Copy()), e, now)
        && redis.rules == EditHash(old(Copy()), old(redis.rules), e, now)
        && (rule.Some? <==> id in old(suppressions))
        && (rule.Some? ==> id in suppressions && rule.value == suppressions[id])
    {
      ghost var t := Moment(Edits(me, Update(id, enabled, description, expiresAt)), now);
      RunStep(redis.initial, redis.steps, t);
      redis.steps := redis.steps + [t];
      if id !in suppressions {
        return None;
      }
      var updated := Updated(suppressions[id], Update(id, enabled, description, expiresAt), now);
      suppressions := suppressions[id := updated];
      redis.rules := redis.rules[id := updated];
      lastRefresh := now;
      return Some(updated);
    }

    method DeleteRule(id: string, now: real) returns (removed: bool)
      requires Valid()
      modifies this, redis
      ensures Valid() && redis.steps == old(redis.steps) + [Moment(Edits(me, Delete(id)), now)]
      ensures Copy() == EditCopy(old(Copy()), Delete(id), now)
      ensures redis.rules == EditHash(old(Copy()), old(redis.rules), Delete(id), now)
      ensures removed <==> id in old(suppressions)
    {
      RunStep(redis.initial, redis.steps, Moment(Edits(me, Delete(id)), now));
      redis.steps := redis.steps + [Moment(Edits(me, Delete(id)), now)];
      if id !in suppressions {
        return false;
      }
      suppressions := suppressions - {id};
      lastRefresh := now;
      redis.rules := redis.rules - {id};
      return true;
    }

    /** `get_active_suppression_rules`: the enabled, unexpired rules of the refreshed copy, once
        for each id, in whatever order `ids` the copy lists its ids. */
    method GetActiveRules(now: real) returns (rules: seq<Rule>, ghost ids: seq<string>)
      requires Valid()
      modifies this, redis`steps
      ensures Valid() && redis.steps == old(redis.steps) + [Moment(Reads(me), now)]
      ensures Copy() == Refreshed(old(Copy()), redis.rules, now, interval)
      ensures ListsOnce(ids, suppressions.Keys) && rules == ActiveOf(suppressions, ids, now)
    {
      RefreshIfStale(now);
      rules, ids := [], [];
      var left := suppressions.Keys;
      while left != {}
        invariant left <= suppressions.Keys && ListsOnce(ids, suppressions.Keys - left)
        invariant rules == ActiveOf(suppressions, ids, now)
        decreases left
      {
        var id :| id in left;
        assert (ids + [id])[..|ids|] == ids;
        if Active(suppressions[id], now) {
          rules := rules + [suppressions[id]];
        }
        ids := ids + [id];
        left := left - {id};
      }
    }
  }

  /** Two processes of one hash: what one does leaves the other's store in step with the log. */
  twostate lemma OtherStoreStaysValid(mine: SuppressionStore, other: SuppressionStore, t: Moment)
    requires old(mine.Valid()) && old(other.Valid())
    requires mine.redis == other.redis && mine.me != other.me && t.step.p == mine.me
    requires mine.Valid() && mine.redis.steps == old(mine.redis.steps) + [t]
    requires other.Copy() == old(other.Copy())
    ensures other.Valid()
  {
    RunStep(mine.redis.initial, old(mine.redis.steps), t);
    OthersAreUntouched(Run(mine.redis.initial, old(mine.redis.steps)), t, other.me);
  }
}
