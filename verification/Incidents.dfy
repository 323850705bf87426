/** Incident correlation: which alerts of a source share an incident id. The evicting
    map of the aggregator, against gap-based sessions over the whole call history. */
module Incidents {
  import opened Wrappers
  import opened Alerts

  /** One `aggregate` call that found something: the event's source address (empty when
      missing), its time, the correlation window in force, and the candidates. */
  datatype Call = Call(source: string, time: real, window: real, found: seq<Candidate>)

  datatype Entry = Entry(time: real, id: nat)

  /** The per-source map and the supply of unused ids (UUIDs, never handed out twice). */
  datatype State = State(incidents: map<string, Entry>, next: nat)

  /** The incident id for a call; `None` without a source address. */
  function IdFor(s: State, c: Call): Option<nat> {
    if c.source == "" then None
    else if c.source in s.incidents && c.time - s.incidents[c.source].time <= c.window
    then Some(s.incidents[c.source].id)
    else Some(s.next)
  }

  function Remember(s: State, c: Call): State
    requires c.source != ""
  {
    var id := IdFor(s, c).value;
    State(s.incidents[c.source := Entry(c.time, id)], if id == s.next then s.next + 1 else s.next)
  }

  /** Drops the entries older than the window, seen from time `now`. */
  function Evict(m: map<string, Entry>, now: real, window: real): map<string, Entry> {
    map k | k in m && m[k].time >= now - window :: m[k]
  }

  /** `_incident_id_for_source`: remember, then evict stale sources. */
  function Step(s: State, c: Call): State {
    if c.source == "" then s
    else
      var r := Remember(s, c);
      r.(incidents := Evict(r.incidents, c.time, c.window))
  }

  function After(calls: seq<Call>): State {
    if calls == [] then State(map[], 0) else Step(After(calls[..|calls| - 1]), calls[|calls| - 1])
  }

  /** The id that call `j` of a history received. */
  function IdOf(calls: seq<Call>, j: nat): Option<nat>
    requires j < |calls|
  {
    IdFor(After(calls[..j]), calls[j])
  }

  // ---------- Specification: sessions ----------

  /** The latest call of a source. */
  function Last(calls: seq<Call>, source: string): (p: Option<nat>)
    ensures p.Some? ==> p.value < |calls| && calls[p.value].source == source
    ensures forall k | 0 <= k < |calls| && calls[k].source == source :: p.Some? && k <= p.value
  {
    if calls == [] then None
    else if calls[|calls| - 1].source == source then Some(|calls| - 1)
    else Last(calls[..|calls| - 1], source)
  }

  /** The previous call of the source of call `j`. */
  function Prev(calls: seq<Call>, j: nat): (p: Option<nat>)
    requires j < |calls|
    ensures p.Some? ==> p.value < j && calls[p.value].source == calls[j].source
    ensures forall k | 0 <= k < j && calls[k].source == calls[j].source :: p.Some? && k <= p.value
  {
    assert forall k | 0 <= k < j :: calls[..j][k] == calls[k];
    Last(calls[..j], calls[j].source)
  }

  /** Call `j` follows its source's previous call within the window. */
  predicate Continues(calls: seq<Call>, j: nat)
    requires j < |calls|
  {
    Prev(calls, j).Some? && calls[j].time - calls[Prev(calls, j).value].time <= calls[j].window
  }

  /** Call `c` evicts an entry stamped `time`. */
  predicate Evicts(c: Call, time: real) {
    c.source != "" && time < c.time - c.window
  }

  /** A call from the source's last one on (of whatever source) has evicted its entry. */
  predicate Forgotten(calls: seq<Call>, source: string) {
    var p := Last(calls, source);
    p.Some? && exists i | p.value <= i < |calls| :: Evicts(calls[i], calls[p.value].time)
  }

  /** Call `j` would continue its source's incident, but the source has been forgotten. */
  predicate LostAt(calls: seq<Call>, j: nat)
    requires j < |calls|
  {
    calls[j].source != "" && Continues(calls, j) && Forgotten(calls[..j], calls[j].source)
  }

  /** Call `j` joins the incident of its source's previous call. */
  predicate Joins(calls: seq<Call>, j: nat)
    requires j < |calls|
  {
    Continues(calls, j) && !Forgotten(calls[..j], calls[j].source)
  }

  /** Same source, and every call of that source after `i` up to `j` joins. */
  predicate SameRun(calls: seq<Call>, i: nat, j: nat)
    requires i <= j < |calls|
  {
    && calls[i].source == calls[j].source
    && forall b | i < b <= j && calls[b].source == calls[i].source :: Joins(calls, b)
  }

  /** Same source, and no gap of that source between the two calls exceeds the window. */
  predicate SameSession(calls: seq<Call>, i: nat, j: nat)
    requires i <= j < |calls|
  {
    && calls[i].source == calls[j].source
    && forall b | i < b <= j && calls[b].source == calls[i].source :: Continues(calls, b)
  }

  /** Non-decreasing times, one fixed window. */
  predicate Regular(calls: seq<Call>, window: real) {
    && window >= 0.0
    && (forall k | 0 <= k < |calls| :: calls[k].window == window)
    && (forall i, j | 0 <= i <= j < |calls| :: calls[i].time <= calls[j].time)
  }

  // ---------- What the map knows ----------

  lemma {:induction false} PrefixId(calls: seq<Call>, n: nat, j: nat)
    requires j < n <= |calls|
    ensures IdOf(calls[..n], j) == IdOf(calls, j)
  {
    assert calls[..n][..j] == calls[..j];
  }

  /** The entry of a source, if present, is its last call's, with the id that call got. */
  ghost predicate EntryOfLast(m: map<string, Entry>, calls: seq<Call>, k: string) {
    k in m ==>
      Last(calls, k).Some?
      && calls[Last(calls, k).value].time == m[k].time
      && IdOf(calls, Last(calls, k).value) == Some(m[k].id)
  }

  lemma {:induction false} StepEntry(s: State, c: Call, k: string)
    ensures var m := Step(s, c).incidents;
      && (c.source != "" && k == c.source ==>
            (k in m <==> !Evicts(c, c.time)) && (k in m ==> m[k] == Entry(c.time, IdFor(s, c).value)))
      && (c.source != "" && k != c.source ==>
            (k in m <==> k in s.incidents && !Evicts(c, s.incidents[k].time))
            && (k in m ==> m[k] == s.incidents[k]))
      && (c.source == "" ==> m == s.incidents)
  {
  }

  lemma {:induction false} LastStep(calls: seq<Call>, c: Call, k: string)
    ensures Last(calls + [c], k) == if c.source == k then Some(|calls|) else Last(calls, k)
  {
    assert (calls + [c])[..|calls|] == calls;
  }

  /** One more call forgets a source by evicting it, and remembers its own source otherwise. */
  lemma {:induction false} ForgottenStep(calls: seq<Call>, c: Call, k: string)
    requires k != ""
    ensures Forgotten(calls + [c], k)
       <==> if c.source == k then Evicts(c, c.time)
            else Forgotten(calls, k) || (Last(calls, k).Some? && Evicts(c, calls[Last(calls, k).value].time))
  {
    LastStep(calls, c, k);
    var all := calls + [c];
    assert all[|calls|] == c;
    if c.source != k && Last(calls, k).Some? {
      var p := Last(calls, k).value;
      assert all[p] == calls[p];
      if Forgotten(calls, k) {
        var i :| p <= i < |calls| && Evicts(calls[i], calls[p].time);
        assert all[i] == calls[i];
      }
    }
  }

  /** What the map holds, for calls at any times with any windows: exactly the sources that
      were not forgotten, each with the time and id of its last call. */
  lemma {:induction false} MapKnows(calls: seq<Call>, k: string)
    requires k != ""
    ensures k in After(calls).incidents <==> Last(calls, k).Some? && !Forgotten(calls, k)
    ensures EntryOfLast(After(calls).incidents, calls, k)
  {
    if calls != [] {
      var n := |calls| - 1;
      MapKnows(calls[..n], k);
      assert calls == calls[..n] + [calls[n]];
      MapKnowsStep(calls[..n], calls[n], k);
    }
  }

  lemma {:induction false} MapKnowsStep(calls: seq<Call>, c: Call, k: string)
    requires k != ""
    requires k in After(calls).incidents <==> Last(calls, k).Some? && !Forgotten(calls, k)
    requires EntryOfLast(After(calls).incidents, calls, k)
    ensures k in After(calls + [c]).incidents <==> Last(calls + [c], k).Some? && !Forgotten(calls + [c], k)
    ensures EntryOfLast(After(calls + [c]).incidents, calls + [c], k)
  {
    var all := calls + [c];
    assert all[..|calls|] == calls;
    StepEntry(After(calls), c, k);
    LastStep(calls, c, k);
    ForgottenStep(calls, c, k);
    if c.source != k && Last(calls, k).Some? {
      PrefixId(all, |calls|, Last(calls, k).value);
    }
  }

  lemma {:induction false} IdsBelowNext(calls: seq<Call>, j: nat)
    requires j < |calls|
    ensures IdOf(calls, j).Some? ==> IdOf(calls, j).value < After(calls).next
  {
    var n := |calls| - 1;
    EntriesBelowNext(calls[..n]);
    if j < n {
      IdsBelowNext(calls[..n], j);
      PrefixId(calls, n, j);
    }
  }

  lemma {:induction false} EntriesBelowNext(calls: seq<Call>)
    ensures forall k | k in After(calls).incidents :: After(calls).incidents[k].id < After(calls).next
  {
    if calls != [] {
      EntriesBelowNext(calls[..|calls| - 1]);
    }
  }

  /** For calls at any times with any windows: a call joins the incident of its source's
      previous call exactly when it follows that call within the window and the source was not
      forgotten in between; otherwise its id is one that no earlier call had. */
  lemma {:induction false} IdRecurrence(calls: seq<Call>, j: nat)
    requires j < |calls| && calls[j].source != ""
    ensures Prev(calls, j).Some? && IdOf(calls, j) == IdOf(calls, Prev(calls, j).value) <==> Joins(calls, j)
    ensures !Joins(calls, j) ==> forall i | 0 <= i < j :: IdOf(calls, i) != IdOf(calls, j)
  {
    var front, c := calls[..j], calls[j];
    MapKnows(front, c.source);
    if Prev(calls, j).Some? {
      PrefixId(calls, j, Prev(calls, j).value);
    }
    if !Joins(calls, j) {
      forall i | 0 <= i < j ensures IdOf(calls, i) != IdOf(calls, j) {
        IdsBelowNext(front, i);
        PrefixId(calls, j, i);
      }
    }
  }

  lemma {:induction false} RunStep(calls: seq<Call>, i: nat, j: nat)
    requires i < j < |calls| && Prev(calls, j).Some? && i <= Prev(calls, j).value
    ensures SameRun(calls, i, j) <==> SameRun(calls, i, Prev(calls, j).value) && Joins(calls, j)
  {
    var p := Prev(calls, j).value;
    if SameRun(calls, i, p) && Joins(calls, j) {
      forall b | i < b <= j && calls[b].source == calls[i].source ensures Joins(calls, b) {
        assert b <= p || b == j;
      }
    }
  }

  /** Who shares an incident, for calls at any times with any windows: exactly the calls of one
      source linked by calls of that source that each join the one before. */
  lemma {:induction false} SameIncidentIffSameRun(calls: seq<Call>, i: nat, j: nat)
    requires i <= j < |calls|
    requires calls[i].source != "" && calls[j].source != ""
    ensures IdOf(calls, i) == IdOf(calls, j) <==> SameRun(calls, i, j)
    decreases j
  {
    if i < j {
      IdRecurrence(calls, j);
      if Joins(calls, j) {
        var p := Prev(calls, j).value;
        if i <= p {
          SameIncidentIffSameRun(calls, i, p);
          RunStep(calls, i, j);
        } else {
          SameIncidentIffSameRun(calls, p, i);
        }
      } else {
        assert calls[i].source == calls[j].source ==> !SameRun(calls, i, j);
      }
    }
  }

  // ---------- Ordered times: sessions ----------

  /** While times never run back and the window is fixed, only silence beyond the window
      forgets a source, so no call is lost. */
  lemma {:induction false} RegularLosesNothing(calls: seq<Call>, j: nat, window: real)
    requires Regular(calls, window) && j < |calls|
    ensures !LostAt(calls, j)
    ensures calls[j].source != "" ==> (Joins(calls, j) <==> Continues(calls, j))
  {
    assert forall i | 0 <= i < j :: calls[..j][i] == calls[i];
  }

  /** Incident ids are sessions: two calls of known sources share an id if and only if they
      have the same source and every gap of that source between them is within the window. */
  lemma {:induction false} SameIncidentIffSameSession(calls: seq<Call>, i: nat, j: nat, window: real)
    requires Regular(calls, window) && i <= j < |calls|
    requires calls[i].source != "" && calls[j].source != ""
    ensures IdOf(calls, i) == IdOf(calls, j) <==> SameSession(calls, i, j)
  {
    SameIncidentIffSameRun(calls, i, j);
    forall b | i < b <= j && calls[b].source == calls[i].source ensures Joins(calls, b) <==> Continues(calls, b) {
      RegularLosesNothing(calls, b, window);
    }
  }

  // ---------- Exactly when eviction is invisible ----------

  /** The same correlation without ever forgetting a source. */
  function AfterKeeping(calls: seq<Call>): State {
    if calls == [] then State(map[], 0)
    else
      var s, c := AfterKeeping(calls[..|calls| - 1]), calls[|calls| - 1];
      if c.source == "" then s else Remember(s, c)
  }

  function IdKeeping(calls: seq<Call>, j: nat): Option<nat>
    requires j < |calls|
  {
    IdFor(AfterKeeping(calls[..j]), calls[j])
  }

  /** Both maps agree on the supply of ids and on every source not forgotten, and the keeping
      map has every source's last call. */
  ghost predicate Agree(s: State, keep: State, calls: seq<Call>) {
    && s.next == keep.next
    && (forall k | k in s.incidents :: k in keep.incidents && s.incidents[k] == keep.incidents[k])
    && (forall k | k != "" :: KeepsLast(keep.incidents, calls, k))
  }

  predicate KeepsLast(m: map<string, Entry>, calls: seq<Call>, k: string) {
    && (k in m <==> Last(calls, k).Some?)
    && (k in m ==> m[k].time == calls[Last(calls, k).value].time)
  }

  predicate NoneLost(calls: seq<Call>) {
    forall j | 0 <= j < |calls| :: !LostAt(calls, j)
  }

  lemma {:induction false} PrefixLost(calls: seq<Call>, n: nat, j: nat)
    requires j < n <= |calls|
    ensures LostAt(calls[..n], j) <==> LostAt(calls, j)
    ensures IdKeeping(calls[..n], j) == IdKeeping(calls, j)
  {
    assert calls[..n][..j] == calls[..j];
  }

  lemma {:induction false} KeepingHasLast(calls: seq<Call>, k: string)
    requires k != ""
    ensures KeepsLast(AfterKeeping(calls).incidents, calls, k)
  {
    if calls != [] {
      KeepingHasLast(calls[..|calls| - 1], k);
    }
  }

  /** A call that is not lost gets the same id from both maps. */
  lemma {:induction false} SameIdUnlessLost(calls: seq<Call>, c: Call)
    requires Agree(After(calls), AfterKeeping(calls), calls)
    requires !LostAt(calls + [c], |calls|)
    ensures IdFor(After(calls), c) == IdFor(AfterKeeping(calls), c)
  {
    if c.source != "" {
      assert (calls + [c])[..|calls|] == calls;
      MapKnows(calls, c.source);
      assert KeepsLast(AfterKeeping(calls).incidents, calls, c.source);
    }
  }

  lemma {:induction false} NoneLostAgree(calls: seq<Call>)
    requires NoneLost(calls)
    ensures Agree(After(calls), AfterKeeping(calls), calls)
  {
    forall k | k != "" ensures KeepsLast(AfterKeeping(calls).incidents, calls, k) {
      KeepingHasLast(calls, k);
    }
    if calls != [] {
      var n := |calls| - 1;
      forall j | 0 <= j < n ensures !LostAt(calls[..n], j) {
        PrefixLost(calls, n, j);
      }
      NoneLostAgree(calls[..n]);
      assert calls == calls[..n] + [calls[n]];
      SameIdUnlessLost(calls[..n], calls[n]);
    }
  }

  /** A lost call is seen: the keeping map continues the incident, the evicting map does not. */
  lemma {:induction false} LostIsSeen(calls: seq<Call>, j: nat)
    requires j < |calls| && LostAt(calls, j)
    ensures var p := Prev(calls, j).value;
      IdKeeping(calls, j) == IdKeeping(calls, p) && IdOf(calls, j) != IdOf(calls, p)
  {
    var p := Prev(calls, j).value;
    IdRecurrence(calls, j);
    KeepingKnows(calls[..j], calls[j].source);
    assert calls[..j][..p] == calls[..p];
  }

  lemma {:induction false} KeepingKnows(calls: seq<Call>, k: string)
    requires k != "" && Last(calls, k).Some?
    ensures var p, m := Last(calls, k).value, AfterKeeping(calls).incidents;
      k in m && m[k].time == calls[p].time && IdKeeping(calls, p) == Some(m[k].id)
  {
    var n := |calls| - 1;
    if calls[n].source != k {
      KeepingKnows(calls[..n], k);
      PrefixLost(calls, n, Last(calls, k).value);
    }
  }

  /** Both maps put the same calls together. */
  predicate SamePartition(calls: seq<Call>) {
    forall i, j | 0 <= i < |calls| && 0 <= j < |calls| ::
      IdOf(calls, i) == IdOf(calls, j) <==> IdKeeping(calls, i) == IdKeeping(calls, j)
  }

  predicate SameIds(calls: seq<Call>) {
    forall j | 0 <= j < |calls| :: IdOf(calls, j) == IdKeeping(calls, j)
  }

  /** Eviction is invisible, for calls at any times with any windows, exactly when no call
      follows within the window a source that was forgotten: then all ids equal those of a map
      that never forgets, and otherwise the two maps do not even group the calls alike. */
  lemma {:induction false} EvictionInvisibleExactly(calls: seq<Call>)
    ensures SameIds(calls) <==> NoneLost(calls)
    ensures SamePartition(calls) <==> NoneLost(calls)
  {
    if NoneLost(calls) {
      forall j | 0 <= j < |calls| ensures IdOf(calls, j) == IdKeeping(calls, j) {
        forall i | 0 <= i < j ensures !LostAt(calls[..j], i) {
          PrefixLost(calls, j, i);
        }
        NoneLostAgree(calls[..j]);
        assert calls[..j + 1] == calls[..j] + [calls[j]];
        PrefixLost(calls, j + 1, j);
        SameIdUnlessLost(calls[..j], calls[j]);
      }
    } else {
      var j :| 0 <= j < |calls| && LostAt(calls, j);
      LostIsSeen(calls, j);
    }
  }

  /** In particular, evicting stale sources is invisible while times never run back. */
  lemma {:induction false} EvictionIsInvisible(calls: seq<Call>, window: real)
    requires Regular(calls, window)
    ensures SameIds(calls)
  {
    forall j | 0 <= j < |calls| ensures !LostAt(calls, j) {
      RegularLosesNothing(calls, j, window);
    }
    EvictionInvisibleExactly(calls);
  }

  /** When times run back it can show: a far later call of another source evicts a source, and
      an out-of-order call of that source, close to its first one, gets a new id. */
  lemma {:induction false} EvictionShowsWhenTimeRunsBack(a: string, b: string, t: real, far: real, back: real,
                                                         window: real, found: seq<Candidate>)
    requires a != "" && b != "" && a != b && window >= 0.0
    requires far - window > t && back - t <= window
    ensures var calls := [Call(a, t, window, found)] + [Call(b, far, window, found)] + [Call(a, back, window, found)];
      LostAt(calls, 2) && !SameIds(calls) && !SamePartition(calls)
  {
    var x, y, z := Call(a, t, window, found), Call(b, far, window, found), Call(a, back, window, found);
    var calls := [x] + [y] + [z];
    assert calls[..2] == [x] + [y] && ([x] + [y])[..1] == [x];
    assert Last([x] + [y], a) == Some(0);
    assert Evicts(([x] + [y])[1], t);
    assert LostAt(calls, 2);
    EvictionInvisibleExactly(calls);
  }
}
