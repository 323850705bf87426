/** The runtime configuration store with Redis reachable: thresholds persisted as overrides
    of the environment baseline, and what a restart restores. */
module RuntimeConfig {
  import opened Thresholds

  // ---------- Configuration histories ----------

  datatype Action = Set(name: Name, value: Value) | Reset

  /** The live table and the stored hash of overrides. JSON keeps the values as they are. */
  datatype State = State(live: Table, stored: map<string, Value>)

  ghost predicate SameNames(c: Config, live: Table) {
    live.Keys == c.baseline.Keys
  }

  lemma {:induction false} NamesPartition(c: Config, live: Table)
    requires WellFormed(c) && SameNames(c, live)
    ensures Separable(live)
  {
    forall n | n in live ensures Partition(Composite(n)) == n {
      PartitionComposite(n);
    }
  }

  /** A refused change leaves everything alone; an accepted one rewrites the hash with
      what now differs from the baseline; a reset clears both. */
  ghost function Perform(c: Config, s: State, a: Action): State
    requires WellFormed(c) && SameNames(c, s.live)
  {
    match a
    case Reset => State(c.baseline, map[])
    case Set(n, v) =>
      match SetLive(c, s.live, n, v)
      case Good(live) => NamesPartition(c, live); State(live, Overrides(c, live))
      case _ => s
  }

  lemma {:induction false} PerformKeepsNames(c: Config, s: State, a: Action)
    requires WellFormed(c) && SameNames(c, s.live)
    ensures SameNames(c, Perform(c, s, a).live)
  {
  }

  ghost function Performed(c: Config, s: State, actions: seq<Action>): (r: State)
    requires WellFormed(c) && SameNames(c, s.live)
    ensures SameNames(c, r.live)
  {
    if actions == [] then s
    else
      var before := Performed(c, s, actions[..|actions| - 1]);
      PerformKeepsNames(c, before, actions[|actions| - 1]);
      Perform(c, before, actions[|actions| - 1])
  }

  // ---------- Restart ----------

  /** Loading the stored hash over the baseline succeeds and yields the live table. */
  ghost predicate Restores(c: Config, s: State) {
    NoneEscapes(c, s.stored) && Applied(c, c.baseline, s.stored) == s.live
  }

  /** Every live value is the baseline's or one that validation returned. */
  ghost predicate Validated(c: Config, live: Table) {
    && SameNames(c, live)
    && forall n | n in live :: live[n] == c.baseline[n]
         || (c.spec(n).Some? && Coerce(c.spec(n).value, live[n]) == Good(live[n]) && Typed(c.spec(n).value, live[n]))
  }

  lemma {:induction false} CoercedIsTyped(spec: Spec, v: Value)
    requires Coerce(spec, v).Good?
    ensures Typed(spec, Coerce(spec, v).value)
  {
  }

  lemma {:induction false} TypedEquality(spec: Spec, v: Value, w: Value)
    requires Typed(spec, v) && Typed(spec, w) && PyEqual(v, w)
    ensures v == w
  {
  }

  lemma {:induction false} LoadedIsValidated(c: Config, live: Table, stored: map<string, Value>)
    requires WellFormed(c) && Validated(c, live)
    ensures Validated(c, Applied(c, live, stored))
  {
    var next := Applied(c, live, stored);
    forall n | n in next && next[n] != live[n]
      ensures c.spec(n).Some? && Coerce(c.spec(n).value, next[n]) == Good(next[n])
              && Typed(c.spec(n).value, next[n])
    {
      CoerceIdempotent(c.spec(n).value, stored[Composite(n)]);
      CoercedIsTyped(c.spec(n).value, stored[Composite(n)]);
    }
  }

  /** Loading once more over a table that loading restores changes nothing. */
  lemma {:induction false} LoadAgain(c: Config, s: State)
    requires WellFormed(c) && SameNames(c, s.live) && Restores(c, s)
    ensures Applied(c, s.live, s.stored) == s.live
  {
    forall n | n in s.live ensures Applied(c, s.live, s.stored)[n] == s.live[n] {
      assert Applied(c, c.baseline, s.stored)[n] == s.live[n];
    }
  }

  lemma {:induction false} SetIsValidated(c: Config, live: Table, n: Name, v: Value)
    requires WellFormed(c) && Validated(c, live) && SetLive(c, live, n, v).Good?
    ensures Validated(c, SetLive(c, live, n, v).value)
  {
    CoerceIdempotent(c.spec(n).value, v);
    CoercedIsTyped(c.spec(n).value, v);
  }

  lemma {:induction false} OverridesAt(c: Config, live: Table, n: Name)
    requires WellFormed(c) && SameNames(c, live) && n in live
    requires Separable(live)
    ensures Composite(n) in Overrides(c, live) <==> !PyEqual(live[n], c.baseline[n])
    ensures Composite(n) in Overrides(c, live) ==> Overrides(c, live)[Composite(n)] == live[n]
  {
  }

  /** Writing the overrides of a validated table and loading them back is the identity. */
  lemma {:induction false} OverridesRestore(c: Config, live: Table)
    requires WellFormed(c) && Validated(c, live)
    requires Separable(live)
    ensures Restores(c, State(live, Overrides(c, live)))
  {
    var stored := Overrides(c, live);
    forall n | n in live ensures Applied(c, c.baseline, stored)[n] == live[n] {
      OverridesAt(c, live, n);
      if PyEqual(live[n], c.baseline[n]) {
        TypedEquality(c.spec(n).value, live[n], c.baseline[n]);
      }
    }
    forall key ensures !Escapes(c, stored, key) {
      if key in stored {
        var n :| n in live && key == Composite(n);
        OverridesAt(c, live, n);
        NotEqualIsNotBaseline(live[n], c.baseline[n]);
      }
    }
  }

  lemma {:induction false} NotEqualIsNotBaseline(v: Value, w: Value)
    ensures !PyEqual(v, w) ==> v != w
  {
  }

  lemma {:induction false} ResetRestores(c: Config)
    requires WellFormed(c)
    ensures Restores(c, State(c.baseline, map[])) && Validated(c, c.baseline)
  {
  }

  /** An accepted change, once persisted, is restored by a restart. */
  lemma {:induction false} AcceptedIsRestored(c: Config, live: Table, n: Name, v: Value)
    requires WellFormed(c) && Validated(c, live) && SetLive(c, live, n, v).Good?
    ensures var next := SetLive(c, live, n, v).value;
      && Validated(c, next) && Separable(next)
      && Restores(c, State(next, Overrides(c, next)))
  {
    var next := SetLive(c, live, n, v).value;
    SetIsValidated(c, live, n, v);
    NamesPartition(c, next);
    OverridesRestore(c, next);
  }

  /** One action keeps "a restart would restore the live table". */
  lemma {:induction false} PerformRestores(c: Config, s: State, a: Action)
    requires WellFormed(c) && Validated(c, s.live) && Restores(c, s)
    ensures Validated(c, Perform(c, s, a).live) && Restores(c, Perform(c, s, a))
  {
    if a.Reset? {
      ResetRestores(c);
    } else if SetLive(c, s.live, a.name, a.value).Good? {
      AcceptedIsRestored(c, s.live, a.name, a.value);
    }
  }

  /** Restart restores configuration: whatever the hash held when the process started (as long
      as loading it did not raise), after any changes and resets a new process that starts from
      the same baseline and loads the hash has exactly the live thresholds. */
  lemma {:induction false} RestartRestores(c: Config, found: map<string, Value>, actions: seq<Action>)
    requires WellFormed(c) && NoneEscapes(c, found)
    ensures var started := State(Applied(c, c.baseline, found), found);
      && SameNames(c, started.live)
      && Restores(c, Performed(c, started, actions))
  {
    LoadedIsValidated(c, c.baseline, found);
    ActionsRestore(c, State(Applied(c, c.baseline, found), found), actions);
  }

  lemma {:induction false} ActionsRestore(c: Config, s: State, actions: seq<Action>)
    requires WellFormed(c) && Validated(c, s.live) && Restores(c, s)
    ensures Validated(c, Performed(c, s, actions).live) && Restores(c, Performed(c, s, actions))
  {
    if actions != [] {
      var n := |actions| - 1;
      ActionsRestore(c, s, actions[..n]);
      PerformRestores(c, Performed(c, s, actions[..n]), actions[n]);
    }
  }

  /** The documentation promises that a corrupt stored value can never prevent startup. It can:
      an infinite port makes loading raise. */
  lemma {:induction false} CorruptValueCanPreventStartup(c: Config, n: Name)
    requires WellFormed(c) && c.spec(n).Some? && c.spec(n).value.kind == IntListKind
    ensures Escapes(c, map[Composite(n) := List([Float(Infinite)])], Composite(n))
  {
    PartitionComposite(n);
    var items := [Float(Infinite)];
    assert ToInt(items[0]) == OverflowError;
  }

  // ---------- The store object ----------

  /** A process has started from its baseline, has brought table and hash in step, or has
      failed while loading. */
  datatype Phase = Started | InStep | Failed

  /** Every live value is a baseline or a validated one; and once in step, the store's own
      record of the overrides is what the hash holds, and a restart would restore the table. */
  ghost predicate Kept(c: Config, s: State, record: map<string, Value>, phase: Phase) {
    && Validated(c, s.live)
    && (phase == Started ==> s.live == c.baseline)
    && (phase == InStep ==> Restores(c, s) && record == s.stored)
  }

  lemma {:induction false} LoadKeeps(c: Config, s: State, record: map<string, Value>, phase: Phase, done: set<string>,
                                     next: Table, loaded: bool)
    requires WellFormed(c) && Kept(c, s, record, phase) && PartlyApplied(c, s.live, s.stored, done, next)
    requires loaded <==> NoneEscapes(c, s.stored)
    requires loaded ==> next == Applied(c, s.live, s.stored)
    ensures Kept(c, State(next, s.stored), s.stored, AfterLoad(phase, loaded))
  {
    LoadedIsValidated(c, s.live, Restrict(s.stored, done));
    if loaded && phase == InStep {
      LoadAgain(c, s);
    }
  }

  function AfterLoad(phase: Phase, loaded: bool): Phase {
    if !loaded || phase == Failed then Failed else InStep
  }

  lemma {:induction false} SetKeeps(c: Config, s: State, n: Name, v: Value)
    requires WellFormed(c) && Validated(c, s.live) && SetLive(c, s.live, n, v).Good?
    ensures var next := Perform(c, s, Set(n, v));
      && next.live == SetLive(c, s.live, n, v).value && Kept(c, next, next.stored, InStep)
      && Separable(next.live)
      && next.live.Keys == c.baseline.Keys && next.stored == Overrides(c, next.live)
  {
    AcceptedIsRestored(c, s.live, n, v);
  }

  class RuntimeConfigStore {
    /** The fixed parameter specs and environment baseline. */
    const config: Config
    /** `THRESHOLDS`, `_stored_overrides`, and the Redis hash. */
    var live: Table
    var storedOverrides: map<string, Value>
    var hash: map<string, Value>
    ghost var phase: Phase

    ghost predicate Valid()
      reads this
    {
      WellFormed(config) && Kept(config, Abs(), storedOverrides, phase)
    }

    ghost function Abs(): State
      reads this
    {
      State(live, hash)
    }

    /** A process starts with the environment baseline and finds a hash in Redis. */
    constructor (config: Config, found: map<string, Value>)
      requires WellFormed(config)
      ensures Valid() && this.config == config && phase == Started
      ensures live == config.baseline && hash == found && storedOverrides == map[]
    {
      this.config := config;
      live, storedOverrides, hash := config.baseline, map[], found;
      phase := Started;
    }

    /** `_load_threshold_overrides`; false when applying the stored values raised, which leaves
        the entries before the offending one applied. */
    method Load() returns (loaded: bool, ghost done: set<string>)
      requires Valid()
      modifies this
      ensures Valid() && hash == old(hash) && storedOverrides == hash
      ensures loaded <==> NoneEscapes(config, hash)
      ensures loaded ==> live == Applied(config, old(live), hash)
      ensures PartlyApplied(config, old(live), hash, done, live)
      ensures phase == AfterLoad(old(phase), loaded)
    {
      var next, applied;
      next, applied, done := ApplyOverrides(config, live, hash);
      LoadKeeps(config, Abs(), storedOverrides, phase, done, next, applied);
      live, storedOverrides, loaded := next, hash, applied;
      phase := AfterLoad(phase, loaded);
    }

    /** `set_threshold`: validate, apply, persist what differs from the baseline. */
    method SetThreshold(n: Name, v: Value) returns (r: Outcome<()>)
      requires Valid()
      modifies this
      ensures Valid()
      ensures Abs() == Perform(config, old(Abs()), Set(n, v))
      ensures r.Good? <==> SetLive(config, old(live), n, v).Good?
      ensures r.Good? ==> phase == InStep
      ensures !r.Good? ==> phase == old(phase) && storedOverrides == old(storedOverrides)
    {
      var next := SetLive(config, live, n, v);
      match next
      case ValueError => r := ValueError;
      case OverflowError => r := OverflowError;
      case Good(table) =>
        SetKeeps(config, Abs(), n, v);
        live := table;
        storedOverrides := Overrides(config, live);
        hash := storedOverrides;
        phase := InStep;
        r := Good(());
    }

    /** `reset_thresholds` */
    method ResetThresholds()
      requires Valid()
      modifies this
      ensures Valid() && phase == InStep
      ensures Abs() == Perform(config, old(Abs()), Reset)
    {
      ResetRestores(config);
      live := config.baseline;
      storedOverrides := map[];
      hash := map[];
      phase := InStep;
    }
  }
}
