/** Which threshold values are accepted, and what follows for the live table: every changed value
    lies within its range, and the stored overrides are exactly the changes. */
module Validation {
  import opened Wrappers
  import opened Thresholds
  import opened RuntimeConfig

  // ---------- What a value says ----------

  /** A scalar that denotes the finite number `r`. */
  predicate Denotes(v: Value, r: real) {
    match v
    case Int(i) => -FLOAT_LIMIT < i < FLOAT_LIMIT && r == i as real
    case Float(x) => x.Finite? && r == x.value
    case Str(asFloat, _, _) => asFloat.Some? && asFloat.value.Finite? && r == asFloat.value.value
    case _ => false
  }

  /** `i` is `r` without its fraction. */
  predicate Truncates(i: int, r: real) {
    if r >= 0.0 then i as real <= r < i as real + 1.0 else i as real - 1.0 < r <= i as real
  }

  /** A list item that denotes the integer `i`; a float loses its fraction. */
  predicate DenotesPort(v: Value, i: int) {
    match v
    case Int(n) => i == n
    case Float(x) => x.Finite? && Truncates(i, x.value)
    case Str(_, asInt, _) => asInt == Some(i)
    case _ => false
  }

  predicate Between(spec: Spec, r: real) {
    && (spec.minimum.Some? ==> spec.minimum.value <= r)
    && (spec.maximum.Some? ==> r <= spec.maximum.value)
  }

  predicate Is(r: real, i: int) {
    r == i as real
  }

  ghost predicate Whole(r: real) {
    exists i: int :: Is(r, i)
  }

  // ---------- Exactly what is accepted ----------

  /** A scalar is accepted if and only if it denotes a finite number in range, a whole one for an
      integer parameter; the result is that number. */
  lemma {:induction false} ScalarAccepted(spec: Spec, v: Value)
    requires spec.kind != IntListKind
    ensures Coerce(spec, v).Good?
       <==> exists r: real :: Denotes(v, r) && Between(spec, r) && (spec.kind == IntKind ==> Whole(r))
    ensures forall r: real | Denotes(v, r) && Coerce(spec, v).Good? ::
      if spec.kind == IntKind
      then Coerce(spec, v).value.Int? && Coerce(spec, v).value.i as real == r
      else Coerce(spec, v).value.Float? && Coerce(spec, v).value.x.Finite? && Coerce(spec, v).value.x.value == r
  {
    if Coerce(spec, v).Good? {
      var r := ToNumber(v).value.value;
      assert Denotes(v, r);
      assert r == r.Floor as real ==> Is(r, r.Floor);
    }
    if r: real :| Denotes(v, r) && Between(spec, r) && (spec.kind == IntKind ==> Whole(r)) {
      assert ToNumber(v).Good? && ToNumber(v).value.value == r;
      if spec.kind == IntKind {
        var i: int :| Is(r, i);
        assert r.Floor == i;
      }
    }
  }

  lemma {:induction false} PortDenoted(v: Value, i: int)
    ensures DenotesPort(v, i) <==> ToInt(v) == Good(i)
  {
  }

  /** The ports that the items of a list denote, one by one. */
  predicate Lists(items: seq<Value>, ports: seq<int>) {
    |items| == |ports| && forall k | 0 <= k < |items| :: DenotesPort(items[k], ports[k])
  }

  predicate AllBetween(spec: Spec, ports: seq<int>) {
    forall k | 0 <= k < |ports| :: Between(spec, ports[k] as real)
  }

  lemma {:induction false} PortsListed(spec: Spec, items: seq<Value>, ports: seq<int>)
    ensures Ports(spec, items) == Good(ports) <==> Lists(items, ports) && AllBetween(spec, ports)
  {
    PortsAccepted(spec, items);
    if Ports(spec, items) == Good(ports) {
      forall k | 0 <= k < |items| ensures DenotesPort(items[k], ports[k]) && Between(spec, ports[k] as real) {
        PortDenoted(items[k], ports[k]);
      }
    }
    if Lists(items, ports) && AllBetween(spec, ports) {
      forall k | 0 <= k < |items|
        ensures ToInt(items[k]).Good? && ToInt(items[k]).value == ports[k] && InRange(spec, ports[k] as real)
      {
        PortDenoted(items[k], ports[k]);
      }
      assert Ports(spec, items).value == ports;
    }
  }

  /** The items a value offers to a list parameter. */
  function ItemsOf(v: Value): seq<Value> {
    match v
    case Str(_, _, parts) => parts
    case List(items) => items
    case _ => []
  }

  /** A list is accepted as `ports` if and only if it is not empty, its items denote exactly those
      ports, all are in range, and none repeats. */
  lemma {:induction false} ListAccepted(spec: Spec, v: Value, ports: seq<int>)
    requires spec.kind == IntListKind
    ensures Coerce(spec, v) == Good(List(IntsOf(ports)))
       <==> ports != [] && Lists(ItemsOf(v), ports) && AllBetween(spec, ports) && NoDuplicates(ports)
    ensures Coerce(spec, v).Good? ==> exists accepted :: Coerce(spec, v) == Good(List(IntsOf(accepted)))
  {
    var items := ItemsOf(v);
    PortsListed(spec, items, ports);
    if Coerce(spec, v).Good? {
      var accepted := Ports(spec, items).value;
      assert Coerce(spec, v) == Good(List(IntsOf(accepted)));
      PortsListed(spec, items, accepted);
      if Coerce(spec, v) == Good(List(IntsOf(ports))) {
        SameInts(ports, accepted);
      }
    }
  }

  lemma {:induction false} SameInts(a: seq<int>, b: seq<int>)
    requires IntsOf(a) == IntsOf(b)
    ensures a == b
  {
    assert |a| == |IntsOf(a)| == |b|;
    forall k | 0 <= k < |a| ensures a[k] == b[k] {
      assert IntsOf(a)[k] == IntsOf(b)[k];
    }
  }

  /** Setting a threshold succeeds if and only if the parameter exists and the value is accepted;
      it then changes that one entry, to the accepted value. */
  lemma {:induction false} SetAccepted(c: Config, live: Table, n: Name, v: Value)
    ensures SetLive(c, live, n, v).Good? <==> c.spec(n).Some? && Coerce(c.spec(n).value, v).Good?
    ensures SetLive(c, live, n, v).Good? ==>
      SetLive(c, live, n, v).value == live[n := Coerce(c.spec(n).value, v).value]
  {
  }

  // ---------- The live table ----------

  /** A value of the right kind within the range of its parameter. */
  predicate WithinSpec(spec: Spec, v: Value) {
    match spec.kind
    case IntKind => v.Int? && Between(spec, v.i as real)
    case FloatKind => v.Float? && v.x.Finite? && Between(spec, v.x.value)
    case IntListKind =>
      && v.List? && v.items != []
      && (forall k | 0 <= k < |v.items| :: v.items[k].Int? && Between(spec, v.items[k].i as real))
      && (forall j, k | 0 <= j < k < |v.items| :: v.items[j] != v.items[k])
  }

  lemma {:induction false} AcceptedIsWithinSpec(spec: Spec, v: Value)
    requires Coerce(spec, v).Good?
    ensures WithinSpec(spec, Coerce(spec, v).value)
  {
    if spec.kind == IntListKind {
      var ports := Ports(spec, ItemsOf(v)).value;
      PortsListed(spec, ItemsOf(v), ports);
    }
  }

  /** Every value that differs from its baseline is within its parameter's range. */
  ghost predicate ChangesWithinSpec(c: Config, live: Table) {
    forall n | n in live && n in c.baseline && live[n] != c.baseline[n] ::
      c.spec(n).Some? && WithinSpec(c.spec(n).value, live[n])
  }

  lemma {:induction false} ValidatedIsWithinSpec(c: Config, live: Table)
    requires Validated(c, live)
    ensures ChangesWithinSpec(c, live)
  {
    forall n | n in live && n in c.baseline && live[n] != c.baseline[n]
      ensures c.spec(n).Some? && WithinSpec(c.spec(n).value, live[n])
    {
      AcceptedIsWithinSpec(c.spec(n).value, live[n]);
    }
  }

  /** Whatever a process finds stored and loads, and whatever is changed and reset afterwards, no
      changed value is ever outside its range. */
  lemma {:induction false} LiveValuesStayInRange(c: Config, found: map<string, Value>, actions: seq<Action>)
    requires WellFormed(c) && NoneEscapes(c, found)
    ensures var started := State(Applied(c, c.baseline, found), found);
      SameNames(c, started.live) && ChangesWithinSpec(c, Performed(c, started, actions).live)
  {
    LoadedIsValidated(c, c.baseline, found);
    ActionsRestore(c, State(Applied(c, c.baseline, found), found), actions);
    ValidatedIsWithinSpec(c, Performed(c, State(Applied(c, c.baseline, found), found), actions).live);
  }

  /** At any moment of its life, also after a failed load. */
  lemma {:induction false} StoreStaysInRange(store: RuntimeConfigStore)
    requires store.Valid()
    ensures ChangesWithinSpec(store.config, store.live)
  {
    ValidatedIsWithinSpec(store.config, store.live);
  }

  // ---------- What is stored ----------

  /** The overrides of a table are exactly its differences from the baseline, each under its rule
      and parameter joined by a dot. */
  ghost predicate AreDifferences(c: Config, live: Table, stored: map<string, Value>)
    requires SameNames(c, live)
  {
    && (forall n | n in live :: n.rule + "." + n.parameter in stored <==> live[n] != c.baseline[n])
    && (forall n | n in live && n.rule + "." + n.parameter in stored :: stored[n.rule + "." + n.parameter] == live[n])
    && (forall key | key in stored :: exists n :: n in live && key == n.rule + "." + n.parameter)
  }

  lemma {:induction false} OverridesAreDifferences(c: Config, live: Table)
    requires WellFormed(c) && Validated(c, live) && Separable(live)
    ensures AreDifferences(c, live, Overrides(c, live))
  {
    forall n | n in live
      ensures n.rule + "." + n.parameter in Overrides(c, live) <==> live[n] != c.baseline[n]
      ensures n.rule + "." + n.parameter in Overrides(c, live) ==>
        Overrides(c, live)[n.rule + "." + n.parameter] == live[n]
    {
      OverridesAt(c, live, n);
      NotEqualIsNotBaseline(live[n], c.baseline[n]);
      if PyEqual(live[n], c.baseline[n]) {
        TypedEquality(c.spec(n).value, live[n], c.baseline[n]);
      }
    }
  }

  /** After an accepted change the hash holds exactly what differs from the baseline. */
  lemma {:induction false} StoredAreDifferences(c: Config, s: State, n: Name, v: Value)
    requires WellFormed(c) && Validated(c, s.live) && SetLive(c, s.live, n, v).Good?
    ensures var next := Perform(c, s, Set(n, v)); SameNames(c, next.live) && AreDifferences(c, next.live, next.stored)
  {
    SetKeeps(c, s, n, v);
    SetIsValidated(c, s.live, n, v);
    OverridesAreDifferences(c, SetLive(c, s.live, n, v).value);
  }
}
