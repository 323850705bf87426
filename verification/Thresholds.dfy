/** Threshold configuration: validation of values, the live table, the overrides that are
    persisted, and what loading them back does. */
module Thresholds {
  import opened Wrappers
  import Rounding

  // ---------- Values as they arrive over the API or out of stored JSON ----------

  const TWO_TO_64: int := 0x1_0000_0000_0000_0000
  const TWO_TO_320: int := TWO_TO_64 * TWO_TO_64 * TWO_TO_64 * TWO_TO_64 * TWO_TO_64
  const TWO_TO_960: int := TWO_TO_320 * TWO_TO_320 * TWO_TO_320

  /** The least magnitude that `float(int)` rejects with OverflowError: 2^1024 - 2^970. */
  const FLOAT_LIMIT: int := TWO_TO_960 * TWO_TO_64 - TWO_TO_960 * 0x400

  type double = r: real | -(FLOAT_LIMIT as real) < r < FLOAT_LIMIT as real witness 0.0
  datatype Number = Finite(value: double) | Infinite | NaN

  /** A text stands for what the conversions applied to it yield: `float(text)`,
      `int(text)` (`None` where they raise ValueError), and the non-empty parts between
      its commas. */
  datatype Value =
    | Bool
    | Int(i: int)
    | Float(x: Number)
    | Str(asFloat: Option<Number>, asInt: Option<int>, parts: seq<Value>)
    | List(items: seq<Value>)
    | Other

  datatype Kind = IntKind | FloatKind | IntListKind
  datatype Spec = Spec(kind: Kind, minimum: Option<real>, maximum: Option<real>)

  /** The two exceptions differ: callers trap ValueError only. */
  datatype Outcome<+T> = Good(value: T) | ValueError | OverflowError

  // ---------- _coerce_value ----------

  predicate InRange(spec: Spec, x: real) {
    (spec.minimum.Some? ==> x >= spec.minimum.value) && (spec.maximum.Some? ==> x <= spec.maximum.value)
  }

  /** `int(item)` for one list item. */
  function ToInt(v: Value): Outcome<int> {
    match v
    case Int(i) => Good(i)
    case Float(Finite(r)) => Good(Rounding.Trunc(r))
    case Float(Infinite) => OverflowError
    case Str(_, Some(i), _) => Good(i)
    case _ => ValueError
  }

  /** The ports of a list, up to the first item that is refused. */
  function Ports(spec: Spec, items: seq<Value>): Outcome<seq<int>> {
    if items == [] then Good([])
    else
      match ToInt(items[0])
      case OverflowError => OverflowError
      case ValueError => ValueError
      case Good(port) =>
        if !InRange(spec, port as real) then ValueError
        else
          match Ports(spec, items[1..])
          case OverflowError => OverflowError
          case ValueError => ValueError
          case Good(rest) => Good([port] + rest)
  }

  predicate NoDuplicates(ports: seq<int>) {
    forall i, j | 0 <= i < j < |ports| :: ports[i] != ports[j]
  }

  function IntsOf(ports: seq<int>): (r: seq<Value>)
    ensures |r| == |ports| && forall k | 0 <= k < |r| :: r[k] == Int(ports[k])
  {
    seq(|ports|, k requires 0 <= k < |ports| => Int(ports[k]))
  }

  function CoercePorts(spec: Spec, items: seq<Value>): Outcome<Value> {
    if items == [] then ValueError
    else
      match Ports(spec, items)
      case OverflowError => OverflowError
      case ValueError => ValueError
      case Good(ports) => if NoDuplicates(ports) then Good(List(IntsOf(ports))) else ValueError
  }

  /** `float(value)` for a scalar. */
  function ToNumber(v: Value): Outcome<Number> {
    match v
    case Int(i) => if -FLOAT_LIMIT < i < FLOAT_LIMIT then Good(Finite(i as real)) else OverflowError
    case Float(x) => Good(x)
    case Str(Some(x), _, _) => Good(x)
    case _ => ValueError
  }

  function CoerceNumber(spec: Spec, x: Number): Outcome<Value> {
    if !x.Finite? then ValueError
    else if spec.kind == IntKind && x.value != x.value.Floor as real then ValueError
    else if !InRange(spec, x.value) then ValueError
    else if spec.kind == IntKind then Good(Int(x.value.Floor))
    else Good(Float(x))
  }

  function Coerce(spec: Spec, v: Value): Outcome<Value> {
    if spec.kind == IntListKind then
      match v
      case Str(_, _, parts) => CoercePorts(spec, parts)
      case List(items) => CoercePorts(spec, items)
      case _ => ValueError
    else
      match ToNumber(v)
      case OverflowError => OverflowError
      case ValueError => ValueError
      case Good(x) => CoerceNumber(spec, x)
  }

  // ---------- Coercion is idempotent ----------

  lemma {:induction false} PortsAreStable(spec: Spec, items: seq<Value>)
    requires Ports(spec, items).Good?
    ensures Ports(spec, IntsOf(Ports(spec, items).value)) == Ports(spec, items)
    ensures |Ports(spec, items).value| == |items|
    decreases |items|
  {
    if items != [] {
      PortsAreStable(spec, items[1..]);
      var ports := Ports(spec, items).value;
      assert ports[1..] == Ports(spec, items[1..]).value;
      assert IntsOf(ports)[1..] == IntsOf(ports[1..]);
    }
  }

  /** A value that passed validation passes it again unchanged. */
  lemma {:induction false} CoerceIdempotent(spec: Spec, v: Value)
    requires Coerce(spec, v).Good?
    ensures Coerce(spec, Coerce(spec, v).value) == Coerce(spec, v)
  {
    if spec.kind == IntListKind {
      PortsAreStable(spec, if v.Str? then v.parts else v.items);
    }
  }

  /** A port list is accepted exactly when it is not empty, every item converts to a port in
      range, and no port occurs twice; the result is those ports in order. */
  lemma {:induction false} PortsAccepted(spec: Spec, items: seq<Value>)
    ensures Ports(spec, items).Good? <==>
      forall k | 0 <= k < |items| :: ToInt(items[k]).Good? && InRange(spec, ToInt(items[k]).value as real)
    ensures Ports(spec, items).Good? ==>
      |Ports(spec, items).value| == |items|
      && forall k | 0 <= k < |items| :: Ports(spec, items).value[k] == ToInt(items[k]).value
    decreases |items|
  {
    if items != [] {
      var rest := items[1..];
      PortsAccepted(spec, rest);
      if Ports(spec, items).Good? {
        forall k | 0 <= k < |items| ensures ToInt(items[k]).Good? && InRange(spec, ToInt(items[k]).value as real)
                                          && Ports(spec, items).value[k] == ToInt(items[k]).value {
          if k > 0 {
            assert items[k] == rest[k - 1];
          }
        }
      }
      if forall k | 0 <= k < |items| :: ToInt(items[k]).Good? && InRange(spec, ToInt(items[k]).value as real) {
        forall k | 0 <= k < |rest| ensures ToInt(rest[k]).Good? && InRange(spec, ToInt(rest[k]).value as real) {
          assert rest[k] == items[k + 1];
        }
      }
    }
  }

  // ---------- When coercion raises the exception nobody traps ----------

  /** The item at `k` is infinite and everything before it was accepted. */
  predicate InfiniteAt(spec: Spec, items: seq<Value>, k: nat) {
    k < |items| && items[k] == Float(Infinite)
    && forall j | 0 <= j < k :: ToInt(items[j]).Good? && InRange(spec, ToInt(items[j]).value as real)
  }

  lemma {:induction false} PortsOverflow(spec: Spec, items: seq<Value>)
    ensures Ports(spec, items) == OverflowError <==> exists k: nat :: InfiniteAt(spec, items, k)
    decreases |items|
  {
    if items != [] {
      PortsOverflow(spec, items[1..]);
      if Ports(spec, items) == OverflowError {
        if items[0] == Float(Infinite) {
          assert InfiniteAt(spec, items, 0);
        } else {
          var k: nat :| InfiniteAt(spec, items[1..], k);
          assert InfiniteAt(spec, items, k + 1);
        }
      }
      if exists k: nat :: InfiniteAt(spec, items, k) {
        var k: nat :| InfiniteAt(spec, items, k);
        if k > 0 {
          forall j | 0 <= j < k - 1
            ensures ToInt(items[1..][j]).Good? && InRange(spec, ToInt(items[1..][j]).value as real)
          {
            assert items[1..][j] == items[j + 1];
          }
          assert InfiniteAt(spec, items[1..], k - 1);
        }
      }
    }
  }

  /** Validation escapes with OverflowError exactly for an integer too large for a float, and
      for a port list with an infinite item behind acceptable ones. */
  lemma {:induction false} CoerceOverflow(spec: Spec, v: Value)
    ensures Coerce(spec, v) == OverflowError <==>
      if spec.kind == IntListKind
      then (v.Str? && exists k: nat :: InfiniteAt(spec, v.parts, k))
           || (v.List? && exists k: nat :: InfiniteAt(spec, v.items, k))
      else v.Int? && (v.i <= -FLOAT_LIMIT || v.i >= FLOAT_LIMIT)
  {
    if spec.kind == IntListKind && v.Str? {
      PortsOverflow(spec, v.parts);
    } else if spec.kind == IntListKind && v.List? {
      PortsOverflow(spec, v.items);
    }
  }

  // ---------- Names and composite keys ----------

  datatype Name = Name(rule: string, parameter: string)

  function Composite(n: Name): string {
    n.rule + "." + n.parameter
  }

  /** `key.partition(".")` without the separator. */
  function Partition(key: string): Name {
    if key == "" then Name("", "")
    else if key[0] == '.' then Name("", key[1..])
    else
      var rest := Partition(key[1..]);
      Name([key[0]] + rest.rule, rest.parameter)
  }

  lemma {:induction false} PartitionComposite(n: Name)
    requires '.' !in n.rule
    ensures Partition(Composite(n)) == n
    decreases |n.rule|
  {
    if n.rule == "" {
      assert Composite(n)[1..] == n.parameter;
    } else {
      var tail := Name(n.rule[1..], n.parameter);
      PartitionComposite(tail);
      assert Composite(n)[1..] == Composite(tail);
      assert n.rule == [n.rule[0]] + n.rule[1..];
    }
  }

  /** A key that names a parameter is the composite of what it partitions into. */
  lemma {:induction false} PartitionIsComposite(key: string)
    requires Partition(key).parameter != ""
    ensures Composite(Partition(key)) == key
  {
    if key[0] == '.' {
      assert Composite(Partition(key)) == "." + key[1..];
    } else {
      PartitionIsComposite(key[1..]);
      assert key == [key[0]] + key[1..];
    }
  }

  // ---------- The live table ----------

  type Table = map<Name, Value>

  /** The specs of all parameters and the baseline taken from the environment. */
  datatype Config = Config(spec: Name -> Option<Spec>, baseline: Table)

  /** A baseline value of the kind its parameter wants (the environment readers guarantee
      this), not necessarily inside the allowed range. */
  predicate Typed(spec: Spec, v: Value) {
    match spec.kind
    case IntKind => v.Int?
    case FloatKind => v.Float? && v.x.Finite?
    case IntListKind => v.List? && forall k | 0 <= k < |v.items| :: v.items[k].Int?
  }

  ghost predicate WellFormed(c: Config) {
    && (forall n | c.spec(n).Some? :: '.' !in n.rule && n.rule != "" && n.parameter != "")
    && (forall n :: n in c.baseline <==> c.spec(n).Some?)
    && (forall n | n in c.baseline :: Typed(c.spec(n).value, c.baseline[n]))
  }

  /** Python equality of threshold values: numbers compare across int and float. */
  predicate PyEqual(v: Value, w: Value) {
    match (v, w)
    case (Int(i), Float(Finite(r))) => i as real == r
    case (Float(Finite(r)), Int(i)) => i as real == r
    case _ => v == w
  }

  /** `engine.config.set_threshold`: the new table, or the exception. */
  function SetLive(c: Config, live: Table, n: Name, v: Value): Outcome<Table> {
    match c.spec(n)
    case None => ValueError
    case Some(spec) =>
      match Coerce(spec, v)
      case ValueError => ValueError
      case OverflowError => OverflowError
      case Good(w) => Good(live[n := w])
  }

  /** Composite keys take the names of the table apart again. */
  predicate Separable(live: Table) {
    forall n | n in live :: Partition(Composite(n)) == n
  }

  /** `threshold_overrides`: what differs from the baseline, by composite key. */
  function Overrides(c: Config, live: Table): map<string, Value>
    requires live.Keys == c.baseline.Keys
    requires Separable(live)
  {
    map key | key in (set n | n in live && !PyEqual(live[n], c.baseline[n]) :: Composite(n)) :: live[Partition(key)]
  }

  // ---------- Loading overrides back ----------

  /** The entry `key` of the overrides makes `set_threshold` raise what nobody traps. */
  predicate Escapes(c: Config, overrides: map<string, Value>, key: string) {
    var n := Partition(key);
    key in overrides && n.rule != "" && n.parameter != ""
    && c.spec(n).Some? && Coerce(c.spec(n).value, overrides[key]) == OverflowError
  }

  /** One entry: malformed, unknown and invalid ones are skipped. */
  function ApplyOne(c: Config, live: Table, key: string, v: Value): Outcome<Table> {
    var n := Partition(key);
    if n.rule == "" || n.parameter == "" then Good(live)
    else
      match SetLive(c, live, n, v)
      case ValueError => Good(live)
      case r => r
  }

  /** What a table becomes when none of the overrides escapes. */
  function Applied(c: Config, live: Table, overrides: map<string, Value>): Table {
    map n | n in live ::
      if c.spec(n).Some? && Composite(n) in overrides && Coerce(c.spec(n).value, overrides[Composite(n)]).Good?
      then Coerce(c.spec(n).value, overrides[Composite(n)]).value
      else live[n]
  }

  /** Applying the overrides does not raise. */
  ghost predicate NoneEscapes(c: Config, overrides: map<string, Value>) {
    forall key :: !Escapes(c, overrides, key)
  }

  /** Some of the overrides have been applied, none of which escapes. */
  predicate PartlyApplied(c: Config, start: Table, overrides: map<string, Value>, done: set<string>, live: Table) {
    && done <= overrides.Keys
    && (forall key | key in done :: !Escapes(c, overrides, key))
    && live == Applied(c, start, Restrict(overrides, done))
  }

  /** `apply_threshold_overrides`, over the entries in any order; false when it raises, which
      leaves the table as the entries before made it. */
  method ApplyOverrides(c: Config, start: Table, overrides: map<string, Value>) returns (live: Table, applied: bool,
                        ghost done: set<string>)
    requires WellFormed(c) && start.Keys == c.baseline.Keys
    ensures applied ==> live == Applied(c, start, overrides)
    ensures applied <==> NoneEscapes(c, overrides)
    ensures PartlyApplied(c, start, overrides, done, live)
  {
    live := start;
    var left := overrides.Keys;
    done := {};
    EmptyOverrides(c, start);
    while left != {}
      invariant left <= overrides.Keys && done == overrides.Keys - left
      invariant PartlyApplied(c, start, overrides, done, live)
      decreases left
    {
      var key :| key in left;
      ApplyStep(c, start, overrides, done, key);
      var r := ApplyOne(c, live, key, overrides[key]);
      if !r.Good? {
        assert Escapes(c, overrides, key);
        return live, false, done;
      }
      live := r.value;
      left := left - {key};
      done := done + {key};
    }
    assert Restrict(overrides, done) == overrides;
    return live, true, done;
  }

  function Restrict(m: map<string, Value>, keys: set<string>): map<string, Value> {
    map k | k in m && k in keys :: m[k]
  }

  lemma {:induction false} EmptyOverrides(c: Config, live: Table)
    ensures Applied(c, live, Restrict(map[], {})) == live
    ensures forall o :: Applied(c, live, Restrict(o, {})) == live
  {
  }

  lemma {:induction false} ApplyStep(c: Config, start: Table, overrides: map<string, Value>, done: set<string>,
                                     key: string)
    requires WellFormed(c) && start.Keys == c.baseline.Keys && key in overrides && key !in done
    ensures var table := Applied(c, start, Restrict(overrides, done));
      var r := ApplyOne(c, table, key, overrides[key]);
      && (r.Good? <==> !Escapes(c, overrides, key))
      && (!r.Good? ==> r == OverflowError)
      && (r.Good? ==> r.value == Applied(c, start, Restrict(overrides, done + {key})))
  {
    var n := Partition(key);
    if n.parameter != "" {
      PartitionIsComposite(key);
    }
    forall m | m in start ensures Composite(m) == key ==> m == n {
      PartitionComposite(m);
    }
    AppliedElsewhere(c, start, overrides, done, key, n);
  }

  /** One more override changes no other entry of the table. */
  lemma {:induction false} AppliedElsewhere(c: Config, start: Table, overrides: map<string, Value>, done: set<string>,
                                            key: string, n: Name)
    requires key in overrides && key !in done
    requires forall m | m in start && Composite(m) == key :: m == n
    ensures var table, table' := Applied(c, start, Restrict(overrides, done)),
                                 Applied(c, start, Restrict(overrides, done + {key}));
      && (forall m | m in start && m != n :: table[m] == table'[m])
      && (n in start && Composite(n) == key ==> table[n] == start[n])
      && (n !in start || Composite(n) != key ==> table == table')
  {
    var table, table' := Applied(c, start, Restrict(overrides, done)),
                         Applied(c, start, Restrict(overrides, done + {key}));
    forall m | m in start && (m != n || Composite(n) != key) ensures table[m] == table'[m] {
      assert Composite(m) != key;
    }
  }
}
