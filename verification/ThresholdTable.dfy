/** The parameters ThreatLens ships: their kinds, ranges and default baseline. */
module ThresholdTable {
  import opened Wrappers
  import opened Thresholds

  datatype Parameter = Parameter(spec: Spec, default: Value)

  function IntParameter(low: real, high: real, default: int): Parameter {
    Parameter(Spec(IntKind, Some(low), Some(high)), Int(default))
  }

  function FloatParameter(low: real, high: real, default: double): Parameter {
    Parameter(Spec(FloatKind, Some(low), Some(high)), Float(Finite(default)))
  }

  function Ddos(parameter: string): Option<Parameter> {
    match parameter
    case "baseline_pps_mean" => Some(FloatParameter(0.1, 1000000.0, 50.0))
    case "baseline_pps_std" => Some(FloatParameter(1.0, 1000000.0, 30.0))
    case "sigma_threshold" => Some(FloatParameter(0.5, 20.0, 3.0))
    case "syn_ratio_threshold" => Some(FloatParameter(0.0, 1.0, 0.85))
    case "min_surge_pps" => Some(FloatParameter(1.0, 10000000.0, 100.0))
    case "min_udp_pps" => Some(FloatParameter(1.0, 10000000.0, 200.0))
    case "syn_packet_burst" => Some(IntParameter(1.0, 10000000.0, 300))
    case _ => None
  }

  function Beaconing(parameter: string): Option<Parameter> {
    match parameter
    case "max_variance_threshold" => Some(FloatParameter(0.0, 100.0, 0.05))
    case "min_heartbeats" => Some(IntParameter(2.0, 1000.0, 3))
    case "min_period_seconds" => Some(FloatParameter(0.0, 86400.0, 1.0))
    case _ => None
  }

  function Dns(parameter: string): Option<Parameter> {
    match parameter
    case "entropy_threshold" => Some(FloatParameter(0.0, 8.0, 3.8))
    case "tunnel_length_threshold" => Some(IntParameter(1.0, 1000.0, 60))
    case "txt_tunnel_length" => Some(IntParameter(1.0, 1000.0, 45))
    case "txt_entropy_threshold" => Some(FloatParameter(0.0, 8.0, 3.6))
    case _ => None
  }

  function Exfiltration(parameter: string): Option<Parameter> {
    match parameter
    case "min_egress_bytes" => Some(IntParameter(0.0, 1000000000000.0, 1000000))
    case "min_ratio_threshold" => Some(FloatParameter(0.0, 100000.0, 20.0))
    case "massive_upload_bytes" => Some(IntParameter(0.0, 1000000000000.0, 5000000))
    case "massive_upload_ratio" => Some(FloatParameter(0.0, 100000.0, 10.0))
    case _ => None
  }

  function Reconnaissance(parameter: string): Option<Parameter> {
    match parameter
    case "min_target_cardinality" => Some(IntParameter(1.0, 10000.0, 3))
    case "max_probe_bytes" => Some(IntParameter(0.0, 1000000000.0, 100))
    case _ => None
  }

  function Correlation(parameter: string): Option<Parameter> {
    if parameter == "window_seconds" then Some(IntParameter(1.0, 86400.0, 300)) else None
  }

  function Malware(parameter: string): Option<Parameter> {
    if parameter == "tls_ports"
    then Some(Parameter(Spec(IntListKind, Some(1.0), Some(65535.0)), List([Int(443), Int(8443), Int(9001), Int(4443)])))
    else None
  }

  function Shipped(n: Name): Option<Parameter> {
    match n.rule
    case "ddos" => Ddos(n.parameter)
    case "beaconing" => Beaconing(n.parameter)
    case "dns" => Dns(n.parameter)
    case "exfiltration" => Exfiltration(n.parameter)
    case "reconnaissance" => Reconnaissance(n.parameter)
    case "correlation" => Correlation(n.parameter)
    case "malware" => Malware(n.parameter)
    case _ => None
  }

  function ShippedSpec(n: Name): Option<Spec> {
    match Shipped(n)
    case None => None
    case Some(p) => Some(p.spec)
  }

  /** Every shipped parameter has a non-empty name, and its rule has no dot, so that the
      composite keys of stored overrides can be taken apart again. */
  lemma {:induction false} ShippedNames(n: Name)
    requires Shipped(n).Some?
    ensures '.' !in n.rule && n.rule != "" && n.parameter != ""
  {
  }

  /** A scalar default of the right kind, inside its range. */
  predicate ScalarInRange(p: Parameter) {
    || (p.spec.kind == IntKind && p.default.Int? && 0 <= p.default.i <= 1000000000
        && InRange(p.spec, p.default.i as real))
    || (p.spec.kind == FloatKind && p.default.Float? && p.default.x.Finite? && InRange(p.spec, p.default.x.value))
  }

  lemma {:induction false} DdosInRange(parameter: string)
    ensures Ddos(parameter).Some? ==> ScalarInRange(Ddos(parameter).value)
  {
  }

  lemma {:induction false} DnsInRange(parameter: string)
    ensures Dns(parameter).Some? ==> ScalarInRange(Dns(parameter).value)
    ensures Beaconing(parameter).Some? ==> ScalarInRange(Beaconing(parameter).value)
  {
  }

  lemma {:induction false} ExfiltrationInRange(parameter: string)
    ensures Exfiltration(parameter).Some? ==> ScalarInRange(Exfiltration(parameter).value)
    ensures Reconnaissance(parameter).Some? ==> ScalarInRange(Reconnaissance(parameter).value)
    ensures Correlation(parameter).Some? ==> ScalarInRange(Correlation(parameter).value)
  {
  }

  lemma {:induction false} DefaultInRange(n: Name)
    requires Shipped(n).Some? && n.rule != "malware"
    ensures ScalarInRange(Shipped(n).value)
  {
    DdosInRange(n.parameter);
    DnsInRange(n.parameter);
    ExfiltrationInRange(n.parameter);
  }

  lemma {:induction false} PortsOfInts(spec: Spec, ports: seq<int>)
    requires forall k | 0 <= k < |ports| :: InRange(spec, ports[k] as real)
    ensures Ports(spec, IntsOf(ports)) == Good(ports)
    decreases |ports|
  {
    if ports != [] {
      PortsOfInts(spec, ports[1..]);
      assert IntsOf(ports)[1..] == IntsOf(ports[1..]);
      assert [ports[0]] + ports[1..] == ports;
    }
  }

  lemma {:induction false} DefaultPortsAreValid()
    ensures var p := Malware("tls_ports").value;
      Typed(p.spec, p.default) && Coerce(p.spec, p.default) == Good(p.default)
  {
    var p := Malware("tls_ports").value;
    var ports := [443, 8443, 9001, 4443];
    assert p.default.items == IntsOf(ports);
    PortsOfInts(p.spec, ports);
  }

  /** Every shipped default has the kind of its parameter and passes validation unchanged. */
  lemma {:induction false} ShippedDefaultsAreValid(n: Name)
    requires Shipped(n).Some?
    ensures var p := Shipped(n).value;
      Typed(p.spec, p.default) && Coerce(p.spec, p.default) == Good(p.default)
  {
    if n.rule == "malware" {
      DefaultPortsAreValid();
    } else {
      DefaultInRange(n);
      ScalarIsValid(Shipped(n).value);
    }
  }

  lemma {:induction false} ScalarIsValid(p: Parameter)
    requires ScalarInRange(p)
    ensures Typed(p.spec, p.default) && Coerce(p.spec, p.default) == Good(p.default)
  {
  }

  /** With a baseline for exactly the shipped parameters, each of its parameter's kind (which
      is what the environment readers produce), the shipped specs make a configuration to
      which the restart theorem applies. */
  lemma {:induction false} ShippedConfigIsWellFormed(baseline: Table)
    requires forall n :: n in baseline <==> Shipped(n).Some?
    requires forall n | n in baseline :: Typed(Shipped(n).value.spec, baseline[n])
    ensures WellFormed(Config(ShippedSpec, baseline))
  {
    forall n | ShippedSpec(n).Some? ensures '.' !in n.rule && n.rule != "" && n.parameter != "" {
      ShippedNames(n);
    }
  }
}
