/**
  Data model and reference semantics of the failover endpoint selector.

  A run reads the "failover" section of the config: an ordered map from a
  variable name to its settings. For every valid variable and every processed
  address family it emits exactly one output line. That line names the first
  reachable candidate, falls back to the first configured value, or is empty
  when the family has no candidates. Reachability is an oracle supplied by the
  caller.
*/
module FailoverModel {
  import opened Wrappers

  /** The address families the selector can process ('ip4' and 'ip6'). */
  datatype Proto = Ip4 | Ip6

  /** The config key under which a family's candidates are listed. */
  function Key(p: Proto): string
  {
    match p
    case Ip4 => "ip4"
    case Ip6 => "ip6"
  }

  /** The IP version written into a family's output line. */
  function Version(p: Proto): (v: int)
    ensures v == 4 <==> p == Ip4
    ensures v == 6 <==> p == Ip6
  {
    match p
    case Ip4 => 4
    case Ip6 => 6
  }

  predicate Distinct<T(==)>(s: seq<T>)
  {
    forall i, j :: 0 <= i < j < |s| ==> s[i] != s[j]
  }

  /** The processed families: 'ip4', then 'ip6' when IPv6 processing is on. */
  function ProcessProtos(processIPv6: bool): (r: seq<Proto>)
    ensures |r| > 0 && r[0] == Ip4
    ensures Ip6 in r <==> processIPv6
    ensures Distinct(r)
  {
    if processIPv6 then [Ip4, Ip6] else [Ip4]
  }

  /**
    A port as the config gives it: a number or a string. The model probes both
    alike; the program's socket call accepts only an integer port.
  */
  datatype Port = IntPort(n: int) | StrPort(s: string)

  /** A config entry that is either a bare string or a list of strings. */
  datatype Entry = Scalar(host: string) | List(items: seq<string>)

  /** The length the selector checks for emptiness: a bare string counts its characters. */
  function Len(e: Entry): nat
  {
    match e
    case Scalar(s) => |s|
    case List(xs) => |xs|
  }

  /** A bare string becomes a one-element list; a list stays as it is. */
  function EnsureList(e: Entry): (r: seq<string>)
    ensures Len(e) > 0 ==> |r| > 0
  {
    match e
    case Scalar(s) => [s]
    case List(xs) => xs
  }

  /** One variable's settings; every key may be missing. */
  datatype VarConfig = VarConfig(ip4: Option<Entry>, ip6: Option<Entry>, port: Option<Port>, values: Option<Entry>)
  {
    /** The entry under a family's key. */
    function Get(p: Proto): Option<Entry>
    {
      if p == Ip4 then ip4 else ip6
    }

    /** The same settings with a family's entry replaced. */
    function Put(p: Proto, e: Entry): (r: VarConfig)
      ensures r.Get(p) == Some(e)
      ensures forall q :: q != p ==> r.Get(q) == Get(q)
      ensures r.port == port && r.values == values
    {
      if p == Ip4 then this.(ip4 := Some(e)) else this.(ip6 := Some(e))
    }

    /** A variable is processed only with a port and at least one family key. */
    predicate IsValid()
    {
      (ip4.Some? || ip6.Some?) && port.Some?
    }
  }

  /** The loaded config, in its iteration order. */
  type Config = seq<(string, VarConfig)>

  /** Variable names are the keys of a map, so no name occurs twice. */
  predicate UniqueNames(cfg: Config)
  {
    forall i, j :: 0 <= i < j < |cfg| ==> cfg[i].0 != cfg[j].0
  }

  /** The valid variables, in config order. */
  function OnlyValid(cfg: Config): (r: Config)
    ensures |r| <= |cfg|
    decreases |cfg|
  {
    if cfg == [] then []
    else
      var last := cfg[|cfg| - 1];
      OnlyValid(cfg[..|cfg| - 1]) + (if last.1.IsValid() then [last] else [])
  }

  /** Whether a family has at least one candidate (key present and non-empty). */
  predicate HasCandidates(data: VarConfig, p: Proto)
  {
    data.Get(p).Some? && Len(data.Get(p).value) > 0
  }

  /** The hosts probed for a family: its entry as a list. */
  function Candidates(data: VarConfig, p: Proto): seq<string>
    requires data.Get(p).Some?
  {
    EnsureList(data.Get(p).value)
  }

  /** The values written out: the 'values' key when present, else the candidates themselves. */
  function ValuesFor(data: VarConfig, p: Proto): seq<string>
    requires data.Get(p).Some?
  {
    if data.values.Some? then EnsureList(data.values.value) else Candidates(data, p)
  }

  /**
    The record handed to the line formatter: the variable, its selected value
    (none or one), the IP version and an optional fallback value.
  */
  datatype Line = Line(name: string, data: seq<string>, version: int, fallback: Option<string>)

  /** One call of the reachability probe. */
  datatype ProbeCall = ProbeCall(host: string, port: Port, proto: Proto)

  /** The reachability probe: TCP connect to (host, port) over the family succeeded in time. */
  type Oracle = (string, Port, Proto) -> bool

  /** The calls that probe `hosts`, in order. */
  function Calls(hosts: seq<string>, port: Port, proto: Proto): seq<ProbeCall>
  {
    seq(|hosts|, j requires 0 <= j < |hosts| => ProbeCall(hosts[j], port, proto))
  }

  /** The lowest index whose host is reachable, if any. */
  function FirstReachable(hosts: seq<string>, port: Port, proto: Proto, reachable: Oracle): (r: Option<nat>)
    ensures r.Some? ==> r.value < |hosts| && reachable(hosts[r.value], port, proto)
    ensures r.Some? ==> forall j :: 0 <= j < r.value ==> !reachable(hosts[j], port, proto)
    ensures r.None? <==> forall j :: 0 <= j < |hosts| ==> !reachable(hosts[j], port, proto)
  {
    if hosts == [] then None
    else if reachable(hosts[0], port, proto) then Some(0)
    else
      match FirstReachable(hosts[1..], port, proto, reachable)
      case None => None
      case Some(i) => Some(i + 1)
  }

  /** How a run ends: the lines handed to the writer, an index error, or a missing config. */
  datatype Outcome = Lines(lines: seq<Line>) | IndexError | ConfigMissing

  /** An outcome together with the probes issued on the way to it. */
  datatype Step = Step(out: Outcome, probes: seq<ProbeCall>)

  /** Nothing emitted, nothing probed. */
  const NoStep := Step(Lines([]), [])

  /** Run `a`, then `b` unless `a` stopped the run. */
  function Then(a: Step, b: Step): Step
  {
    if !a.out.Lines? then a
    else if !b.out.Lines? then Step(b.out, a.probes + b.probes)
    else Step(Lines(a.out.lines + b.out.lines), a.probes + b.probes)
  }

  /** One (variable, family) unit: empty line, first reachable value, or fallback. */
  function FamilyStep(name: string, data: VarConfig, proto: Proto, reachable: Oracle): Step
    requires data.port.Some?
  {
    var version := Version(proto);
    if !HasCandidates(data, proto) then
      Step(Lines([Line(name, [], version, None)]), [])
    else
      var hosts := Candidates(data, proto);
      var values := ValuesFor(data, proto);
      var port := data.port.value;
      match FirstReachable(hosts, port, proto, reachable)
      case Some(i) =>
        Step(if i < |values| then Lines([Line(name, [values[i]], version, None)]) else IndexError,
             Calls(hosts[..i + 1], port, proto))
      case None =>
        Step(if |values| > 0 then Lines([Line(name, [], version, Some(values[0]))]) else IndexError,
             Calls(hosts, port, proto))
  }

  /** A valid variable's units for the families in `protos`, in that order. */
  function FamiliesStep(name: string, data: VarConfig, protos: seq<Proto>, reachable: Oracle): Step
    requires data.port.Some?
    decreases |protos|
  {
    if protos == [] then NoStep
    else
      Then(FamiliesStep(name, data, protos[..|protos| - 1], reachable),
           FamilyStep(name, data, protos[|protos| - 1], reachable))
  }

  /** One variable: skipped when invalid, else its families' units. */
  function VarStep(name: string, data: VarConfig, protos: seq<Proto>, reachable: Oracle): Step
  {
    if data.IsValid() then FamiliesStep(name, data, protos, reachable) else NoStep
  }

  /** All variables in config order. */
  function Select(cfg: Config, protos: seq<Proto>, reachable: Oracle): Step
    decreases |cfg|
  {
    if cfg == [] then NoStep
    else
      var last := cfg[|cfg| - 1];
      Then(Select(cfg[..|cfg| - 1], protos, reachable), VarStep(last.0, last.1, protos, reachable))
  }

  /** A whole run: abort on a missing or empty config, else select. */
  function Run(loaded: Option<Config>, processIPv6: bool, reachable: Oracle): Step
  {
    if loaded.None? || |loaded.value| == 0 then Step(ConfigMissing, [])
    else Select(loaded.value, ProcessProtos(processIPv6), reachable)
  }

  /** The name under which a found (variable, family) is remembered: "<var>_<key>". */
  function Tag(name: string, p: Proto): string
  {
    name + "_" + Key(p)
  }
}
