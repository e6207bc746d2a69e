/**
  The selector's top-level loop as the program runs it: lines and the list of
  found tags grow step by step, a bare candidate string is normalised in
  place, probing stops at the first reachable host, and a family whose tag was
  not recorded gets a fallback line.
*/
module Failover {
  import opened Wrappers
  import opened FailoverModel
  import opened FailoverProperties

  /** The names of the variables in `cfg`, in order. */
  function Names(cfg: Config): seq<string>
  {
    seq(|cfg|, i requires 0 <= i < |cfg| => cfg[i].0)
  }

  /** The tag suffixes of the families in `protos`. */
  function Suffixes(protos: seq<Proto>): seq<string>
  {
    seq(|protos|, i requires 0 <= i < |protos| => "_" + Key(protos[i]))
  }

  /**
    A recorded tag belongs to an earlier variable, or to the current variable
    `name` and a family already processed.
  */
  ghost predicate Recorded(t: string, earlier: seq<string>, name: string, done: seq<Proto>)
  {
    |t| >= 4 &&
    (t[..|t| - 4] in earlier || (t[..|t| - 4] == name && t[|t| - 4..] in Suffixes(done)))
  }

  lemma SuffixesDiffer(a: Proto, b: Proto)
    requires a != b
    ensures "_" + Key(a) != "_" + Key(b)
  {
    assert ("_" + Key(a))[3] != ("_" + Key(b))[3];
  }

  lemma TagNotRecorded(name: string, p: Proto, earlier: seq<string>, done: seq<Proto>, varsDefined: seq<string>)
    requires name !in earlier && p !in done
    requires forall t :: t in varsDefined ==> Recorded(t, earlier, name, done)
    ensures Tag(name, p) !in varsDefined
  {
    TagParts(name, p);
    var t := Tag(name, p);
    assert t[..|t| - 4] == name && t[|t| - 4..] == "_" + Key(p);
    forall i | 0 <= i < |done| ensures Suffixes(done)[i] != t[|t| - 4..] {
      SuffixesDiffer(done[i], p);
    }
    assert t[|t| - 4..] !in Suffixes(done);
  }

  /** Recording the current family's tag (or nothing) keeps every tag accounted for. */
  lemma RecordFamily(vs: seq<string>, vs': seq<string>, earlier: seq<string>, name: string, done: seq<Proto>, p: Proto)
    requires forall t :: t in vs ==> Recorded(t, earlier, name, done)
    requires vs' == vs || vs' == vs + [Tag(name, p)]
    ensures forall t :: t in vs' ==> Recorded(t, earlier, name, done + [p])
  {
    TagParts(name, p);
    assert Suffixes(done + [p]) == Suffixes(done) + ["_" + Key(p)];
  }

  /** Once the current variable is finished, its tags count among the earlier variables'. */
  lemma FinishVariable(vs: seq<string>, earlier: seq<string>, name: string, n: string, done: seq<Proto>)
    requires n == name || done == []
    requires forall t :: t in vs ==> Recorded(t, earlier, n, done)
    ensures forall t :: t in vs ==> Recorded(t, earlier + [name], "", [])
  {
  }

  lemma SelectNext(cfg: Config, k: nat, protos: seq<Proto>, reachable: Oracle)
    requires k < |cfg|
    ensures Select(cfg[..k + 1], protos, reachable)
            == Then(Select(cfg[..k], protos, reachable), VarStep(cfg[k].0, cfg[k].1, protos, reachable))
  {
    assert cfg[..k + 1][..k] == cfg[..k];
  }

  lemma FamiliesNext(name: string, data: VarConfig, protos: seq<Proto>, p: nat, reachable: Oracle)
    requires data.port.Some? && p < |protos|
    ensures FamiliesStep(name, data, protos[..p + 1], reachable)
            == Then(FamiliesStep(name, data, protos[..p], reachable), FamilyStep(name, data, protos[p], reachable))
  {
    assert protos[..p + 1][..p] == protos[..p];
  }

  /**
    Runs the selector over a loaded config. A missing or empty config stops
    the run before any probe; otherwise the lines, and the probes issued on the
    way, are exactly those of the reference selector.
  */
  method RunFailover(loaded: Option<Config>, processIPv6: bool, reachable: Oracle)
    returns (outcome: Outcome, ghost probes: seq<ProbeCall>)
    requires loaded.Some? ==> UniqueNames(loaded.value)
    ensures outcome == Run(loaded, processIPv6, reachable).out
    ensures Step(outcome, probes) == Run(loaded, processIPv6, reachable)
  {
    probes := [];
    if loaded.None? || |loaded.value| == 0 {
      return ConfigMissing, probes;
    }
    var config := loaded.value;
    var protos := ProcessProtos(processIPv6);
    var lines: seq<Line> := [];
    var varsDefined: seq<string> := [];

    var k := 0;
    while k < |config|
      invariant 0 <= k <= |config|
      invariant Select(config[..k], protos, reachable) == Step(Lines(lines), probes)
      invariant forall t :: t in varsDefined ==> Recorded(t, Names(config[..k]), "", [])
    {
      var name, data := config[k].0, config[k].1;
      SelectNext(config, k, protos, reachable);
      assert Names(config[..k + 1]) == Names(config[..k]) + [name];
      if (data.ip4.None? && data.ip6.None?) || data.port.None? {
        ThenNoStep(Select(config[..k], protos, reachable));
        FinishVariable(varsDefined, Names(config[..k]), name, "", []);
        k := k + 1;
        continue;
      }
      var crashed;
      lines, varsDefined, crashed, probes :=
        ProcessVariable(name, data, protos, reachable, lines, varsDefined, probes, Names(config[..k]));
      assert Names(config[..k + 1]) == Names(config[..k]) + [name];
      if crashed {
        SelectFailurePersists(config, k + 1, protos, reachable);
        return IndexError, probes;
      }
      k := k + 1;
    }
    assert config[..|config|] == config;
    outcome := Lines(lines);
  }

  /**
    One valid variable: each processed family in order emits its empty line or
    runs SelectFamily. `earlier` are the names of the variables before it.
  */
  method ProcessVariable(name: string, data: VarConfig, protos: seq<Proto>, reachable: Oracle,
                         lines: seq<Line>, varsDefined: seq<string>, ghost probes: seq<ProbeCall>,
                         ghost earlier: seq<string>)
    returns (lines': seq<Line>, varsDefined': seq<string>, crashed: bool, ghost probes': seq<ProbeCall>)
    requires data.IsValid() && Distinct(protos) && name !in earlier
    requires forall t :: t in varsDefined ==> Recorded(t, earlier, "", [])
    ensures Then(Step(Lines(lines), probes), FamiliesStep(name, data, protos, reachable))
            == Step(if crashed then IndexError else Lines(lines'), probes')
    ensures !crashed ==> forall t :: t in varsDefined' ==> Recorded(t, earlier + [name], "", [])
  {
    lines', varsDefined', crashed, probes' := lines, varsDefined, false, probes;
    var normalised := data;
    var p := 0;
    while p < |protos|
      invariant 0 <= p <= |protos|
      invariant normalised.port == data.port && normalised.values == data.values
      invariant forall j :: p <= j < |protos| ==> normalised.Get(protos[j]) == data.Get(protos[j])
      invariant Then(Step(Lines(lines), probes), FamiliesStep(name, data, protos[..p], reachable))
                == Step(Lines(lines'), probes')
      invariant forall t :: t in varsDefined' ==> Recorded(t, earlier, name, protos[..p])
    {
      var proto := protos[p];
      var version := Version(proto);
      FamiliesNext(name, data, protos, p, reachable);
      ThenAssoc(Step(Lines(lines), probes), FamiliesStep(name, data, protos[..p], reachable),
                FamilyStep(name, data, proto, reachable));
      assert proto !in protos[..p];
      TagNotRecorded(name, proto, earlier, protos[..p], varsDefined');
      assert protos[..p + 1] == protos[..p] + [proto];
      ghost var varsBefore := varsDefined';

      if normalised.Get(proto).None? || Len(normalised.Get(proto).value) == 0 {
        lines' := lines' + [Line(name, [], version, None)];
        assert probes' + [] == probes';
        RecordFamily(varsBefore, varsDefined', earlier, name, protos[..p], proto);
        p := p + 1;
        continue;
      }

      FamilyStepFrame(name, normalised, data, proto, reachable);
      normalised, lines', varsDefined', crashed, probes' :=
        SelectFamily(name, normalised, proto, reachable, lines', varsDefined', probes');
      if crashed {
        FamiliesFailurePersists(name, data, protos, p + 1, reachable);
        return;
      }
      RecordFamily(varsBefore, varsDefined', earlier, name, protos[..p], proto);
      p := p + 1;
    }
    assert protos[..|protos|] == protos;
    FinishVariable(varsDefined', earlier, name, name, protos);
  }

  /**
    One family that has candidates: the candidates are normalised to a list in
    place, probed in order until one is reachable, and its value is emitted and
    its tag recorded; when no tag was recorded, the fallback line is emitted.
    `crashed` reports the index error of a value list that is too short.
  */
  method SelectFamily(name: string, data: VarConfig, proto: Proto, reachable: Oracle,
                      lines: seq<Line>, varsDefined: seq<string>, ghost probes: seq<ProbeCall>)
    returns (data': VarConfig, lines': seq<Line>, varsDefined': seq<string>, crashed: bool,
             ghost probes': seq<ProbeCall>)
    requires data.port.Some? && HasCandidates(data, proto)
    requires Tag(name, proto) !in varsDefined
    ensures Then(Step(Lines(lines), probes), FamilyStep(name, data, proto, reachable))
            == Step(if crashed then IndexError else Lines(lines'), probes')
    ensures varsDefined' == varsDefined || varsDefined' == varsDefined + [Tag(name, proto)]
    ensures data' == data.Put(proto, List(Candidates(data, proto)))
  {
    data', lines', varsDefined', crashed, probes' := data, lines, varsDefined, false, probes;
    var version := Version(proto);
    var entry := data'.Get(proto).value;
    var values := EnsureList(entry);
    if data'.values.Some? {
      values := EnsureList(data'.values.value);
    }
    if !entry.List? {
      data' := data'.Put(proto, List([entry.host]));
    } else {
      PutOwnEntry(data', proto);
    }
    var hosts := data'.Get(proto).value.items;
    var port := data'.port.value;
    assert hosts == Candidates(data, proto) && values == ValuesFor(data, proto);
    assert data' == data.Put(proto, List(hosts));
    var protoVar := Tag(name, proto);

    lines', varsDefined', crashed, probes' :=
      ProbeInOrder(name, hosts, values, port, proto, version, protoVar, reachable, lines', varsDefined', probes');
    FamilyAfter(name, data, proto, reachable, lines, probes);
    if crashed {
      return;
    }

    if protoVar !in varsDefined' {
      if |values| == 0 {
        crashed := true;
        return;
      }
      lines' := lines' + [Line(name, [], version, Some(values[0]))];
    }
  }

  /**
    Probes `hosts` in order and stops at the first reachable one: its value is
    appended to `lines` and `protoVar` is recorded. Indexing past the end of
    `values` is reported as `crashed`. When no host is reachable nothing is
    appended.
  */
  method ProbeInOrder(name: string, hosts: seq<string>, values: seq<string>, port: Port, proto: Proto,
                      version: int, protoVar: string, reachable: Oracle,
                      lines: seq<Line>, varsDefined: seq<string>, ghost probes: seq<ProbeCall>)
    returns (lines': seq<Line>, varsDefined': seq<string>, crashed: bool, ghost probes': seq<ProbeCall>)
    ensures var found := FirstReachable(hosts, port, proto, reachable);
            crashed == (found.Some? && found.value >= |values|)
    ensures var found := FirstReachable(hosts, port, proto, reachable);
            lines' == if found.Some? && !crashed then lines + [Line(name, [values[found.value]], version, None)] else lines
    ensures var found := FirstReachable(hosts, port, proto, reachable);
            varsDefined' == if found.Some? && !crashed then varsDefined + [protoVar] else varsDefined
    ensures var found := FirstReachable(hosts, port, proto, reachable);
            probes' == probes + if found.Some? then Calls(hosts[..found.value + 1], port, proto) else Calls(hosts, port, proto)
  {
    lines', varsDefined', crashed, probes' := lines, varsDefined, false, probes;
    var idx := 0;
    while idx < |hosts|
      invariant 0 <= idx <= |hosts|
      invariant forall j :: 0 <= j < idx ==> !reachable(hosts[j], port, proto)
      invariant probes' == probes + Calls(hosts[..idx], port, proto)
      invariant lines' == lines && varsDefined' == varsDefined
    {
      CallsNext(hosts, idx, port, proto);
      probes' := probes' + [ProbeCall(hosts[idx], port, proto)];
      if reachable(hosts[idx], port, proto) {
        FirstReachableUnique(hosts, port, proto, reachable, idx);
        if idx >= |values| {
          crashed := true;
          return;
        }
        lines' := lines' + [Line(name, [values[idx]], version, None)];
        varsDefined' := varsDefined' + [protoVar];
        break;
      }
      idx := idx + 1;
    }
    assert hosts[..|hosts|] == hosts;
  }

  /** The state after one family with candidates, by the first reachable index. */
  lemma FamilyAfter(name: string, data: VarConfig, proto: Proto, reachable: Oracle,
                    lines: seq<Line>, probes: seq<ProbeCall>)
    requires data.port.Some? && HasCandidates(data, proto)
    ensures var hosts, values, port := Candidates(data, proto), ValuesFor(data, proto), data.port.value;
            Then(Step(Lines(lines), probes), FamilyStep(name, data, proto, reachable))
            == match FirstReachable(hosts, port, proto, reachable)
               case Some(i) =>
                 Step(if i < |values| then Lines(lines + [Line(name, [values[i]], Version(proto), None)]) else IndexError,
                      probes + Calls(hosts[..i + 1], port, proto))
               case None =>
                 Step(if |values| > 0 then Lines(lines + [Line(name, [], Version(proto), Some(values[0]))]) else IndexError,
                      probes + Calls(hosts, port, proto))
  {
  }

  lemma PutOwnEntry(data: VarConfig, proto: Proto)
    requires data.Get(proto).Some?
    ensures data.Put(proto, data.Get(proto).value) == data
  {
  }

  lemma CallsNext(hosts: seq<string>, idx: nat, port: Port, proto: Proto)
    requires idx < |hosts|
    ensures Calls(hosts[..idx + 1], port, proto) == Calls(hosts[..idx], port, proto) + [ProbeCall(hosts[idx], port, proto)]
  {
  }

  /** A unit reads only its family's entry, the port and the values. */
  lemma FamilyStepFrame(name: string, d1: VarConfig, d2: VarConfig, proto: Proto, reachable: Oracle)
    requires d1.port.Some? && d1.port == d2.port && d1.values == d2.values && d1.Get(proto) == d2.Get(proto)
    ensures FamilyStep(name, d1, proto, reachable) == FamilyStep(name, d2, proto, reachable)
  {
  }

  /** Once a prefix of the families stops the unit, the rest of the families changes nothing. */
  lemma {:induction false} FamiliesFailurePersists(name: string, data: VarConfig, protos: seq<Proto>, n: nat, reachable: Oracle)
    requires data.port.Some? && n <= |protos|
    requires !FamiliesStep(name, data, protos[..n], reachable).out.Lines?
    ensures FamiliesStep(name, data, protos, reachable) == FamiliesStep(name, data, protos[..n], reachable)
    decreases |protos|
  {
    if n < |protos| {
      var init := protos[..|protos| - 1];
      assert init[..n] == protos[..n];
      FamiliesFailurePersists(name, data, init, n, reachable);
    } else {
      assert protos[..n] == protos;
    }
  }

  /** Once a prefix of the config stops the run, the remaining variables change nothing. */
  lemma {:induction false} SelectFailurePersists(cfg: Config, n: nat, protos: seq<Proto>, reachable: Oracle)
    requires n <= |cfg|
    requires !Select(cfg[..n], protos, reachable).out.Lines?
    ensures Select(cfg, protos, reachable) == Select(cfg[..n], protos, reachable)
    decreases |cfg|
  {
    if n < |cfg| {
      var init := cfg[..|cfg| - 1];
      assert init[..n] == cfg[..n];
      SelectFailurePersists(init, n, protos, reachable);
    } else {
      assert cfg[..n] == cfg;
    }
  }
}
