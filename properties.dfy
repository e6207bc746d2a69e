/**
  Properties of the reference selector: what one (variable, family) unit
  emits and probes, how units compose into a run, and when a run can fail.
*/
module FailoverProperties {
  import opened Wrappers
  import opened FailoverModel

  // ---------------------------------------------------------------------
  // Composition of steps

  lemma ThenNoStep(a: Step)
    ensures Then(a, NoStep) == a
  {
  }

  lemma ThenAssoc(a: Step, b: Step, c: Step)
    ensures Then(Then(a, b), c) == Then(a, Then(b, c))
  {
    if a.out.Lines? && b.out.Lines? {
      assert a.probes + b.probes + c.probes == a.probes + (b.probes + c.probes);
      if c.out.Lines? {
        assert a.out.lines + b.out.lines + c.out.lines == a.out.lines + (b.out.lines + c.out.lines);
      }
    }
  }

  // ---------------------------------------------------------------------
  // The first reachable candidate

  /** The lowest reachable index is the one FirstReachable finds. */
  lemma FirstReachableUnique(hosts: seq<string>, port: Port, proto: Proto, reachable: Oracle, i: nat)
    requires i < |hosts| && reachable(hosts[i], port, proto)
    requires forall j :: 0 <= j < i ==> !reachable(hosts[j], port, proto)
    ensures FirstReachable(hosts, port, proto, reachable) == Some(i)
  {
  }

  // ---------------------------------------------------------------------
  // One (variable, family) unit

  /** A family without candidates gives one empty line, no fallback and no probe. */
  lemma NoCandidatesEmptyLine(name: string, data: VarConfig, proto: Proto, reachable: Oracle)
    requires data.port.Some? && !HasCandidates(data, proto)
    ensures FamilyStep(name, data, proto, reachable) == Step(Lines([Line(name, [], Version(proto), None)]), [])
  {
  }

  /**
    When index i holds the lowest reachable candidate, the unit probes exactly
    the candidates 0..i (the raw hosts, in order) and emits the value at i,
    or stops with an index error when the value list is too short.
  */
  lemma SelectsLowestReachable(name: string, data: VarConfig, proto: Proto, reachable: Oracle, i: nat)
    requires data.port.Some? && HasCandidates(data, proto)
    requires i < |Candidates(data, proto)|
    requires reachable(Candidates(data, proto)[i], data.port.value, proto)
    requires forall j :: 0 <= j < i ==> !reachable(Candidates(data, proto)[j], data.port.value, proto)
    ensures FamilyStep(name, data, proto, reachable).probes
            == Calls(Candidates(data, proto)[..i + 1], data.port.value, proto)
    ensures FamilyStep(name, data, proto, reachable).out
            == if i < |ValuesFor(data, proto)|
               then Lines([Line(name, [ValuesFor(data, proto)[i]], Version(proto), None)])
               else IndexError
  {
    FirstReachableUnique(Candidates(data, proto), data.port.value, proto, reachable, i);
  }

  /**
    When no candidate is reachable, every candidate is probed once, in order,
    and the line carries the first value as fallback, whichever was probed last.
  */
  lemma NoneReachableFallsBack(name: string, data: VarConfig, proto: Proto, reachable: Oracle)
    requires data.port.Some? && HasCandidates(data, proto)
    requires forall j :: 0 <= j < |Candidates(data, proto)| ==>
               !reachable(Candidates(data, proto)[j], data.port.value, proto)
    ensures FamilyStep(name, data, proto, reachable).probes
            == Calls(Candidates(data, proto), data.port.value, proto)
    ensures FamilyStep(name, data, proto, reachable).out
            == if |ValuesFor(data, proto)| > 0
               then Lines([Line(name, [], Version(proto), Some(ValuesFor(data, proto)[0]))])
               else IndexError
  {
  }

  /** A bare non-empty string is probed as the single candidate at index 0. */
  lemma ScalarCandidateIsSingleton(name: string, data: VarConfig, proto: Proto, reachable: Oracle)
    requires data.port.Some? && data.Get(proto).Some? && data.Get(proto).value.Scalar?
    requires |data.Get(proto).value.host| > 0
    ensures var host := data.Get(proto).value.host;
            var values := ValuesFor(data, proto);
            var step := FamilyStep(name, data, proto, reachable);
            step.probes == [ProbeCall(host, data.port.value, proto)] &&
            step.out == if |values| == 0 then IndexError
                        else if reachable(host, data.port.value, proto)
                        then Lines([Line(name, [values[0]], Version(proto), None)])
                        else Lines([Line(name, [], Version(proto), Some(values[0]))])
  {
    var hosts := Candidates(data, proto);
    assert hosts == [data.Get(proto).value.host];
    assert hosts[..1] == hosts;
  }

  /** Both families draw their output from the same 'values' list when it is given. */
  lemma ValuesSharedAcrossFamilies(data: VarConfig)
    requires data.values.Some? && data.ip4.Some? && data.ip6.Some?
    ensures ValuesFor(data, Ip4) == ValuesFor(data, Ip6) == EnsureList(data.values.value)
  {
  }

  /**
    A unit that completes emits one line for its variable and family; the line
    carries at most one selected value and a fallback only when none is selected.
  */
  lemma OneLinePerFamily(name: string, data: VarConfig, proto: Proto, reachable: Oracle)
    requires data.port.Some?
    ensures var step := FamilyStep(name, data, proto, reachable);
            (step.out.Lines? || step.out == IndexError) &&
            (step.out.Lines? ==>
               |step.out.lines| == 1 &&
               step.out.lines[0].name == name &&
               step.out.lines[0].version == Version(proto) &&
               |step.out.lines[0].data| <= 1 &&
               (step.out.lines[0].fallback.Some? ==> step.out.lines[0].data == []))
  {
  }

  // ---------------------------------------------------------------------
  // Invalid variables

  /** Dropping every invalid variable from the config changes neither lines nor probes. */
  lemma {:induction false} InvalidVariablesSkipped(cfg: Config, protos: seq<Proto>, reachable: Oracle)
    ensures Select(cfg, protos, reachable) == Select(OnlyValid(cfg), protos, reachable)
    decreases |cfg|
  {
    if cfg != [] {
      var init, last := cfg[..|cfg| - 1], cfg[|cfg| - 1];
      InvalidVariablesSkipped(init, protos, reachable);
      if last.1.IsValid() {
        var v := OnlyValid(init) + [last];
        assert v[..|v| - 1] == OnlyValid(init);
      } else {
        assert OnlyValid(cfg) == OnlyValid(init);
        ThenNoStep(Select(init, protos, reachable));
      }
    }
  }

  // ---------------------------------------------------------------------
  // Number and order of lines

  /** What identifies a line's position: its variable and IP version. */
  function Headers(ls: seq<Line>): seq<(string, int)>
  {
    seq(|ls|, i requires 0 <= i < |ls| => (ls[i].name, ls[i].version))
  }

  /** The headers one valid variable contributes: its name once per processed family. */
  function VarHeaders(name: string, protos: seq<Proto>): seq<(string, int)>
  {
    seq(|protos|, i requires 0 <= i < |protos| => (name, Version(protos[i])))
  }

  /** The headers a config must produce: valid variables in order, families in order within each. */
  function ExpectedHeaders(cfg: Config, protos: seq<Proto>): seq<(string, int)>
    decreases |cfg|
  {
    if cfg == [] then []
    else
      var last := cfg[|cfg| - 1];
      ExpectedHeaders(cfg[..|cfg| - 1], protos) + (if last.1.IsValid() then VarHeaders(last.0, protos) else [])
  }

  lemma HeadersAppend(a: seq<Line>, b: seq<Line>)
    ensures Headers(a + b) == Headers(a) + Headers(b)
  {
  }

  lemma {:induction false} ExpectedHeadersLength(cfg: Config, protos: seq<Proto>)
    ensures |ExpectedHeaders(cfg, protos)| == |OnlyValid(cfg)| * |protos|
    decreases |cfg|
  {
    if cfg != [] {
      var init, last := cfg[..|cfg| - 1], cfg[|cfg| - 1];
      ExpectedHeadersLength(init, protos);
      var m := |OnlyValid(init)|;
      if last.1.IsValid() {
        assert |OnlyValid(cfg)| == m + 1;
        assert (m + 1) * |protos| == m * |protos| + |protos|;
      } else {
        assert |OnlyValid(cfg)| == m;
      }
    }
  }

  lemma {:induction false} FamiliesHeaders(name: string, data: VarConfig, protos: seq<Proto>, reachable: Oracle)
    requires data.port.Some?
    ensures var step := FamiliesStep(name, data, protos, reachable);
            step.out.Lines? ==> Headers(step.out.lines) == VarHeaders(name, protos)
    ensures !FamiliesStep(name, data, protos, reachable).out.ConfigMissing?
    decreases |protos|
  {
    if protos != [] {
      var init, last := protos[..|protos| - 1], protos[|protos| - 1];
      var a := FamiliesStep(name, data, init, reachable);
      var b := FamilyStep(name, data, last, reachable);
      FamiliesHeaders(name, data, init, reachable);
      OneLinePerFamily(name, data, last, reachable);
      if a.out.Lines? && b.out.Lines? {
        HeadersAppend(a.out.lines, b.out.lines);
        assert VarHeaders(name, protos) == VarHeaders(name, init) + [(name, Version(last))];
      }
    }
  }

  /**
    A run that completes emits one line per valid variable and processed
    family: (valid variables) x (families) lines, in config order, and within a
    variable in family order. A run that stops does so with an index error.
  */
  lemma {:induction false} LinesFollowConfigOrder(cfg: Config, protos: seq<Proto>, reachable: Oracle)
    ensures var step := Select(cfg, protos, reachable);
            (step.out.Lines? || step.out == IndexError) &&
            (step.out.Lines? ==>
               Headers(step.out.lines) == ExpectedHeaders(cfg, protos) &&
               |step.out.lines| == |OnlyValid(cfg)| * |protos|)
    decreases |cfg|
  {
    ExpectedHeadersLength(cfg, protos);
    if cfg != [] {
      var init, last := cfg[..|cfg| - 1], cfg[|cfg| - 1];
      var a := Select(init, protos, reachable);
      var b := VarStep(last.0, last.1, protos, reachable);
      LinesFollowConfigOrder(init, protos, reachable);
      if last.1.IsValid() {
        FamiliesHeaders(last.0, last.1, protos, reachable);
      }
      if a.out.Lines? && b.out.Lines? {
        HeadersAppend(a.out.lines, b.out.lines);
      }
    }
  }

  // ---------------------------------------------------------------------
  // Value lists long enough for their candidates

  /** Every family with candidates has at least as many values as candidates. */
  predicate AlignedVar(data: VarConfig)
  {
    forall p: Proto :: HasCandidates(data, p) ==> |Candidates(data, p)| <= |ValuesFor(data, p)|
  }

  /** Every valid variable is aligned. */
  predicate Aligned(cfg: Config)
  {
    forall i :: 0 <= i < |cfg| && cfg[i].1.IsValid() ==> AlignedVar(cfg[i].1)
  }

  lemma {:induction false} FamiliesAligned(name: string, data: VarConfig, protos: seq<Proto>, reachable: Oracle)
    requires data.port.Some? && AlignedVar(data)
    ensures FamiliesStep(name, data, protos, reachable).out.Lines?
    decreases |protos|
  {
    if protos != [] {
      var last := protos[|protos| - 1];
      FamiliesAligned(name, data, protos[..|protos| - 1], reachable);
      assert HasCandidates(data, last) ==> |Candidates(data, last)| <= |ValuesFor(data, last)|;
    }
  }

  /** With aligned value lists, indexing never fails and the run always completes. */
  lemma {:induction false} AlignedNeverFails(cfg: Config, protos: seq<Proto>, reachable: Oracle)
    requires Aligned(cfg)
    ensures Select(cfg, protos, reachable).out.Lines?
    decreases |cfg|
  {
    if cfg != [] {
      var init, last := cfg[..|cfg| - 1], cfg[|cfg| - 1];
      assert Aligned(init) by {
        forall i | 0 <= i < |init| && init[i].1.IsValid() ensures AlignedVar(init[i].1) {
          assert init[i] == cfg[i];
        }
      }
      AlignedNeverFails(init, protos, reachable);
      if last.1.IsValid() {
        FamiliesAligned(last.0, last.1, protos, reachable);
      }
    }
  }

  // ---------------------------------------------------------------------
  // Only probed hosts matter

  /** Two probes answer alike on every call in the log. */
  predicate AgreeOn(log: seq<ProbeCall>, r1: Oracle, r2: Oracle)
  {
    forall c :: c in log ==> r1(c.host, c.port, c.proto) == r2(c.host, c.port, c.proto)
  }

  lemma FamilyAgree(name: string, data: VarConfig, proto: Proto, r1: Oracle, r2: Oracle)
    requires data.port.Some?
    requires AgreeOn(FamilyStep(name, data, proto, r1).probes, r1, r2)
    ensures FamilyStep(name, data, proto, r2) == FamilyStep(name, data, proto, r1)
  {
    if HasCandidates(data, proto) {
      var hosts, port := Candidates(data, proto), data.port.value;
      var calls := FamilyStep(name, data, proto, r1).probes;
      match FirstReachable(hosts, port, proto, r1)
      case Some(i) =>
        forall j | 0 <= j <= i ensures r1(hosts[j], port, proto) == r2(hosts[j], port, proto) {
          assert calls[j] in calls;
        }
        FirstReachableUnique(hosts, port, proto, r2, i);
      case None =>
        forall j | 0 <= j < |hosts| ensures r1(hosts[j], port, proto) == r2(hosts[j], port, proto) {
          assert calls[j] in calls;
        }
    }
  }

  lemma {:induction false} FamiliesAgree(name: string, data: VarConfig, protos: seq<Proto>, r1: Oracle, r2: Oracle)
    requires data.port.Some?
    requires AgreeOn(FamiliesStep(name, data, protos, r1).probes, r1, r2)
    ensures FamiliesStep(name, data, protos, r2) == FamiliesStep(name, data, protos, r1)
    decreases |protos|
  {
    if protos != [] {
      var init, last := protos[..|protos| - 1], protos[|protos| - 1];
      var a := FamiliesStep(name, data, init, r1);
      FamiliesAgree(name, data, init, r1, r2);
      if a.out.Lines? {
        FamilyAgree(name, data, last, r1, r2);
      }
    }
  }

  /**
    The result depends only on the answers to the probes actually issued: any
    probe that agrees on those hosts yields the same lines and the same probes.
    In particular, hosts after the first reachable one never influence the run.
  */
  lemma {:induction false} OnlyProbedHostsMatter(cfg: Config, protos: seq<Proto>, r1: Oracle, r2: Oracle)
    requires AgreeOn(Select(cfg, protos, r1).probes, r1, r2)
    ensures Select(cfg, protos, r2) == Select(cfg, protos, r1)
    decreases |cfg|
  {
    if cfg != [] {
      var init, last := cfg[..|cfg| - 1], cfg[|cfg| - 1];
      var a := Select(init, protos, r1);
      OnlyProbedHostsMatter(init, protos, r1, r2);
      if a.out.Lines? && last.1.IsValid() {
        FamiliesAgree(last.0, last.1, protos, r1, r2);
      }
    }
  }

  // ---------------------------------------------------------------------
  // The "found" tags

  lemma TagParts(name: string, p: Proto)
    ensures |Tag(name, p)| == |name| + 4
    ensures Tag(name, p)[..|name|] == name
    ensures Tag(name, p)[|name|..] == "_" + Key(p)
  {
  }

  /** Distinct (variable, family) pairs never share a tag, so a found flag per pair is exact. */
  lemma TagInjective(n1: string, p1: Proto, n2: string, p2: Proto)
    ensures Tag(n1, p1) == Tag(n2, p2) <==> n1 == n2 && p1 == p2
  {
    if Tag(n1, p1) == Tag(n2, p2) {
      TagParts(n1, p1);
      TagParts(n2, p2);
      assert |n1| == |n2|;
      var t := Tag(n1, p1);
      assert t[|n1| + 3] == Key(p1)[2] == Key(p2)[2];
    }
  }
}
