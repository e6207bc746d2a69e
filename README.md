# Failover endpoint selector — a Dafny model

The nftables failover add-on picks a live endpoint for each configured
variable, separately for IPv4 and IPv6. A run that completes emits one
configuration line per valid variable and address family for the firewall
ruleset generator; a run that hits an index error emits nothing. This project
models the selection loop of `lib/failover.py` and proves what it emits and
which hosts it probes.

- `wrappers.dfy`: module `Wrappers`, the `Option` type (a config key that may
  be absent, an unset fallback).
- `model.dfy`: module `FailoverModel`. It holds the data model:
  - address families `Proto`;
  - config entries `Entry`, which are a bare string or a list;
  - per-variable settings `VarConfig`, where every key is optional;
  - the ordered `Config`;
  - the output record `Line`;
  - the probe log entry `ProbeCall`;
  - the reachability `Oracle`.

  It also holds the reference semantics as pure functions.
  `FirstReachable` finds the lowest reachable index. `FamilyStep` handles one
  (variable, family) unit, and `FamiliesStep`, `VarStep` and `Select` compose
  the units. `Run` adds the abort on a missing or empty config. Each result is
  a `Step`: the outcome together with the probes issued.
- `properties.dfy`: module `FailoverProperties`, lemmas about the reference
  semantics.
- `failover.dfy`: module `Failover`, the loop as the program runs it.
  - `RunFailover` walks the variables.
  - `ProcessVariable` walks the families.
  - `SelectFamily` normalises a bare candidate into a list in place, picks
    the value list, probes, and emits the fallback when the family's tag was
    not recorded.
  - `ProbeInOrder` is the `for … break` probing loop.

  Lines and the `vars_defined` tags (`"<var>_<family>"`) are sequences that
  the methods extend step by step. `RunFailover` is proved to give exactly
  `Run`'s lines and probe log.

How the model is set up:

- **Probing.** Reachability is a function value `(host, port, family) -> bool`
  passed in by the caller. It stands for one snapshot of the network during a
  run.
- **The output line.** A `Line` record carries the arguments the program hands
  to its line formatter: name, data, version and fallback.
- **Processed families.** These are `ProcessProtos(processIPv6)`: `ip4`, then
  `ip6` when IPv6 processing is on. The program hard-codes IPv6 processing as
  on; the model takes it as a parameter.
- **Index errors.** The program indexes the value list without checking its
  length (`values[idx]`, `values[0]`). An index past the end raises an
  uncaught `IndexError` and ends the run before anything is written. The model
  keeps this as the outcome `IndexError`, and `AlignedNeverFails` states when
  it cannot happen.

## Model

| member | source | states |
|---|---|---|
| `FailoverModel.ProcessProtos` | lib/failover.py:18-20 | the processed families start with `ip4`, contain `ip6` exactly when IPv6 processing is on, and have no repeats |
| `FailoverModel.Version` | lib/failover.py:46 | version 4 belongs to `ip4` and version 6 to `ip6`, and to no other family |
| `FailoverModel.VarConfig.Put` | lib/failover.py:62-63 | replacing a family's entry (the in-place normalisation) changes only that family; port, values and the other family are kept |
| `FailoverModel.FirstReachable` | lib/failover.py:67-68 | the index found is reachable and every lower index is unreachable; there is no index exactly when no candidate is reachable |
| `FailoverProperties.FirstReachableUnique` | lib/failover.py:67-77 | an index that is reachable and has no reachable index below it is the one selected |
| `FailoverProperties.NoCandidatesEmptyLine` | lib/failover.py:48-56 | a family that is absent, or has an empty list or empty string, yields one line with empty data and no fallback, and issues no probe |
| `FailoverProperties.SelectsLowestReachable` | lib/failover.py:58-77 | for the lowest reachable index i, exactly candidates 0..i are probed, as raw hosts and in order; the line carries `values[i]`, taken from `values` when present and else from the candidates, or the run stops with an index error when the list is too short |
| `FailoverProperties.NoneReachableFallsBack` | lib/failover.py:67-87 | when no candidate is reachable, every candidate is probed once, in order, and the line has empty data and fallback `values[0]`; with an empty value list the run stops with an index error |
| `FailoverProperties.ScalarCandidateIsSingleton` | lib/failover.py:58-63 | a bare non-empty candidate string is probed once as a one-element list; the line selects `values[0]` if that host is reachable and else falls back to it |
| `FailoverProperties.ValuesSharedAcrossFamilies` | lib/failover.py:58-60 | when `values` is given, both families take their output values from that same list |
| `FailoverProperties.OneLinePerFamily` | lib/failover.py:45-87 | a unit either stops with an index error or emits exactly one line, with the variable's name and the family's version, at most one selected value, and a fallback only when nothing is selected |
| `FailoverProperties.InvalidVariablesSkipped` | lib/failover.py:40-43 | removing every variable that lacks a port, or lacks both family keys, changes neither the lines nor the probes of the run |
| `FailoverProperties.ExpectedHeadersLength` | lib/failover.py:40-45 | the expected line sequence has (valid variables) × (processed families) entries |
| `FailoverProperties.FamiliesHeaders` | lib/failover.py:45-87 | a valid variable's completed units emit its name once per family, in family order |
| `FailoverProperties.LinesFollowConfigOrder` | lib/failover.py:40-87 | a completed run emits (valid variables) × (families) lines, in config order, with families in order within each variable; a run that stops, stops with an index error |
| `FailoverProperties.FamiliesAligned` | lib/failover.py:58-87 | when every family with candidates has at least as many values as candidates, a variable's units never fail |
| `FailoverProperties.AlignedNeverFails` | lib/failover.py:67-87 | when every valid variable has value lists at least as long as its candidate lists, the run completes without an index error |
| `FailoverProperties.FamilyAgree` | lib/failover.py:67-77 | a unit's result depends only on the answers for the hosts it probed |
| `FailoverProperties.FamiliesAgree` | lib/failover.py:45-87 | a variable's result depends only on the answers for the hosts it probed |
| `FailoverProperties.OnlyProbedHostsMatter` | lib/failover.py:40-87 | two probes that agree on every host probed give the same run: hosts after the first reachable one never influence the result |
| `FailoverProperties.TagParts` | lib/failover.py:65 | the tag `"<var>_<family>"` is the name followed by a four-character family suffix |
| `FailoverProperties.TagInjective` | lib/failover.py:65 | two tags are equal exactly when their names and families are equal, so the tag list never confuses two (variable, family) pairs |
| `Failover.TagNotRecorded` | lib/failover.py:76-79 | with unique names, the current (variable, family) tag is absent from the tags recorded before it |
| `Failover.RecordFamily` | lib/failover.py:76 | recording the current family's tag keeps every recorded tag attributed to an earlier variable or a processed family |
| `Failover.FinishVariable` | lib/failover.py:38 | after a variable, all recorded tags belong to variables already processed |
| `Failover.RunFailover` | lib/failover.py:31-87 | a missing or empty config aborts before any probe; otherwise the lines, or the index error, and the probes issued are exactly those of the reference `Run` |
| `Failover.ProcessVariable` | lib/failover.py:45-87 | one valid variable's loop over families appends exactly the reference units' lines and probes, or reports the index error, and keeps the tag list attributed |
| `Failover.SelectFamily` | lib/failover.py:58-87 | one family with candidates appends exactly the reference unit's line and probes, records at most its own tag, and leaves the entry normalised to a list |
| `Failover.ProbeInOrder` | lib/failover.py:67-77 | probing stops at the first reachable index i, having probed 0..i, and appends `values[i]` and the tag, or reports the index error; with no reachable host it probes all candidates and appends nothing |
| `Failover.FamilyAfter` | lib/failover.py:67-87 | a unit with candidates ends in the selected line, the fallback line or the index error, according to the first reachable index |
| `Failover.FamilyStepFrame` | lib/failover.py:62-63 | a unit reads only its own family's entry, the port and the values, so normalising another family's entry does not change it |
| `Failover.FamiliesFailurePersists` | lib/failover.py:72-73 | once an index error stops a variable's loop, later families add nothing |
| `Failover.SelectFailurePersists` | lib/failover.py:85 | once an index error stops the run, later variables add nothing and probe nothing |

## Left out

- The socket work of `_is_reachable` (lib/failover.py:23-28) is not modelled. It covers the TCP connect, the timeout and closing the socket. Reachability is an oracle parameter, so the model assumes that the same host answers the same way throughout one run. An exception raised by `connect_ex` is not modelled, for example on a resolution error or on a string port. The socket address of `AF_INET`/`AF_INET6` takes an integer port, so a variable with a string port and at least one candidate ends the program's run with an uncaught `TypeError`. The model probes a `StrPort` like any other port instead.
- The mapping from family to socket address family (`AF_INET`/`AF_INET6`) is not modelled; the oracle receives the family itself.
- `load_config`, `validate_and_write` and `format_var` come from the `util` module, which is not part of this model. Loading is an `Option<Config>` input. The written result is the `Lines` outcome, and a formatted line is the `Line` record.
- `ensure_list` also comes from `util`. It is assumed to keep a list as it is and to wrap any other value in a one-element list (`EnsureList`).
- Config values other than a string, a list of strings or a port are not modelled: `null`, numbers used as hosts, nested objects. The errors Python would raise on them are therefore not modelled either.
- The diagnostic printed for a skipped variable, the `SystemExit` message text, and the timeout and file-name constants are not modelled.
- The normalisation `data[proto] = [data[proto]]` updates the variable's settings held by the loop. The config object itself is never read again, so the model does not track it.
- An empty value list never leads to a line with an unset fallback. The code raises an `IndexError` at `values[0]`, and the model keeps that error.
- Repeating a run is not a separate lemma. `Run` is a function of the config and the oracle, so two runs against the same network snapshot agree by construction.
