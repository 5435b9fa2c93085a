/** `ProbeHosts`: deduplicate, run the pool without looking at the context, sort by input, count. */
module Probe {
  import opened Sorting
  import opened Text
  import opened Pool
  import opened Candidates

  datatype ProbeEntry = ProbeEntry(input: string, alive: bool, url: string, statusCode: int, error: string)

  datatype ProbeResult = ProbeResult(probed: nat, aliveCount: nat, results: seq<ProbeEntry>)

  const MAX_PROBE_TARGETS: nat := 100

  function InputOf(e: ProbeEntry): string { e.input }

  predicate IsAlive(e: ProbeEntry) { e.alive }

  /** The hosts that are probed. */
  function Targets(inputs: seq<string>): seq<string> {
    Take(FirstOccurrences(Map(TrimSpace, inputs)), MAX_PROBE_TARGETS)
  }

  function ProbeConfig(targets: seq<string>, concurrency: int): Config {
    AppendConfig(|targets|, EffectiveConcurrency(concurrency, 20), false)
  }

  ghost predicate Reported(results: seq<ProbeEntry>, r: ProbeResult) {
    && IsSortOf(results, r.results, InputOf, StrLe)
    && r.probed == |r.results|
    && r.aliveCount == CountIf(IsAlive, r.results)
  }

  method FinishProbe(results: seq<ProbeEntry>) returns (r: ProbeResult)
    ensures Reported(results, r)
  {
    StrOrder();
    var sorted := Sort(results, InputOf, StrLe);
    var alive := 0;
    for i := 0 to |sorted|
      invariant alive + CountIf(IsAlive, sorted[i..]) == CountIf(IsAlive, sorted)
    {
      if sorted[i].alive {
        alive := alive + 1;
      }
    }
    r := ProbeResult(|sorted|, alive, sorted);
  }

  /** `r` is an answer ProbeHosts may give after a schedule. */
  ghost predicate ProbeAnswer(inputs: seq<string>, probe: string -> ProbeEntry, concurrency: int,
                              schedule: seq<Action>, r: ProbeResult) {
    var cfg := ProbeConfig(Targets(inputs), concurrency);
    Returns(cfg, schedule) && Reported(Results(Targets(inputs), probe, cfg, schedule), r)
  }

  /** Every target is probed once, cancelled or not, and listed with strictly ascending inputs. */
  lemma {:induction false} ProbeReportsAll(inputs: seq<string>, probe: string -> ProbeEntry, concurrency: int,
                        schedule: seq<Action>, r: ProbeResult)
    requires forall t :: probe(t).input == t
    requires ProbeAnswer(inputs, probe, concurrency, schedule, r)
    ensures multiset(r.results) == multiset(Map(probe, Targets(inputs)))
    ensures Distinct(Map(InputOf, r.results)) && SortedBy(r.results, InputOf, StrLe)
    ensures r.probed == |Targets(inputs)|
    ensures var all := FirstOccurrences(Map(TrimSpace, inputs));
      r.probed == (if |all| < 100 then |all| else 100) && Targets(inputs) <= all
    ensures r.aliveCount == CountIf(IsAlive, Map(probe, Targets(inputs)))
  {
    var targets := Targets(inputs);
    var m := ResultsArePrefix(targets, probe, EffectiveConcurrency(concurrency, 20), false, schedule);
    assert targets[..m] == targets;
    TargetsDistinct(inputs);
    OncePerTarget(targets, probe, r.results);
  }

  /** At most `concurrency` probes are in flight, 20 if that is not positive. */
  lemma {:induction false} ProbesInFlight(inputs: seq<string>, concurrency: int, schedule: seq<Action>)
    requires Exec(ProbeConfig(Targets(inputs), concurrency), schedule).Some?
    ensures InFlight(Exec(ProbeConfig(Targets(inputs), concurrency), schedule).value)
            <= if concurrency > 0 then concurrency else 20
  {
    PoolSafety(ProbeConfig(Targets(inputs), concurrency), schedule);
  }

  lemma {:induction false} TargetsDistinct(inputs: seq<string>)
    ensures Distinct(Targets(inputs))
  {
    OccurrencesMean(Map(TrimSpace, inputs));
  }

  lemma {:induction false} OncePerTarget(targets: seq<string>, probe: string -> ProbeEntry, results: seq<ProbeEntry>)
    requires Distinct(targets) && forall t :: probe(t).input == t
    requires multiset(results) == multiset(Map(probe, targets))
    ensures |results| == |targets|
    ensures CountIf(IsAlive, results) == CountIf(IsAlive, Map(probe, targets))
    ensures Distinct(Map(InputOf, results))
  {
    MembersAgree(results, Map(probe, targets));
    CountMultiset(IsAlive, results, Map(probe, targets));
    KeysDistinct(targets, probe, results);
  }

  lemma {:induction false} KeysDistinct(targets: seq<string>, probe: string -> ProbeEntry, results: seq<ProbeEntry>)
    requires Distinct(targets) && forall t :: probe(t).input == t
    requires multiset(results) == multiset(Map(probe, targets))
    ensures Distinct(Map(InputOf, results))
  {
    var names := Map(probe, targets);
    assert forall i | 0 <= i < |names| :: names[i].input == targets[i];
    SortKeepsDistinct(names, results);
    MembersAgree(results, names);
    forall i, j | 0 <= i < j < |results| ensures InputOf(results[i]) != InputOf(results[j]) {
      assert results[i] in names && results[j] in names;
      assert results[i] == probe(results[i].input) && results[j] == probe(results[j].input);
    }
  }

  /** Deduplication makes the sort keys distinct, so any two schedules give the same answer. */
  lemma {:induction false} ProbeErasesSchedule(inputs: seq<string>, probe: string -> ProbeEntry, concurrency: int,
                            schedule: seq<Action>, other: seq<Action>, r: ProbeResult, r': ProbeResult)
    requires forall t :: probe(t).input == t
    requires ProbeAnswer(inputs, probe, concurrency, schedule, r)
    requires ProbeAnswer(inputs, probe, concurrency, other, r')
    ensures r == r'
  {
    ProbeReportsAll(inputs, probe, concurrency, schedule, r);
    ProbeReportsAll(inputs, probe, concurrency, other, r');
    SameSorted(r.results, r'.results);
  }

  lemma {:induction false} SameSorted(a: seq<ProbeEntry>, b: seq<ProbeEntry>)
    requires multiset(a) == multiset(b)
    requires SortedBy(a, InputOf, StrLe) && SortedBy(b, InputOf, StrLe)
    requires Distinct(Map(InputOf, a))
    ensures a == b
  {
    StrOrder();
    var names := Map(InputOf, a);
    assert forall i | 0 <= i < |names| :: names[i] == InputOf(a[i]);
    UniqueSort(a, b, InputOf, StrLe);
  }
}
