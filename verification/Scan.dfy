/** `ScanPorts` and `finalize`: the pool with one critical section per port, then a sort and a count. */
module Scan {
  import opened Sorting
  import opened Text
  import opened Pool
  import PortSpec

  datatype PortStatus = PortStatus(port: int, open: bool, service: string, banner: string)

  datatype ScanResult = ScanResult(host: string, scanned: nat, openCount: nat, ports: seq<PortStatus>)

  function PortOf(st: PortStatus): int { st.port }

  predicate IsOpen(st: PortStatus) { st.open }

  /** What `finalize` makes of the gathered statuses, up to the order of equal ports. */
  ghost predicate Finalized(host: string, results: seq<PortStatus>, r: ScanResult) {
    && r.host == host
    && IsSortOf(results, r.ports, PortOf, IntLe)
    && r.scanned == |r.ports|
    && r.openCount == CountIf(IsOpen, r.ports)
  }

  method Finalize(host: string, results: seq<PortStatus>) returns (r: ScanResult)
    ensures Finalized(host, results, r)
  {
    var sorted := Sort(results, PortOf, IntLe);
    var open := 0;
    for i := 0 to |sorted|
      invariant open + CountIf(IsOpen, sorted[i..]) == CountIf(IsOpen, sorted)
    {
      if sorted[i].open {
        open := open + 1;
      }
    }
    r := ScanResult(host, |sorted|, open, sorted);
  }

  function ScanConfig(ports: seq<int>, concurrency: int): Config {
    AppendConfig(|ports|, EffectiveConcurrency(concurrency, 100), true)
  }

  /** `r` is an answer ScanPorts may give after a schedule. */
  ghost predicate ScanAnswer(host: string, ports: seq<int>, probe: int -> PortStatus, concurrency: int,
                             schedule: seq<Action>, r: ScanResult) {
    var cfg := ScanConfig(ports, concurrency);
    Returns(cfg, schedule) && Finalized(host, Results(ports, probe, cfg, schedule), r)
  }

  /**
    Whenever it is cancelled, ScanPorts reports the probes of exactly a prefix of its ports, each
    once; Scanned is the length of the prefix and OpenCount the number of its open ports.  The
    prefix is everything if the context was never done.
  */
  lemma {:induction false} ScanReportsPrefix(host: string, ports: seq<int>, probe: int -> PortStatus, concurrency: int,
                          schedule: seq<Action>, r: ScanResult) returns (m: nat)
    requires ScanAnswer(host, ports, probe, concurrency, schedule, r)
    ensures m <= |ports| && (Cancel !in schedule ==> m == |ports|)
    ensures multiset(r.ports) == multiset(Map(probe, ports[..m]))
    ensures SortedBy(r.ports, PortOf, IntLe)
    ensures r.scanned == m && r.openCount == CountIf(IsOpen, Map(probe, ports[..m]))
    ensures var cfg := ScanConfig(ports, concurrency);
      forall n | DoneBy(cfg, schedule, n) :: m <= CommittedBy(cfg, schedule, n)
  {
    m := ResultsArePrefix(ports, probe, EffectiveConcurrency(concurrency, 100), true, schedule);
    MembersAgree(r.ports, Map(probe, ports[..m]));
    CountMultiset(IsOpen, r.ports, Map(probe, ports[..m]));
  }

  /** A scan whose context is done before the first step reports nothing. */
  lemma {:induction false} ScanNothing(host: string, ports: seq<int>, probe: int -> PortStatus, concurrency: int,
                                       schedule: seq<Action>, r: ScanResult)
    requires ScanAnswer(host, ports, probe, concurrency, schedule, r)
    requires schedule != [] && schedule[0] == Cancel
    ensures r == ScanResult(host, 0, 0, [])
  {
    var m := ScanReportsPrefix(host, ports, probe, concurrency, schedule, r);
    DoneAtOnce(ScanConfig(ports, concurrency), schedule);
    MembersAgree(r.ports, Map(probe, ports[..m]));
  }

  /** At most `concurrency` probes are in flight, 100 if that is not positive. */
  lemma {:induction false} ScanInFlight(ports: seq<int>, concurrency: int, schedule: seq<Action>)
    requires Exec(ScanConfig(ports, concurrency), schedule).Some?
    ensures InFlight(Exec(ScanConfig(ports, concurrency), schedule).value)
            <= if concurrency > 0 then concurrency else 100
  {
    PoolSafety(ScanConfig(ports, concurrency), schedule);
  }

  lemma {:induction false} SortOfAscending(ports: seq<int>, probe: int -> PortStatus, sorted: seq<PortStatus>)
    requires PortSpec.Ascending(ports)
    requires forall p :: probe(p).port == p
    requires multiset(sorted) == multiset(Map(probe, ports)) && SortedBy(sorted, PortOf, IntLe)
    ensures sorted == Map(probe, ports)
  {
    var xs := Map(probe, ports);
    assert forall i | 0 <= i < |xs| :: PortOf(xs[i]) == ports[i];
    UniqueSort(xs, sorted, PortOf, IntLe);
  }

  /**
    With ascending ports, as ParsePortSpec and TopPorts give them, the sort erases the schedule: the
    report is that of probing a prefix of the ports one after the other, and of all of them when
    the scan is not cancelled.
  */
  lemma {:induction false} ScanErasesSchedule(host: string, ports: seq<int>, probe: int -> PortStatus, concurrency: int,
                           schedule: seq<Action>, r: ScanResult) returns (m: nat)
    requires PortSpec.Ascending(ports)
    requires forall p :: probe(p).port == p
    requires ScanAnswer(host, ports, probe, concurrency, schedule, r)
    ensures m <= |ports| && (Cancel !in schedule ==> m == |ports|)
    ensures var one := Map(probe, ports[..m]); r == ScanResult(host, m, CountIf(IsOpen, one), one)
  {
    m := ScanReportsPrefix(host, ports, probe, concurrency, schedule, r);
    SortOfAscending(ports[..m], probe, r.ports);
  }

  /** The status of a port whose connection failed: it is not open and has no banner. */
  function Failed(st: PortStatus): PortStatus { st.(open := false, banner := "") }

  /** What the workers see of the network: connections may fail once the context is done. */
  ghost predicate SeenByCancel(ports: seq<int>, probe: int -> PortStatus, seen: int -> PortStatus,
                               schedule: seq<Action>) {
    forall i | 0 <= i < |ports| ::
      seen(ports[i]) == probe(ports[i]) || (Interrupted(schedule, i) && seen(ports[i]) == Failed(probe(ports[i])))
  }

  /**
    In a cancelled scan a port may be reported closed because its connection was cut off, but every
    port reported open is open, and workers that were through in time reported right.
  */
  lemma {:induction false} ScanUnderCancel(host: string, ports: seq<int>, probe: int -> PortStatus,
                                           seen: int -> PortStatus, concurrency: int, schedule: seq<Action>,
                                           r: ScanResult)
    returns (m: nat)
    requires PortSpec.Ascending(ports) && (forall p :: seen(p).port == p)
    requires SeenByCancel(ports, probe, seen, schedule)
    requires ScanAnswer(host, ports, seen, concurrency, schedule, r)
    ensures m <= |ports| && r.scanned == |r.ports| == m
    ensures forall i | 0 <= i < m :: r.ports[i].open || !Interrupted(schedule, i) ==> r.ports[i] == probe(ports[i])
    ensures Cancel !in schedule ==> r.ports == Map(probe, ports)
  {
    m := ScanErasesSchedule(host, ports, seen, concurrency, schedule, r);
    assert forall i | 0 <= i < m :: r.ports[i] == seen(ports[i]);
    if Cancel !in schedule {
      assert forall i | 0 <= i < |ports| :: !Interrupted(schedule, i);
    }
  }
}
