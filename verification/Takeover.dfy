/**
  `DetectTakeovers`: the pool whose workers enter no critical section, or two: the first counts the
  candidate as checked, the second files its entry.
*/
module Takeover {
  import opened Wrappers
  import opened Sorting
  import opened Text
  import opened Pool
  import opened Candidates

  datatype Status = Vulnerable | Potential | PointsToService

  datatype TakeoverEntry = TakeoverEntry(subdomain: string, cname: string, service: string, status: Status,
                                         evidence: string)

  datatype Severity = High | Medium | Info

  datatype TakeoverResult = TakeoverResult(checked: nat, vulnerable: seq<TakeoverEntry>,
                                           potential: seq<TakeoverEntry>, findings: seq<(Severity, nat)>)

  const MAX_TAKEOVER_CANDIDATES: nat := 400

  // ---- Judging one candidate ----

  datatype Signature = Signature(service: string, patterns: seq<string>, fingerprint: string)

  /** What the network says about a name: its CNAME, the body of its page, whether it resolves. */
  datatype Network = Network(cname: string -> string, body: string -> string, resolves: string -> bool)

  predicate Contains(s: string, p: string) { HasPrefix(s, p) || (s != [] && Contains(s[1..], p)) }

  predicate Matches(sig: Signature, cname: string) {
    exists i | 0 <= i < |sig.patterns| :: Contains(cname, sig.patterns[i])
  }

  method MatchTakeoverService(sigs: seq<Signature>, cname: string) returns (service: string, fingerprint: string)
    ensures (service, fingerprint) == FirstMatch(sigs, cname)
  {
    for i := 0 to |sigs|
      invariant FirstMatch(sigs, cname) == FirstMatch(sigs[i..], cname)
    {
      for j := 0 to |sigs[i].patterns|
        invariant forall k | 0 <= k < j :: !Contains(cname, sigs[i].patterns[k])
      {
        if Contains(cname, sigs[i].patterns[j]) {
          return sigs[i].service, sigs[i].fingerprint;
        }
      }
    }
    return "", "";
  }

  function FirstMatch(sigs: seq<Signature>, cname: string): (string, string) {
    if sigs == [] then ("", "")
    else if Matches(sigs[0], cname) then (sigs[0].service, sigs[0].fingerprint)
    else FirstMatch(sigs[1..], cname)
  }

  /** The match is the first signature, in the order of the table, one of whose patterns occurs in the CNAME. */
  lemma {:induction false} FirstMatchMeans(sigs: seq<Signature>, cname: string) returns (i: nat)
    ensures i <= |sigs| && forall k | 0 <= k < i :: !Matches(sigs[k], cname)
    ensures i < |sigs| ==> Matches(sigs[i], cname) && FirstMatch(sigs, cname) == (sigs[i].service, sigs[i].fingerprint)
    ensures i == |sigs| ==> FirstMatch(sigs, cname) == ("", "")
  {
    if sigs == [] || Matches(sigs[0], cname) {
      i := 0;
    } else {
      var rest := FirstMatchMeans(sigs[1..], cname);
      i := rest + 1;
    }
  }

  predicate OccursAt(s: string, p: string, i: nat) { i + |p| <= |s| && s[i..i + |p|] == p }

  /** `Contains` finds an occurrence wherever it is. */
  lemma {:induction false} ContainsIff(s: string, p: string)
    ensures Contains(s, p) <==> exists i: nat :: OccursAt(s, p, i)
  {
    if HasPrefix(s, p) {
      assert OccursAt(s, p, 0);
    } else if s != [] {
      ContainsIff(s[1..], p);
      forall i: nat | OccursAt(s[1..], p, i) ensures OccursAt(s, p, i + 1) {
        assert s[i + 1..i + 1 + |p|] == s[1..][i..i + |p|];
      }
      forall i: nat | OccursAt(s, p, i) ensures i > 0 && OccursAt(s[1..], p, i - 1) {
        assert i > 0 ==> s[i..i + |p|] == s[1..][i - 1..i - 1 + |p|];
      }
    }
  }

  function EntryFor(fqdn: string, cname: string, service: string, fingerprint: string, confirmed: bool, resolves: bool)
    : TakeoverEntry
  {
    if confirmed then TakeoverEntry(fqdn, cname, service, Vulnerable, "fingerprint matched: " + fingerprint)
    else if !resolves then
      TakeoverEntry(fqdn, cname, service, Potential, "dangling CNAME to " + service + " (does not resolve)")
    else TakeoverEntry(fqdn, cname, service, PointsToService, "")
  }

  /** The entry a worker files for a name, if the name points to a listed service. */
  function Judge(net: Network, sigs: seq<Signature>, fqdn: string): Option<TakeoverEntry> {
    var cname := net.cname(fqdn);
    if cname == "" || cname == fqdn then None
    else
      var (service, fingerprint) := FirstMatch(sigs, cname);
      if service == "" then None
      else
        var confirmed := fingerprint != "" && Contains(net.body(fqdn), fingerprint);
        Some(EntryFor(fqdn, cname, service, fingerprint, confirmed, net.resolves(fqdn)))
  }

  function Verdict(net: Network, sigs: seq<Signature>): string -> Option<TakeoverEntry> {
    (n: string) => Judge(net, sigs, n)
  }

  /**
    A name is filed exactly if its CNAME is another name in which a pattern of a named service
    occurs.  A fingerprint found in the page confirms the takeover whether or not the name resolves;
    without one, a name that does not resolve is a potential takeover.
  */
  lemma {:induction false} VerdictMeans(net: Network, sigs: seq<Signature>, fqdn: string) returns (i: nat)
    ensures i <= |sigs| && forall k | 0 <= k < i :: !Matches(sigs[k], net.cname(fqdn))
    ensures i < |sigs| ==> Matches(sigs[i], net.cname(fqdn))
    ensures Judge(net, sigs, fqdn).Some? <==>
            net.cname(fqdn) !in {"", fqdn} && i < |sigs| && sigs[i].service != ""
    ensures Judge(net, sigs, fqdn).Some? ==>
            var e := Judge(net, sigs, fqdn).value;
            var confirmed := sigs[i].fingerprint != ""
                && exists k: nat :: OccursAt(net.body(fqdn), sigs[i].fingerprint, k);
            && e.subdomain == fqdn && e.cname == net.cname(fqdn) && e.service == sigs[i].service
            && (e.status == Vulnerable <==> confirmed)
            && (e.status == Potential <==> !confirmed && !net.resolves(fqdn))
            && e.evidence == (if confirmed then "fingerprint matched: " + sigs[i].fingerprint
                              else if !net.resolves(fqdn) then "dangling CNAME to " + e.service + " (does not resolve)"
                              else "")
  {
    i := FirstMatchMeans(sigs, net.cname(fqdn));
    if i < |sigs| {
      ContainsIff(net.body(fqdn), sigs[i].fingerprint);
    }
  }

  // ---- The pool ----

  type Judgement = string -> Option<TakeoverEntry>

  /** A verdict for every name; an entry carries the name it is about. */
  ghost predicate NamesItself(judge: Judgement) {
    forall n :: judge(n).Some? ==> judge(n).value.subdomain == n
  }

  /** The candidates that are looked at. */
  function Targets(candidates: seq<string>, lower: string -> string): seq<string> {
    Take(FirstOccurrences(Map(Normaliser(lower), candidates)), MAX_TAKEOVER_CANDIDATES)
  }

  function Normaliser(lower: string -> string): string -> string { (c: string) => lower(TrimSpace(c)) }

  function SectionsFor(judge: Judgement): string -> nat {
    (n: string) => if judge(n).Some? then 2 else 0
  }

  function TakeoverConfig(names: seq<string>, judge: Judgement, concurrency: int): Config {
    Config(Map(SectionsFor(judge), names), EffectiveConcurrency(concurrency, 50), true)
  }

  predicate IsCheck(e: Entry) { e.section == 0 }

  /** What the second section of a worker appends to the list of entries with a given status. */
  function Files(names: seq<string>, judge: Judgement, st: Status): Entry -> Option<TakeoverEntry> {
    (e: Entry) =>
      if e.section == 1 && e.worker < |names| then OfStatus(judge, st)(names[e.worker]) else None
  }

  function OfStatus(judge: Judgement, st: Status): string -> Option<TakeoverEntry> {
    (n: string) => if judge(n).Some? && judge(n).value.status == st then judge(n) else None
  }

  function Checked(log: seq<Entry>): nat { CountIf(IsCheck, log) }

  function Filed(names: seq<string>, judge: Judgement, st: Status, log: seq<Entry>): seq<TakeoverEntry> {
    Gather(Files(names, judge, st), log)
  }

  /** One worker's share of the counter and of the three kinds of entries. */
  lemma {:induction false} WorkerShare(names: seq<string>, judge: Judgement, i: nat, k: nat, st: Status)
    requires i < |names| && k <= SectionsFor(judge)(names[i])
    ensures Checked(SectionsOf(i, k)) == if k > 0 then 1 else 0
    ensures Filed(names, judge, st, SectionsOf(i, k)) ==
            if k == 2 && judge(names[i]).value.status == st then [judge(names[i]).value] else []
  {
    var first, second, f := [Entry(i, 0)], [Entry(i, 1)], Files(names, judge, st);
    assert SectionsOf(i, 0) == [] && SectionsOf(i, 1) == first;
    assert SectionsOf(i, 2) == first + second;
    GatherConcat(f, first, second);
    CountConcat(IsCheck, first, second);
    assert Checked(first) == 1 && Checked(second) == 0;
    GatherOne(f, Entry(i, 0));
    GatherOne(f, Entry(i, 1));
    assert k > 0 ==> f(Entry(i, 1)) == OfStatus(judge, st)(names[i]) && k <= 2;
  }

  ghost predicate Within(names: seq<string>, judge: Judgement, progress: seq<nat>) {
    && |progress| <= |names|
    && forall i | 0 <= i < |progress| :: progress[i] <= SectionsFor(judge)(names[i])
  }

  ghost predicate Complete(names: seq<string>, judge: Judgement, progress: seq<nat>) {
    && |progress| <= |names|
    && forall i | 0 <= i < |progress| :: progress[i] == SectionsFor(judge)(names[i])
  }

  lemma {:induction false} Accounting(names: seq<string>, judge: Judgement, progress: seq<nat>)
    requires Within(names, judge, progress)
    ensures
      var log := Sequential(progress);
      var v, p, s := |Filed(names, judge, Vulnerable, log)|, |Filed(names, judge, Potential, log)|,
                     |Filed(names, judge, PointsToService, log)|;
      && Checked(log) >= v + p + s
      && (Complete(names, judge, progress) ==> Checked(log) == v + p + s)
  {
    if progress != [] {
      var n := |progress| - 1;
      Accounting(names, judge, progress[..n]);
      CountConcat(IsCheck, Sequential(progress[..n]), SectionsOf(n, progress[n]));
      FiledStep(names, judge, progress, Vulnerable);
      FiledStep(names, judge, progress, Potential);
      FiledStep(names, judge, progress, PointsToService);
    }
  }

  lemma {:induction false} FiledStep(names: seq<string>, judge: Judgement, progress: seq<nat>, st: Status)
    requires progress != [] && Within(names, judge, progress)
    ensures var n := |progress| - 1;
      && Checked(SectionsOf(n, progress[n])) == (if progress[n] > 0 then 1 else 0)
      && Filed(names, judge, st, Sequential(progress)) ==
         Filed(names, judge, st, Sequential(progress[..n]))
         + if progress[n] == 2 && judge(names[n]).value.status == st then [judge(names[n]).value] else []
  {
    var n := |progress| - 1;
    WorkerShare(names, judge, n, progress[n], st);
    GatherConcat(Files(names, judge, st), Sequential(progress[..n]), SectionsOf(n, progress[n]));
  }

  lemma {:induction false} FiledPermuted(names: seq<string>, judge: Judgement, log: seq<Entry>, other: seq<Entry>)
    requires multiset(log) == multiset(other)
    ensures Checked(log) == Checked(other)
    ensures forall st :: multiset(Filed(names, judge, st, log)) == multiset(Filed(names, judge, st, other))
    ensures forall st :: |Filed(names, judge, st, log)| == |Filed(names, judge, st, other)|
  {
    CountMultiset(IsCheck, log, other);
    forall st
      ensures multiset(Filed(names, judge, st, log)) == multiset(Filed(names, judge, st, other))
      ensures |Filed(names, judge, st, log)| == |Filed(names, judge, st, other)|
    {
      GatherMultiset(Files(names, judge, st), log, other);
      MembersAgree(Filed(names, judge, st, log), Filed(names, judge, st, other));
    }
  }

  /** In every reachable state at least as many candidates are counted as entries are filed. */
  lemma {:induction false} CheckedCoversFiled(names: seq<string>, judge: Judgement, concurrency: int,
                           schedule: seq<Action>)
    requires Exec(TakeoverConfig(names, judge, concurrency), schedule).Some?
    ensures
      var log := Exec(TakeoverConfig(names, judge, concurrency), schedule).value.log;
      Checked(log) >= |Filed(names, judge, Vulnerable, log)| + |Filed(names, judge, Potential, log)|
  {
    var cfg := TakeoverConfig(names, judge, concurrency);
    LogIsProgress(cfg, schedule);
    var s := Exec(cfg, schedule).value;
    var progress := ProgressOf(cfg.sections, s.workers);
    assert Within(names, judge, progress);
    Accounting(names, judge, progress);
    FiledPermuted(names, judge, s.log, Sequential(progress));
  }

  lemma {:induction false} SequentialFiled(names: seq<string>, judge: Judgement, progress: seq<nat>, st: Status)
    requires Complete(names, judge, progress)
    ensures Filed(names, judge, st, Sequential(progress)) == Gather(OfStatus(judge, st), names[..|progress|])
  {
    if progress != [] {
      var n := |progress| - 1;
      SequentialFiled(names, judge, progress[..n], st);
      FiledStep(names, judge, progress, st);
      assert names[..n + 1] == names[..n] + [names[n]];
      GatherConcat(OfStatus(judge, st), names[..n], [names[n]]);
      GatherOne(OfStatus(judge, st), names[n]);
    }
  }

  /** What the counter and the lists hold when the launcher returns. */
  lemma {:induction false} TakeoverAtReturn(names: seq<string>, judge: Judgement, concurrency: int,
                                            schedule: seq<Action>)
    returns (m: nat)
    requires Returns(TakeoverConfig(names, judge, concurrency), schedule)
    ensures m <= |names| && (Cancel !in schedule ==> m == |names|)
    ensures var cfg := TakeoverConfig(names, judge, concurrency);
      forall n | DoneBy(cfg, schedule, n) :: m <= CommittedBy(cfg, schedule, n)
    ensures
      var log := Exec(TakeoverConfig(names, judge, concurrency), schedule).value.log;
      && (forall st :: multiset(Filed(names, judge, st, log)) == multiset(Gather(OfStatus(judge, st), names[..m])))
      && Checked(log) == |Gather(OfStatus(judge, Vulnerable), names[..m])|
                         + |Gather(OfStatus(judge, Potential), names[..m])|
                         + |Gather(OfStatus(judge, PointsToService), names[..m])|
  {
    var cfg := TakeoverConfig(names, judge, concurrency);
    m := AtReturn(cfg, schedule);
    FiledAtReturn(names, judge, cfg.sections[..m], Exec(cfg, schedule).value.log);
  }

  /** A log that is a permutation of the complete work on some names. */
  lemma {:induction false} FiledAtReturn(names: seq<string>, judge: Judgement, progress: seq<nat>, log: seq<Entry>)
    requires Complete(names, judge, progress) && multiset(log) == multiset(Sequential(progress))
    ensures var done := names[..|progress|];
      && (forall st :: multiset(Filed(names, judge, st, log)) == multiset(Gather(OfStatus(judge, st), done)))
      && Checked(log) == |Gather(OfStatus(judge, Vulnerable), done)| + |Gather(OfStatus(judge, Potential), done)|
                         + |Gather(OfStatus(judge, PointsToService), done)|
  {
    Accounting(names, judge, progress);
    FiledPermuted(names, judge, log, Sequential(progress));
    forall st
      ensures Filed(names, judge, st, Sequential(progress)) == Gather(OfStatus(judge, st), names[..|progress|])
    {
      SequentialFiled(names, judge, progress, st);
    }
  }

  // ---- The answer ----

  function SubdomainOf(e: TakeoverEntry): string { e.subdomain }

  /** What `finalizeTakeover` makes of the shared result. */
  ghost predicate Finalized(checked: nat, vulnerable: seq<TakeoverEntry>, potential: seq<TakeoverEntry>,
                            r: TakeoverResult) {
    && r.checked == checked
    && IsSortOf(vulnerable, r.vulnerable, SubdomainOf, StrLe)
    && IsSortOf(potential, r.potential, SubdomainOf, StrLe)
    && r.findings == FindingsFor(|vulnerable|, |potential|)
  }

  function FindingsFor(v: nat, p: nat): seq<(Severity, nat)> {
    if v == 0 && p == 0 then [(Info, 0)]
    else (if v > 0 then [(High, v)] else []) + (if p > 0 then [(Medium, p)] else [])
  }

  method FinalizeTakeover(checked: nat, vulnerable: seq<TakeoverEntry>, potential: seq<TakeoverEntry>)
    returns (r: TakeoverResult)
    ensures Finalized(checked, vulnerable, potential, r)
  {
    StrOrder();
    var vs := Sort(vulnerable, SubdomainOf, StrLe);
    var ps := Sort(potential, SubdomainOf, StrLe);
    MembersAgree(vs, vulnerable);
    MembersAgree(ps, potential);
    var findings := [];
    if |vs| > 0 {
      findings := findings + [(High, |vs|)];
    }
    if |ps| > 0 {
      findings := findings + [(Medium, |ps|)];
    }
    if |findings| == 0 {
      findings := findings + [(Info, 0)];
    }
    r := TakeoverResult(checked, vs, ps, findings);
  }

  /** `r` is an answer DetectTakeovers may give after a schedule. */
  ghost predicate TakeoverAnswer(names: seq<string>, judge: Judgement, concurrency: int,
                                 schedule: seq<Action>, r: TakeoverResult) {
    var cfg := TakeoverConfig(names, judge, concurrency);
    && Returns(cfg, schedule)
    && var log := Exec(cfg, schedule).value.log;
       Finalized(Checked(log), Filed(names, judge, Vulnerable, log), Filed(names, judge, Potential, log), r)
  }

  /** Exactly the entries of a given status of some names, strictly ascending by name. */
  ghost predicate ListsExactly(list: seq<TakeoverEntry>, names: seq<string>, judge: Judgement, st: Status) {
    && (forall e :: e in list <==> e.subdomain in names && judge(e.subdomain) == Some(e) && e.status == st)
    && SortedBy(list, SubdomainOf, StrLe)
    && Distinct(Map(SubdomainOf, list))
  }

  lemma {:induction false} GatherOfStatus(names: seq<string>, judge: Judgement, st: Status)
    requires Distinct(names) && NamesItself(judge)
    ensures var list := Gather(OfStatus(judge, st), names);
      && (forall e :: e in list <==> e.subdomain in names && judge(e.subdomain) == Some(e) && e.status == st)
      && Distinct(list)
  {
    if names != [] {
      GatherOfStatus(names[1..], judge, st);
      assert names[0] !in names[1..];
      assert forall x :: x in names <==> x == names[0] || x in names[1..];
    }
  }

  lemma {:induction false} SortedList(list: seq<TakeoverEntry>, names: seq<string>, judge: Judgement, st: Status)
    requires Distinct(names) && NamesItself(judge)
    requires multiset(list) == multiset(Gather(OfStatus(judge, st), names)) && SortedBy(list, SubdomainOf, StrLe)
    ensures ListsExactly(list, names, judge, st)
  {
    var plain := Gather(OfStatus(judge, st), names);
    GatherOfStatus(names, judge, st);
    MembersAgree(list, plain);
    SortKeepsDistinct(plain, list);
    forall i, j | 0 <= i < j < |list| ensures SubdomainOf(list[i]) != SubdomainOf(list[j]) {
      assert list[i] in list && list[j] in list;
    }
  }

  /**
    At return a prefix of the names has been judged, all of them unless the context was done.  The
    two lists hold exactly its vulnerable and its potential names, strictly ascending; Checked is
    their number together with that of the names that merely point to a service.
  */
  lemma {:induction false} TakeoverReports(names: seq<string>, judge: Judgement, concurrency: int,
                        schedule: seq<Action>, r: TakeoverResult) returns (m: nat)
    requires Distinct(names) && NamesItself(judge)
    requires TakeoverAnswer(names, judge, concurrency, schedule, r)
    ensures m <= |names| && (Cancel !in schedule ==> m == |names|)
    ensures ListsExactly(r.vulnerable, names[..m], judge, Vulnerable)
    ensures ListsExactly(r.potential, names[..m], judge, Potential)
    ensures forall v, p | v in r.vulnerable && p in r.potential :: v.subdomain != p.subdomain
    ensures r.checked == |r.vulnerable| + |r.potential| + |Gather(OfStatus(judge, PointsToService), names[..m])|
    ensures r.checked == |Gather(judge, names[..m])|
    ensures var cfg := TakeoverConfig(names, judge, concurrency);
      forall n | DoneBy(cfg, schedule, n) :: m <= CommittedBy(cfg, schedule, n)
  {
    m := TakeoverAtReturn(names, judge, concurrency, schedule);
    SortedList(r.vulnerable, names[..m], judge, Vulnerable);
    SortedList(r.potential, names[..m], judge, Potential);
    MembersAgree(r.vulnerable, Gather(OfStatus(judge, Vulnerable), names[..m]));
    MembersAgree(r.potential, Gather(OfStatus(judge, Potential), names[..m]));
    PartsOfVerdicts(names[..m], judge);
  }

  lemma {:induction false} PartsOfVerdicts(names: seq<string>, judge: Judgement)
    ensures |Gather(judge, names)| == |Gather(OfStatus(judge, Vulnerable), names)|
            + |Gather(OfStatus(judge, Potential), names)| + |Gather(OfStatus(judge, PointsToService), names)|
  {
    if names != [] {
      PartsOfVerdicts(names[1..], judge);
    }
  }

  /** Which names are candidates: the inputs, trimmed and lower-cased, that are not blank. */
  lemma {:induction false} TakeoverCandidates(candidates: seq<string>, lower: string -> string, n: string)
    ensures n in FirstOccurrences(Map(Normaliser(lower), candidates)) <==>
            n != "" && exists i | 0 <= i < |candidates| :: lower(TrimSpace(candidates[i])) == n
  {
    var all := Map(Normaliser(lower), candidates);
    OccurrencesMean(all);
    assert forall i | 0 <= i < |all| :: all[i] == lower(TrimSpace(candidates[i]));
  }

  /** The names DetectTakeovers judges are distinct and at most 400, and its verdicts name them. */
  lemma {:induction false} TakeoverInputs(candidates: seq<string>, lower: string -> string, net: Network,
                                          sigs: seq<Signature>)
    ensures Distinct(Targets(candidates, lower))
    ensures var all := FirstOccurrences(Map(Normaliser(lower), candidates));
      |Targets(candidates, lower)| == if |all| < 400 then |all| else 400
    ensures Targets(candidates, lower) <= FirstOccurrences(Map(Normaliser(lower), candidates))
    ensures NamesItself(Verdict(net, sigs))
  {
    OccurrencesMean(Map(Normaliser(lower), candidates));
  }

  /** A run whose context is done before the first step reports nothing. */
  lemma {:induction false} TakeoverNothing(names: seq<string>, judge: Judgement, concurrency: int,
                                           schedule: seq<Action>, r: TakeoverResult)
    requires Distinct(names) && NamesItself(judge) && TakeoverAnswer(names, judge, concurrency, schedule, r)
    requires schedule != [] && schedule[0] == Cancel
    ensures r == TakeoverResult(0, [], [], [(Info, 0)])
  {
    var m := TakeoverReports(names, judge, concurrency, schedule, r);
    DoneAtOnce(TakeoverConfig(names, judge, concurrency), schedule);
    assert names[..m] == [];
    TakeoverFindings(names, judge, concurrency, schedule, r);
  }

  /** One finding for each list that is not empty, the graver first, or the note that there is none. */
  lemma {:induction false} TakeoverFindings(names: seq<string>, judge: Judgement, concurrency: int,
                                            schedule: seq<Action>, r: TakeoverResult)
    requires TakeoverAnswer(names, judge, concurrency, schedule, r)
    ensures var v, p := |r.vulnerable|, |r.potential|;
      && (v > 0 && p > 0 ==> r.findings == [(High, v), (Medium, p)])
      && (v > 0 && p == 0 ==> r.findings == [(High, v)])
      && (v == 0 && p > 0 ==> r.findings == [(Medium, p)])
      && (v == 0 && p == 0 ==> r.findings == [(Info, 0)])
  {
    var log := Exec(TakeoverConfig(names, judge, concurrency), schedule).value.log;
    MembersAgree(r.vulnerable, Filed(names, judge, Vulnerable, log));
    MembersAgree(r.potential, Filed(names, judge, Potential, log));
  }

  /** At most `concurrency` candidates are looked at at a time, 50 if that is not positive. */
  lemma {:induction false} TakeoverInFlight(names: seq<string>, judge: Judgement, concurrency: int,
                                            schedule: seq<Action>)
    requires Exec(TakeoverConfig(names, judge, concurrency), schedule).Some?
    ensures InFlight(Exec(TakeoverConfig(names, judge, concurrency), schedule).value)
            <= if concurrency > 0 then concurrency else 50
  {
    PoolSafety(TakeoverConfig(names, judge, concurrency), schedule);
  }

  // ---- Cancelled runs ----

  /**
    What a cancelled context takes away: pages are cut short after some number of characters, and
    names that resolve seem not to.  The CNAME query does not look at the context.
  */
  datatype Loss = Loss(received: string -> nat, unanswered: string -> bool)

  function Seen(net: Network, loss: Loss): Network {
    Network(net.cname, (n: string) => Take(net.body(n), loss.received(n)),
            (n: string) => net.resolves(n) && !loss.unanswered(n))
  }

  predicate Intact(net: Network, loss: Loss, n: string) {
    loss.received(n) >= |net.body(n)| && !loss.unanswered(n)
  }

  /** Only workers that were not through when the context was done lose anything. */
  ghost predicate LossByCancel(names: seq<string>, schedule: seq<Action>, net: Network, loss: Loss) {
    forall i | 0 <= i < |names| :: Intact(net, loss, names[i]) || Interrupted(schedule, i)
  }

  /** The fingerprint of the service that a name points to is in its page. */
  predicate Confirmed(net: Network, sigs: seq<Signature>, n: string) {
    var fingerprint := FirstMatch(sigs, net.cname(n)).1;
    fingerprint != "" && Contains(net.body(n), fingerprint)
  }

  /** The loss hides that a name resolves, or the fingerprint in its page. */
  predicate Misled(net: Network, sigs: seq<Signature>, loss: Loss, n: string) {
    || (net.resolves(n) && loss.unanswered(n))
    || (Confirmed(net, sigs, n) && !Confirmed(Seen(net, loss), sigs, n))
  }

  lemma {:induction false} ContainsInPart(s: string, k: nat, p: string)
    ensures Contains(Take(s, k), p) ==> Contains(s, p)
  {
    var t := Take(s, k);
    ContainsIff(t, p);
    ContainsIff(s, p);
    forall i: nat | OccursAt(t, p, i) ensures OccursAt(s, p, i) {
      assert s[i..i + |p|] == t[i..i + |p|];
    }
  }

  ghost predicate UnderLoss(net: Network, sigs: seq<Signature>, loss: Loss, n: string) {
    var seen, whole := Judge(Seen(net, loss), sigs, n), Judge(net, sigs, n);
    && (seen.Some? <==> whole.Some?)
    && (seen.Some? ==> seen.value.service == whole.value.service && seen.value.cname == whole.value.cname)
    && (seen.Some? && seen.value.status == Vulnerable ==> seen == whole)
    && (seen.Some? && seen.value.status == Potential ==> (seen == whole <==> !Misled(net, sigs, loss, n)))
    && (Intact(net, loss, n) ==> seen == whole)
  }

  /**
    A name has a verdict with a loss exactly if it has one without, for the same service.  A
    confirmed takeover is real; a potential one is real exactly if the loss did not mislead.
  */
  lemma {:induction false} VerdictUnderLoss(net: Network, sigs: seq<Signature>, loss: Loss, n: string)
    ensures UnderLoss(net, sigs, loss, n)
  {
    var (service, fingerprint) := FirstMatch(sigs, net.cname(n));
    ContainsInPart(net.body(n), loss.received(n), fingerprint);
    EntryUnderLoss(n, net.cname(n), service, fingerprint, Confirmed(Seen(net, loss), sigs, n), Confirmed(net, sigs, n),
                   Seen(net, loss).resolves(n), net.resolves(n));
  }

  /** An entry from what was seen of the page and the lookup, against the one from all of it. */
  lemma {:induction false} EntryUnderLoss(fqdn: string, cname: string, service: string, fingerprint: string,
                                          seen: bool, confirmed: bool, answered: bool, resolves: bool)
    requires (seen ==> confirmed) && (answered ==> resolves)
    ensures var e := EntryFor(fqdn, cname, service, fingerprint, seen, answered);
      var whole := EntryFor(fqdn, cname, service, fingerprint, confirmed, resolves);
      && (e.status == Vulnerable ==> e == whole)
      && (e.status == Potential ==> (e == whole <==> confirmed == seen && answered == resolves))
  {
  }

  /** What a list of one status says about the network, if its names were judged under a loss. */
  lemma {:induction false} ListUnderLoss(list: seq<TakeoverEntry>, names: seq<string>, net: Network,
                                         sigs: seq<Signature>, loss: Loss, st: Status)
    requires ListsExactly(list, names, Verdict(Seen(net, loss), sigs), st)
    ensures st == Vulnerable ==> forall e | e in list :: Judge(net, sigs, e.subdomain) == Some(e)
    ensures st == Potential ==>
      forall e | e in list :: Judge(net, sigs, e.subdomain) == Some(e) <==> !Misled(net, sigs, loss, e.subdomain)
  {
    forall e | e in list
      ensures UnderLoss(net, sigs, loss, e.subdomain) && Judge(Seen(net, loss), sigs, e.subdomain) == Some(e)
    {
      VerdictUnderLoss(net, sigs, loss, e.subdomain);
      assert Verdict(Seen(net, loss), sigs)(e.subdomain) == Some(e);
    }
  }

  lemma {:induction false} NumberUnderLoss(names: seq<string>, net: Network, sigs: seq<Signature>, loss: Loss)
    ensures |Gather(Verdict(Seen(net, loss), sigs), names)| == |Gather(Verdict(net, sigs), names)|
  {
    if names != [] {
      NumberUnderLoss(names[1..], net, sigs, loss);
      VerdictUnderLoss(net, sigs, loss, names[0]);
    }
  }

  lemma {:induction false} VerdictsInTime(names: seq<string>, net: Network, sigs: seq<Signature>, loss: Loss,
                                          schedule: seq<Action>)
    requires LossByCancel(names, schedule, net, loss)
    ensures forall i | 0 <= i < |names| && !Interrupted(schedule, i) ::
              Judge(Seen(net, loss), sigs, names[i]) == Judge(net, sigs, names[i])
  {
    forall i | 0 <= i < |names| && !Interrupted(schedule, i)
      ensures Judge(Seen(net, loss), sigs, names[i]) == Judge(net, sigs, names[i])
    {
      VerdictUnderLoss(net, sigs, loss, names[i]);
    }
  }

  /**
    A cancelled run under losses: Checked counts the names of a prefix that point to a service; the
    confirmed takeovers are real; the list of potential ones is right exactly if no name on it was
    misjudged for its loss; and workers that were through in time judged right in any case.
  */
  lemma {:induction false} TakeoverUnderCancel(
    names: seq<string>, net: Network, sigs: seq<Signature>, loss: Loss, concurrency: int, schedule: seq<Action>,
    r: TakeoverResult) returns (m: nat)
    requires Distinct(names) && LossByCancel(names, schedule, net, loss)
    requires TakeoverAnswer(names, Verdict(Seen(net, loss), sigs), concurrency, schedule, r)
    ensures m <= |names| && (Cancel !in schedule ==> m == |names|)
    ensures ListsExactly(r.vulnerable, names[..m], Verdict(Seen(net, loss), sigs), Vulnerable)
    ensures ListsExactly(r.potential, names[..m], Verdict(Seen(net, loss), sigs), Potential)
    ensures forall e | e in r.vulnerable :: Judge(net, sigs, e.subdomain) == Some(e)
    ensures forall e | e in r.potential ::
              Judge(net, sigs, e.subdomain) == Some(e) <==> !Misled(net, sigs, loss, e.subdomain)
    ensures forall i | 0 <= i < |names| && !Interrupted(schedule, i) ::
              Judge(Seen(net, loss), sigs, names[i]) == Judge(net, sigs, names[i])
    ensures r.checked == |Gather(Verdict(net, sigs), names[..m])|
  {
    var seen := Verdict(Seen(net, loss), sigs);
    TakeoverInputs(names, (n: string) => n, Seen(net, loss), sigs);
    m := TakeoverReports(names, seen, concurrency, schedule, r);
    NumberUnderLoss(names[..m], net, sigs, loss);
    ListUnderLoss(r.vulnerable, names[..m], net, sigs, loss, Vulnerable);
    ListUnderLoss(r.potential, names[..m], net, sigs, loss, Potential);
    VerdictsInTime(names, net, sigs, loss, schedule);
  }

  /** A page cut before its fingerprint and a lookup that fails: a confirmed takeover is filed as potential. */
  lemma {:induction false} FalsePotential()
    ensures var net := Network((n: string) => "x.service", (n: string) => "gone", (n: string) => true);
      var sigs := [Signature("Service", ["service"], "gone")];
      var loss := Loss((n: string) => 0, (n: string) => true);
      && Judge(net, sigs, "a").Some? && Judge(net, sigs, "a").value.status == Vulnerable
      && Judge(Seen(net, loss), sigs, "a").Some? && Judge(Seen(net, loss), sigs, "a").value.status == Potential
      && Misled(net, sigs, loss, "a")
  {
    var net := Network((n: string) => "x.service", (n: string) => "gone", (n: string) => true);
    var sigs := [Signature("Service", ["service"], "gone")];
    var loss := Loss((n: string) => 0, (n: string) => true);
    ContainsIff("x.service", "service");
    assert OccursAt("x.service", "service", 2);
    assert sigs[0].patterns[0] == "service" && Matches(sigs[0], "x.service");
    ContainsIff("gone", "gone");
    assert OccursAt("gone", "gone", 0);
    assert Seen(net, loss).body("a") == "";
  }
}
