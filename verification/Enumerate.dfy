/**
  The two producers of `EnumerateSubdomains`: `SubdomainScan`, whose workers append only names that
  resolve, and `resolveHosts`, whose workers append every name; and the run that merges both.
*/
module Enumerate {
  import opened Wrappers
  import opened Sorting
  import opened Text
  import opened Pool
  import opened SubEnum

  type Resolver = string -> seq<string>

  // ---- The word list ----

  /** A word as SubdomainScan uses it. */
  function Clean(lower: string -> string, w: string): string { TrimSpace(lower(w)) }

  predicate Usable(w: string) { w != "" && !HasPrefix(w, "#") }

  function UsableWords(lower: string -> string, words: seq<string>): seq<string> {
    if words == [] then []
    else (if Usable(Clean(lower, words[0])) then [Clean(lower, words[0])] else []) + UsableWords(lower, words[1..])
  }

  predicate UsableTrimmed(w: string) { Usable(TrimSpace(w)) }

  method CountUsableWords(words: seq<string>) returns (n: nat)
    ensures n == CountIf(UsableTrimmed, words)
  {
    n := 0;
    for i := 0 to |words|
      invariant n + CountIf(UsableTrimmed, words[i..]) == CountIf(UsableTrimmed, words)
    {
      var w := TrimSpace(words[i]);
      if w != "" && !HasPrefix(w, "#") {
        n := n + 1;
      }
    }
  }

  // ---- SubdomainScan ----

  /** The names SubdomainScan tries. */
  function Fqdns(domain: string, words: seq<string>): (names: seq<string>)
    ensures |names| == |words|
  {
    if words == [] then [] else [words[0] + "." + domain] + Fqdns(domain, words[1..])
  }

  /** A name is tried exactly if it is a word, lower-cased and trimmed, not blank and no comment, before the domain. */
  lemma {:induction false} TriedMeans(lower: string -> string, domain: string, words: seq<string>, n: string)
    ensures n in Fqdns(domain, UsableWords(lower, words)) <==>
            exists i | 0 <= i < |words| :: Tries(lower, domain, words[i], n)
  {
    if words != [] {
      TriedMeans(lower, domain, words[1..], n);
      assert forall i | 1 <= i < |words| :: words[i] == words[1..][i - 1];
      TriedFirst(lower, domain, words, n);
    }
  }

  lemma {:induction false} TriedFirst(lower: string -> string, domain: string, words: seq<string>, n: string)
    requires words != []
    ensures n in Fqdns(domain, UsableWords(lower, words)) <==>
            Tries(lower, domain, words[0], n) || n in Fqdns(domain, UsableWords(lower, words[1..]))
  {
    var w, rest := TrimSpace(lower(words[0])), UsableWords(lower, words[1..]);
    assert HasPrefix(w, "#") <==> w != "" && w[0] == '#';
    if Usable(w) {
      assert ([w] + rest)[1..] == rest;
    } else {
      assert [] + rest == rest;
    }
  }

  predicate Tries(lower: string -> string, domain: string, word: string, n: string) {
    var w := TrimSpace(lower(word));
    w != "" && w[0] != '#' && n == w + "." + domain
  }

  /** BruteTested is the number of names tried, as long as lower-casing keeps usable words usable. */
  lemma {:induction false} CountsWhatIsTried(lower: string -> string, domain: string, words: seq<string>)
    requires forall w :: Usable(Clean(lower, w)) <==> UsableTrimmed(w)
    ensures CountIf(UsableTrimmed, words) == |Fqdns(domain, UsableWords(lower, words))|
  {
    if words != [] {
      CountsWhatIsTried(lower, domain, words[1..]);
    }
  }

  /**
    What the workers learn: for every name the addresses it really has, or none if the context was
    done before the worker was through.  Two workers for one name may learn different things.
  */
  ghost predicate Learned(names: seq<string>, resolve: Resolver, schedule: seq<Action>, answers: seq<SubResult>) {
    && |answers| == |names|
    && forall i | 0 <= i < |names| :: LearnedOne(names[i], resolve, answers[i], Interrupted(schedule, i))
  }

  predicate LearnedOne(name: string, resolve: Resolver, answer: SubResult, interrupted: bool) {
    answer.subdomain == name && (answer.ips == resolve(name) || (interrupted && answer.ips == []))
  }

  /** What a worker of SubdomainScan appends: nothing if its name did not resolve. */
  function Found(r: SubResult): Option<SubResult> { if r.ips == [] then None else Some(r) }

  function SectionsFor(r: SubResult): nat { if r.ips == [] then 0 else 1 }

  function BruteConfig(answers: seq<SubResult>, concurrency: int): Config {
    Config(Map(SectionsFor, answers), EffectiveConcurrency(concurrency, 50), true)
  }

  function FoundEffect(answers: seq<SubResult>): Entry -> Option<SubResult> {
    (e: Entry) => if e.worker < |answers| then Found(answers[e.worker]) else None
  }

  function ResultName(r: SubResult): string { r.subdomain }

  /** `out` is a list SubdomainScan may return after a schedule in which its workers got these answers. */
  ghost predicate BruteReturns(answers: seq<SubResult>, concurrency: int, schedule: seq<Action>, out: seq<SubResult>) {
    var cfg := BruteConfig(answers, concurrency);
    && Returns(cfg, schedule)
    && IsSortOf(Gather(FoundEffect(answers), Exec(cfg, schedule).value.log), out, ResultName, StrLe)
  }

  lemma {:induction false} SequentialFound(answers: seq<SubResult>, progress: seq<nat>)
    requires |progress| <= |answers|
    requires forall i | 0 <= i < |progress| :: progress[i] == SectionsFor(answers[i])
    ensures Gather(FoundEffect(answers), Sequential(progress)) == Gather(Found, answers[..|progress|])
  {
    if progress != [] {
      var n := |progress| - 1;
      SequentialFound(answers, progress[..n]);
      assert SectionsOf(n, 1) == [Entry(n, 0)] && SectionsOf(n, 0) == [];
      GatherConcat(FoundEffect(answers), Sequential(progress[..n]), SectionsOf(n, progress[n]));
      GatherOne(FoundEffect(answers), Entry(n, 0));
      assert answers[..n + 1] == answers[..n] + [answers[n]];
      GatherConcat(Found, answers[..n], [answers[n]]);
      GatherOne(Found, answers[n]);
    }
  }

  /** A brute-force scan returns those answers of a prefix that have addresses, sorted by name. */
  lemma {:induction false} BruteFinds(answers: seq<SubResult>, concurrency: int, schedule: seq<Action>,
                                      out: seq<SubResult>)
    returns (m: nat)
    requires BruteReturns(answers, concurrency, schedule, out)
    ensures m <= |answers| && (Cancel !in schedule ==> m == |answers|)
    ensures multiset(out) == multiset(Gather(Found, answers[..m])) && SortedBy(out, ResultName, StrLe)
    ensures var cfg := BruteConfig(answers, concurrency);
      forall n | DoneBy(cfg, schedule, n) :: m <= CommittedBy(cfg, schedule, n)
  {
    var cfg := BruteConfig(answers, concurrency);
    m := AtReturn(cfg, schedule);
    var done := cfg.sections[..m];
    GatherMultiset(FoundEffect(answers), Exec(cfg, schedule).value.log, Sequential(done));
    SequentialFound(answers, done);
  }

  lemma {:induction false} FoundMembers(answers: seq<SubResult>, r: SubResult)
    ensures r in Gather(Found, answers) <==> r in answers && r.ips != []
  {
    if answers != [] {
      FoundMembers(answers[1..], r);
    }
  }

  // ---- resolveHosts ----

  function PassiveConfig(answers: seq<SubResult>, concurrency: int): Config {
    AppendConfig(|answers|, EffectiveConcurrency(concurrency, 50), true)
  }

  /** `out` is the list resolveHosts returns after a schedule, in the order the workers finished. */
  ghost predicate PassiveReturns(answers: seq<SubResult>, concurrency: int, schedule: seq<Action>,
                                 out: seq<SubResult>) {
    var cfg := PassiveConfig(answers, concurrency);
    Returns(cfg, schedule) && out == Results(answers, Identity<SubResult>, cfg, schedule)
  }

  /** resolveHosts returns one answer for every name of a prefix, resolved or not, permuted. */
  lemma {:induction false} PassiveFinds(answers: seq<SubResult>, concurrency: int, schedule: seq<Action>,
                                        out: seq<SubResult>) returns (m: nat)
    requires PassiveReturns(answers, concurrency, schedule, out)
    ensures m <= |answers| && (Cancel !in schedule ==> m == |answers|)
    ensures multiset(out) == multiset(answers[..m])
    ensures var cfg := PassiveConfig(answers, concurrency);
      forall n | DoneBy(cfg, schedule, n) :: m <= CommittedBy(cfg, schedule, n)
  {
    m := ResultsArePrefix(answers, Identity<SubResult>, EffectiveConcurrency(concurrency, 50), true, schedule);
    assert Map(Identity<SubResult>, answers[..m]) == answers[..m];
  }

  /** Neither pool looks anything up if its context is done before the first step. */
  lemma {:induction false} NothingLookedUp(answers: seq<SubResult>, concurrency: int, schedule: seq<Action>,
                                           out: seq<SubResult>)
    requires schedule != [] && schedule[0] == Cancel
    requires BruteReturns(answers, concurrency, schedule, out) || PassiveReturns(answers, concurrency, schedule, out)
    ensures out == []
  {
    if BruteReturns(answers, concurrency, schedule, out) {
      var m := BruteFinds(answers, concurrency, schedule, out);
      DoneAtOnce(BruteConfig(answers, concurrency), schedule);
      MembersAgree(out, Gather(Found, answers[..m]));
    } else {
      var m := PassiveFinds(answers, concurrency, schedule, out);
      DoneAtOnce(PassiveConfig(answers, concurrency), schedule);
      MembersAgree(out, answers[..m]);
    }
  }

  /** At most `concurrency` lookups of each kind are in flight, 50 if that is not positive. */
  lemma {:induction false} LookupsInFlight(answers: seq<SubResult>, concurrency: int, schedule: seq<Action>)
    ensures Exec(BruteConfig(answers, concurrency), schedule).Some? ==>
              InFlight(Exec(BruteConfig(answers, concurrency), schedule).value)
              <= if concurrency > 0 then concurrency else 50
    ensures Exec(PassiveConfig(answers, concurrency), schedule).Some? ==>
              InFlight(Exec(PassiveConfig(answers, concurrency), schedule).value)
              <= if concurrency > 0 then concurrency else 50
  {
    if Exec(BruteConfig(answers, concurrency), schedule).Some? {
      PoolSafety(BruteConfig(answers, concurrency), schedule);
    }
    if Exec(PassiveConfig(answers, concurrency), schedule).Some? {
      PoolSafety(PassiveConfig(answers, concurrency), schedule);
    }
  }

  // ---- EnumerateSubdomains ----

  function BruteCall(r: SubResult): Call { Call(r.subdomain, r.ips, "brute", true) }

  function PassiveCall(r: SubResult): Call { Call(r.subdomain, r.ips, "passive", r.ips != []) }

  /** Names to try, names known to certificate logs, and the answers that each kind of lookup gets. */
  datatype Job = Job(mode: string, tried: seq<string>, known: seq<string>, brute: Resolver, passive: Resolver)

  function Mode(job: Job): string { if job.mode == "" then "both" else job.mode }

  predicate DoesBrute(job: Job) { Mode(job) == "brute" || Mode(job) == "both" }

  predicate DoesPassive(job: Job) { Mode(job) == "passive" || Mode(job) == "both" }

  /**
    One run: whether the certificate logs could be fetched, how each pool was scheduled, what its
    workers learned and what it returned, and how the two goroutines' calls of `add` interleaved.
  */
  datatype Execution = Execution(
    fetched: bool,
    bruteSchedule: seq<Action>, bruteAnswers: seq<SubResult>, brute: seq<SubResult>,
    passiveSchedule: seq<Action>, passiveAnswers: seq<SubResult>, passive: seq<SubResult>,
    calls: seq<Call>)

  /** The names that resolveHosts is given; a fetch that is cancelled gives none. */
  function KnownNames(job: Job, x: Execution): seq<string> { if x.fetched then job.known else [] }

  ghost predicate Executes(job: Job, concurrency: int, x: Execution) {
    && Learned(job.tried, job.brute, x.bruteSchedule, x.bruteAnswers)
    && Learned(KnownNames(job, x), job.passive, x.passiveSchedule, x.passiveAnswers)
    && (if DoesBrute(job) then BruteReturns(x.bruteAnswers, concurrency, x.bruteSchedule, x.brute) else x.brute == [])
    && (if DoesPassive(job) then PassiveReturns(x.passiveAnswers, concurrency, x.passiveSchedule, x.passive)
        else x.passive == [])
    && multiset(x.calls) == multiset(Map(BruteCall, x.brute) + Map(PassiveCall, x.passive))
  }

  ghost predicate Uncancelled(x: Execution) {
    x.fetched && Cancel !in x.bruteSchedule && Cancel !in x.passiveSchedule
  }

  /** Without a cancellation the answers are the real ones. */
  lemma {:induction false} LearnedAll(names: seq<string>, resolve: Resolver, schedule: seq<Action>,
                                      answers: seq<SubResult>, r: SubResult)
    requires Learned(names, resolve, schedule, answers)
    ensures r in answers ==> r.subdomain in names && (r.ips == resolve(r.subdomain) || r.ips == [])
    ensures Cancel !in schedule ==> (r in answers <==> r.subdomain in names && r.ips == resolve(r.subdomain))
  {
    if r in answers {
      var i :| 0 <= i < |answers| && answers[i] == r;
      assert LearnedOne(names[i], resolve, answers[i], Interrupted(schedule, i));
    }
    if Cancel !in schedule && r.subdomain in names {
      var i :| 0 <= i < |names| && names[i] == r.subdomain;
      assert LearnedOne(names[i], resolve, answers[i], Interrupted(schedule, i));
      assert r.ips == resolve(r.subdomain) ==> answers[i] == r;
    }
  }

  function ResultIn(c: Call): SubResult { SubResult(c.fqdn, c.ips) }

  /** A call made for a result carries the result. */
  lemma {:induction false} CallMembers(f: SubResult -> Call, xs: seq<SubResult>, c: Call)
    requires forall r :: ResultIn(f(r)) == r
    ensures c in Map(f, xs) <==> ResultIn(c) in xs && c == f(ResultIn(c))
  {
    if xs != [] {
      CallMembers(f, xs[1..], c);
      assert ResultIn(c) in xs <==> ResultIn(c) == xs[0] || ResultIn(c) in xs[1..];
    }
  }

  ghost predicate BruteDue(job: Job, c: Call) {
    && DoesBrute(job) && c.fqdn in job.tried && job.brute(c.fqdn) != []
    && c == Call(c.fqdn, job.brute(c.fqdn), "brute", true)
  }

  ghost predicate PassiveDue(job: Job, c: Call) {
    && DoesPassive(job) && c.fqdn in job.known
    && c == Call(c.fqdn, job.passive(c.fqdn), "passive", job.passive(c.fqdn) != [])
  }

  /** The calls of `add` that an uncancelled run makes. */
  ghost predicate Due(job: Job, c: Call) { BruteDue(job, c) || PassiveDue(job, c) }

  /** The call for a name of the certificate logs whose lookup failed. */
  ghost predicate Unresolved(job: Job, c: Call) {
    DoesPassive(job) && c.fqdn in job.known && c == Call(c.fqdn, [], "passive", false)
  }

  lemma {:induction false} InPrefix(answers: seq<SubResult>, m: nat, r: SubResult)
    requires m <= |answers|
    ensures r in answers[..m] ==> r in answers
    ensures m == |answers| ==> (r in answers[..m] <==> r in answers)
  {
    assert m == |answers| ==> answers[..m] == answers;
  }

  lemma {:induction false} BruteCalls(job: Job, concurrency: int, x: Execution, c: Call)
    requires Executes(job, concurrency, x)
    ensures c in Map(BruteCall, x.brute) ==> BruteDue(job, c)
    ensures Uncancelled(x) && BruteDue(job, c) ==> c in Map(BruteCall, x.brute)
  {
    CallMembers(BruteCall, x.brute, c);
    if DoesBrute(job) {
      var m := BruteFinds(x.bruteAnswers, concurrency, x.bruteSchedule, x.brute);
      MembersAgree(x.brute, Gather(Found, x.bruteAnswers[..m]));
      FoundMembers(x.bruteAnswers[..m], ResultIn(c));
      InPrefix(x.bruteAnswers, m, ResultIn(c));
      LearnedAll(job.tried, job.brute, x.bruteSchedule, x.bruteAnswers, ResultIn(c));
    }
  }

  lemma {:induction false} PassiveCalls(job: Job, concurrency: int, x: Execution, c: Call)
    requires Executes(job, concurrency, x)
    ensures c in Map(PassiveCall, x.passive) ==> PassiveDue(job, c) || Unresolved(job, c)
    ensures Uncancelled(x) ==> (c in Map(PassiveCall, x.passive) <==> PassiveDue(job, c))
  {
    CallMembers(PassiveCall, x.passive, c);
    if DoesPassive(job) {
      var m := PassiveFinds(x.passiveAnswers, concurrency, x.passiveSchedule, x.passive);
      MembersAgree(x.passive, x.passiveAnswers[..m]);
      InPrefix(x.passiveAnswers, m, ResultIn(c));
      LearnedAll(KnownNames(job, x), job.passive, x.passiveSchedule, x.passiveAnswers, ResultIn(c));
    }
  }

  /**
    Every run makes only calls that are due, but for names it failed to resolve; every uncancelled
    run makes exactly those that are due.
  */
  lemma {:induction false} CallsAreDue(job: Job, concurrency: int, x: Execution)
    requires Executes(job, concurrency, x)
    ensures forall c :: c in x.calls ==> Due(job, c) || Unresolved(job, c)
    ensures Uncancelled(x) ==> forall c :: c in x.calls <==> Due(job, c)
  {
    var bs, ps := Map(BruteCall, x.brute), Map(PassiveCall, x.passive);
    MembersAgree(x.calls, bs + ps);
    forall c
      ensures c in x.calls ==> Due(job, c) || Unresolved(job, c)
      ensures Uncancelled(x) ==> (c in x.calls <==> Due(job, c))
    {
      BruteCalls(job, concurrency, x, c);
      PassiveCalls(job, concurrency, x, c);
      InConcat(bs, ps, c);
    }
  }

  lemma {:induction false} InConcat(a: seq<Call>, b: seq<Call>, c: Call)
    ensures c in a + b <==> c in a || c in b
  {
  }

  /** Whatever the schedules of both pools and the interleaving of the merge, the answer is the same. */
  lemma {:induction false} EnumerationErasesSchedule(job: Job, concurrency: int, x: Execution, y: Execution,
                                                     entries: seq<SubEntry>, other: seq<SubEntry>)
    requires Executes(job, concurrency, x) && Uncancelled(x) && Tabulates(MergeAll(x.calls), entries)
    requires Executes(job, concurrency, y) && Uncancelled(y) && Tabulates(MergeAll(y.calls), other)
    ensures entries == other
  {
    CallsAreDue(job, concurrency, x);
    CallsAreDue(job, concurrency, y);
    MergeAnswers(x.calls, entries);
    MergeAnswers(y.calls, other);
    MergeConfluence(x.calls, y.calls, entries, other);
  }

  ghost predicate ListedBy(job: Job, n: string, source: string) {
    || (source == "brute" && job.mode in {"", "both", "brute"} && n in job.tried && job.brute(n) != [])
    || (source == "passive" && job.mode in {"", "both", "passive"} && n in job.known)
  }

  ghost predicate Resolves(job: Job, n: string, ip: string) {
    || (ListedBy(job, n, "brute") && ip in job.brute(n))
    || (ListedBy(job, n, "passive") && ip in job.passive(n))
  }

  /**
    The answer, spelled out: strictly ascending names; a name is listed exactly if a source lists it;
    its addresses are those its sources resolve it to, its sources exactly the ones that list it, both
    strictly ascending; and it is marked resolved exactly if it has an address.
  */
  lemma {:induction false} EnumerationMeans(job: Job, concurrency: int, x: Execution, entries: seq<SubEntry>)
    requires Executes(job, concurrency, x) && Uncancelled(x) && Tabulates(MergeAll(x.calls), entries)
    ensures StrictlyAscending(Map(NameOf, entries))
    ensures forall n :: n in Map(NameOf, entries) <==> ListedBy(job, n, "brute") || ListedBy(job, n, "passive")
    ensures forall e | e in entries :: StrictlyAscending(e.ips) && StrictlyAscending(e.sources)
    ensures forall e | e in entries :: forall ip :: ip in e.ips <==> Resolves(job, e.subdomain, ip)
    ensures forall e | e in entries :: forall s :: s in e.sources <==> ListedBy(job, e.subdomain, s)
    ensures forall e | e in entries :: e.resolved <==> e.ips != []
  {
    CallsAreDue(job, concurrency, x);
    MergeAnswers(x.calls, entries);
    forall n ensures n in Map(NameOf, entries) <==> ListedBy(job, n, "brute") || ListedBy(job, n, "passive") {
      DueNames(job, x.calls, n);
    }
    forall e | e in entries
      ensures forall ip :: ip in e.ips <==> Resolves(job, e.subdomain, ip)
      ensures forall s :: s in e.sources <==> ListedBy(job, e.subdomain, s)
      ensures e.resolved <==> e.ips != []
    {
      EntryListed(entries, e);
      DueNames(job, x.calls, e.subdomain);
      DueFacts(job, x.calls, e);
    }
  }

  lemma {:induction false} EntryListed(entries: seq<SubEntry>, e: SubEntry)
    requires e in entries
    ensures e.subdomain in Map(NameOf, entries)
  {
    var i :| 0 <= i < |entries| && entries[i] == e;
    assert Map(NameOf, entries)[i] == e.subdomain;
  }

  lemma {:induction false} DueNames(job: Job, calls: seq<Call>, n: string)
    requires forall c :: c in calls <==> Due(job, c)
    ensures HasName(calls, n) <==> ListedBy(job, n, "brute") || ListedBy(job, n, "passive")
    ensures forall s :: HasSource(calls, n, s) <==> ListedBy(job, n, s)
  {
    DueCall(job, calls, Call(n, job.brute(n), "brute", true));
    DueCall(job, calls, Call(n, job.passive(n), "passive", job.passive(n) != []));
    forall i | 0 <= i < |calls| ensures Due(job, calls[i]) {
      assert calls[i] in calls;
    }
  }

  lemma {:induction false} DueCall(job: Job, calls: seq<Call>, c: Call)
    requires forall d :: d in calls <==> Due(job, d)
    ensures Due(job, c) ==> exists i | 0 <= i < |calls| :: calls[i] == c
  {
    assert Due(job, c) ==> c in calls;
  }

  lemma {:induction false} DueFacts(job: Job, calls: seq<Call>, e: SubEntry)
    requires forall c :: c in calls <==> Due(job, c)
    requires HasName(calls, e.subdomain) && Unions(e, calls)
    ensures forall ip :: ip in e.ips <==> Resolves(job, e.subdomain, ip)
    ensures e.resolved <==> e.ips != []
  {
    var n := e.subdomain;
    DueCall(job, calls, Call(n, job.brute(n), "brute", true));
    DueCall(job, calls, Call(n, job.passive(n), "passive", job.passive(n) != []));
    forall i | 0 <= i < |calls| ensures Due(job, calls[i]) {
      assert calls[i] in calls;
    }
    forall ip ensures HasIp(calls, n, ip) <==> Resolves(job, n, ip) {}
    var some := ListedBy(job, n, "brute") || (ListedBy(job, n, "passive") && job.passive(n) != []);
    assert HasResolved(calls, n) <==> some;
    SomeIp(e.ips);
    if some {
      var ip := if ListedBy(job, n, "brute") then job.brute(n)[0] else job.passive(n)[0];
      assert Resolves(job, n, ip);
    }
  }

  /**
    A run that is cancelled, with lookups failing for that reason, lists nothing of its own: its names
    ascend strictly, every name, address and source it lists is one the uncancelled run lists, and
    an entry is marked resolved exactly if it has an address.
  */
  lemma {:induction false} CancelledEnumeration(job: Job, concurrency: int, x: Execution, entries: seq<SubEntry>)
    requires Executes(job, concurrency, x) && Tabulates(MergeAll(x.calls), entries)
    ensures StrictlyAscending(Map(NameOf, entries))
    ensures forall e | e in entries :: ListedBy(job, e.subdomain, "brute") || ListedBy(job, e.subdomain, "passive")
    ensures forall e | e in entries :: forall ip :: ip in e.ips ==> Resolves(job, e.subdomain, ip)
    ensures forall e | e in entries :: forall s :: s in e.sources ==> ListedBy(job, e.subdomain, s)
    ensures forall e | e in entries :: e.resolved <==> e.ips != []
  {
    CallsAreDue(job, concurrency, x);
    MergeAnswers(x.calls, entries);
    forall e | e in entries
      ensures OnlyTrue(job, e)
    {
      EntryListed(entries, e);
      EntryTrue(job, x.calls, e);
    }
  }

  ghost predicate OnlyTrue(job: Job, e: SubEntry) {
    && (ListedBy(job, e.subdomain, "brute") || ListedBy(job, e.subdomain, "passive"))
    && (forall ip :: ip in e.ips ==> Resolves(job, e.subdomain, ip))
    && (forall s :: s in e.sources ==> ListedBy(job, e.subdomain, s))
    && (e.resolved <==> e.ips != [])
  }

  /** What a call says about its name is so. */
  ghost predicate CallTrue(job: Job, c: Call) {
    && ListedBy(job, c.fqdn, c.source) && c.source in {"brute", "passive"}
    && (forall ip :: ip in c.ips ==> Resolves(job, c.fqdn, ip))
    && (c.resolved <==> c.ips != [])
  }

  lemma {:induction false} CallIsTrue(job: Job, c: Call)
    requires Due(job, c) || Unresolved(job, c)
    ensures CallTrue(job, c)
  {
  }

  lemma {:induction false} EntryTrue(job: Job, calls: seq<Call>, e: SubEntry)
    requires forall c :: c in calls ==> Due(job, c) || Unresolved(job, c)
    requires HasName(calls, e.subdomain) && Unions(e, calls)
    ensures OnlyTrue(job, e)
  {
    forall i | 0 <= i < |calls| ensures CallTrue(job, calls[i]) {
      assert calls[i] in calls;
      CallIsTrue(job, calls[i]);
    }
    SomeIp(e.ips);
    if e.resolved {
      var i :| 0 <= i < |calls| && calls[i].fqdn == e.subdomain && calls[i].resolved;
      assert calls[i].ips[0] in e.ips;
    }
  }

  lemma {:induction false} SomeIp(ips: seq<string>)
    ensures ips != [] <==> exists ip :: ip in ips
  {
    if ips != [] {
      assert ips[0] in ips;
    }
  }

  // ---- PassiveSubdomains ----

  /** A certificate record: the names of its subject field, one a line, and its common name. */
  datatype CertRecord = CertRecord(nameValue: string, commonName: string)

  /** The closure `consider`: the name a raw entry contributes, if it is the domain or below it. */
  function Consider(lower: string -> string, domain: string, raw: string): Option<string> {
    var name := TrimPrefix(TrimSpace(lower(raw)), "*.");
    if name == "" || ' ' in name || '\t' in name then None
    else if name == domain || HasSuffix(name, "." + domain) then Some(name)
    else None
  }

  function RawNames(records: seq<CertRecord>): seq<string> {
    if records == [] then []
    else Split(records[0].nameValue, '\n') + [records[0].commonName] + RawNames(records[1..])
  }

  method PassiveNames(records: seq<CertRecord>, domain: string, lower: string -> string) returns (names: seq<string>)
    ensures StrictlyAscending(names)
    ensures forall n :: n in names <==> n in Gather((raw: string) => Consider(lower, domain, raw), RawNames(records))
  {
    var consider := (raw: string) => Consider(lower, domain, raw);
    var found: set<string> := {};
    for i := 0 to |records|
      invariant forall n ::
                  n in found || n in Gather(consider, RawNames(records[i..])) <==>
                  n in Gather(consider, RawNames(records))
    {
      var lines := Split(records[i].nameValue, '\n') + [records[i].commonName];
      GatherConcat(consider, lines, RawNames(records[i..][1..]));
      assert records[i..][1..] == records[i + 1..];
      found := AddLines(found, lines, consider);
    }
    var seen := RangeOver(found);
    StrOrder();
    names := Sort(seen, Identity<string>, StrLe);
    SortKeepsDistinct(seen, names);
    MembersAgree(names, seen);
  }

  method AddLines(found: set<string>, lines: seq<string>, consider: string -> Option<string>) returns (all: set<string>)
    ensures forall n :: n in all <==> n in found || n in Gather(consider, lines)
  {
    all := found;
    for j := 0 to |lines|
      invariant forall n ::
                  n in all || n in Gather(consider, lines[j..]) <==> n in found || n in Gather(consider, lines)
    {
      assert lines[j..] == [lines[j]] + lines[j + 1..];
      var name := consider(lines[j]);
      if name.Some? {
        all := all + {name.value};
      }
    }
  }

  /** A raw entry contributes the name that it is, or is after "*.", if that is the domain or below it. */
  lemma {:induction false} ConsiderMeans(lower: string -> string, domain: string, raw: string, n: string)
    ensures var text := TrimSpace(lower(raw));
      Consider(lower, domain, raw) == Some(n) <==>
      && (text == "*." + n || (text == n && !HasPrefix(n, "*.")))
      && n != "" && ' ' !in n && '\t' !in n && (n == domain || HasSuffix(n, "." + domain))
  {
    var text := TrimSpace(lower(raw));
    if HasPrefix(text, "*.") {
      assert text == "*." + text[2..];
    }
    if text == "*." + n {
      assert text[..2] == "*." && text[2..] == n;
    }
  }

  /** The raw entries are the lines of the subject names and the common names. */
  lemma {:induction false} RawNamesMean(records: seq<CertRecord>, raw: string)
    ensures raw in RawNames(records) <==>
            exists i | 0 <= i < |records| :: raw == records[i].commonName || raw in Split(records[i].nameValue, '\n')
  {
    if records != [] {
      RawNamesMean(records[1..], raw);
      assert forall i | 1 <= i < |records| :: records[i] == records[1..][i - 1];
    }
  }

  /** Whatever the records say, the names are the domain or names below it, without blanks or tabs. */
  lemma {:induction false} OnlyOwnNames(lower: string -> string, domain: string, raws: seq<string>, n: string)
    requires n in Gather((raw: string) => Consider(lower, domain, raw), raws)
    ensures n == domain || HasSuffix(n, "." + domain)
    ensures n != "" && ' ' !in n && '\t' !in n
  {
    if raws != [] && n in Gather((raw: string) => Consider(lower, domain, raw), raws[1..]) {
      OnlyOwnNames(lower, domain, raws[1..], n);
    }
  }
}
