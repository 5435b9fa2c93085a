/**
  The bounded worker pool that ScanPorts, SubdomainScan, resolveHosts, DetectTakeovers and
  ProbeHosts each write out: a launcher that, for every item, looks at the context, adds to the
  wait group, takes a semaphore slot and starts a goroutine; workers that run outside the mutex,
  enter some number of critical sections, free their slot and leave the wait group.

  The protocol does not depend on what is computed.  A worker's critical section is identified by
  the pair (worker, section); the shared variables are represented by `log`, the critical sections
  whose effect they hold, in order.  A section reads the shared value in one step and writes it
  back in another, as `results = append(results, st)` does, so that a lost update is representable
  and its absence has to be proved.
*/
module Pool {
  import opened Wrappers
  import opened Sorting

  datatype Entry = Entry(worker: nat, section: nat)

  datatype Phase =
    | Running(done: nat)                          // outside the mutex, `done` sections completed
    | Locked(done: nat)                           // holds the mutex
    | Loaded(done: nat, snapshot: seq<Entry>)     // has read the shared variables
    | Stored(done: nat)                           // has written them back
    | Released                                    // has freed its semaphore slot
    | Finished                                    // has left the wait group

  datatype Launcher = Select | Acquire | Join(cancelled: bool) | Returned(cancelled: bool)

  datatype State = State(
    pc: Launcher,
    workers: seq<Phase>,       // workers[i] was started for item i
    sem: nat,                  // occupied slots of the semaphore channel
    wg: nat,                   // wait-group counter
    mutex: Option<nat>,        // the worker that holds the mutex
    ctxDone: bool,
    log: seq<Entry>)

  /** `sections[i]` is how many critical sections the worker for item i enters. */
  datatype Config = Config(sections: seq<nat>, capacity: nat, watchesContext: bool)

  datatype Action =
    | LookAtContext | TakeSlot | Wait
    | Cancel
    | Lock(i: nat) | Load(i: nat) | Store(i: nat) | Unlock(i: nat)
    | FreeSlot(i: nat) | Leave(i: nat)

  function EffectiveConcurrency(requested: int, default: nat): (c: nat)
    requires default > 0
    ensures c > 0
    ensures c == requested || (requested <= 0 && c == default)
  {
    if requested <= 0 then default else requested
  }

  function Init(): State {
    State(Select, [], 0, 0, None, false, [])
  }

  predicate Enabled(cfg: Config, s: State, a: Action) {
    match a
    case LookAtContext => s.pc.Select?
    case TakeSlot => s.pc.Acquire? && s.sem < cfg.capacity
    case Wait => s.pc.Join? && s.wg == 0
    case Cancel => !s.ctxDone
    case Lock(i) =>
      && i < |s.workers| && s.workers[i].Running?
      && i < |cfg.sections| && s.workers[i].done < cfg.sections[i]
      && s.mutex.None?
    case Load(i) => i < |s.workers| && s.workers[i].Locked?
    case Store(i) => i < |s.workers| && s.workers[i].Loaded?
    case Unlock(i) => i < |s.workers| && s.workers[i].Stored?
    case FreeSlot(i) =>
      && i < |s.workers| && s.workers[i].Running?
      && i < |cfg.sections| && s.workers[i].done >= cfg.sections[i]
      && s.sem > 0
    case Leave(i) => i < |s.workers| && s.workers[i].Released? && s.wg > 0
  }

  function Apply(cfg: Config, s: State, a: Action): State
    requires Enabled(cfg, s, a)
  {
    match a
    case LookAtContext =>
      if |s.workers| >= |cfg.sections| then s.(pc := Join(false))
      else if cfg.watchesContext && s.ctxDone then s.(pc := Join(true))
      else s.(pc := Acquire, wg := s.wg + 1)
    case TakeSlot => s.(pc := Select, sem := s.sem + 1, workers := s.workers + [Running(0)])
    case Wait => s.(pc := Returned(s.pc.cancelled))
    case Cancel => s.(ctxDone := true)
    case Lock(i) => s.(mutex := Some(i), workers := s.workers[i := Locked(s.workers[i].done)])
    case Load(i) => s.(workers := s.workers[i := Loaded(s.workers[i].done, s.log)])
    case Store(i) =>
      var w := s.workers[i];
      s.(log := w.snapshot + [Entry(i, w.done)], workers := s.workers[i := Stored(w.done)])
    case Unlock(i) => s.(mutex := None, workers := s.workers[i := Running(s.workers[i].done + 1)])
    case FreeSlot(i) => s.(sem := s.sem - 1, workers := s.workers[i := Released])
    case Leave(i) => s.(wg := s.wg - 1, workers := s.workers[i := Finished])
  }

  /** The state after a schedule, if every action of it was enabled when taken. */
  function Exec(cfg: Config, schedule: seq<Action>): Option<State> {
    if schedule == [] then Some(Init())
    else
      var n := |schedule| - 1;
      match Exec(cfg, schedule[..n])
      case None => None
      case Some(s) => if Enabled(cfg, s, schedule[n]) then Some(Apply(cfg, s, schedule[n])) else None
  }

  // ---- Counting over the workers ----

  function Total(ws: seq<Phase>, weight: (nat, Phase) -> nat): nat {
    if ws == [] then 0 else Total(ws[..|ws| - 1], weight) + weight(|ws| - 1, ws[|ws| - 1])
  }

  predicate HoldsSlot(p: Phase) { !p.Released? && !p.Finished? }

  predicate InCritical(p: Phase) { p.Locked? || p.Loaded? || p.Stored? }

  function SlotWeight(i: nat, p: Phase): nat { if HoldsSlot(p) then 1 else 0 }

  function AliveWeight(i: nat, p: Phase): nat { if p.Finished? then 0 else 1 }

  /** Workers whose probe is in flight: started and still holding their slot. */
  function InFlight(s: State): nat { Total(s.workers, SlotWeight) }

  function Alive(s: State): nat { Total(s.workers, AliveWeight) }

  lemma {:induction false} TotalUpdate(ws: seq<Phase>, i: nat, p: Phase, weight: (nat, Phase) -> nat)
    requires i < |ws|
    ensures Total(ws[i := p], weight) + weight(i, ws[i]) == Total(ws, weight) + weight(i, p)
  {
    var n := |ws| - 1;
    if i == n {
      assert ws[i := p][..n] == ws[..n];
    } else {
      assert ws[i := p][..n] == ws[..n][i := p];
      TotalUpdate(ws[..n], i, p, weight);
    }
  }

  lemma {:induction false} TotalAppend(ws: seq<Phase>, p: Phase, weight: (nat, Phase) -> nat)
    ensures Total(ws + [p], weight) == Total(ws, weight) + weight(|ws|, p)
  {
    assert (ws + [p])[..|ws|] == ws;
  }

  lemma {:induction false} TotalPositive(ws: seq<Phase>, weight: (nat, Phase) -> nat) returns (i: nat)
    requires Total(ws, weight) > 0
    ensures i < |ws| && weight(i, ws[i]) > 0
  {
    i := |ws| - 1;
    if weight(i, ws[i]) == 0 {
      i := TotalPositive(ws[..i], weight);
    }
  }

  lemma {:induction false} TotalZero(ws: seq<Phase>, i: nat, weight: (nat, Phase) -> nat)
    requires i < |ws| && Total(ws, weight) == 0
    ensures weight(i, ws[i]) == 0
  {
    if i < |ws| - 1 {
      TotalZero(ws[..|ws| - 1], i, weight);
    }
  }

  // ---- The invariant ----

  /** How many sections of a worker have reached the shared variables. */
  function Progress(sections: nat, p: Phase): nat {
    match p
    case Running(k) => k
    case Locked(k) => k
    case Loaded(k, _) => k
    case Stored(k) => k + 1
    case Released => sections
    case Finished => sections
  }

  ghost predicate Recorded(cfg: Config, s: State, e: Entry)
    requires |s.workers| <= |cfg.sections|
  {
    e.worker < |s.workers| && e.section < Progress(cfg.sections[e.worker], s.workers[e.worker])
  }

  ghost predicate LogExact(cfg: Config, s: State)
    requires |s.workers| <= |cfg.sections|
  {
    && (forall i, j | 0 <= i < j < |s.log| :: s.log[i] != s.log[j])
    && (forall e :: e in s.log <==> Recorded(cfg, s, e))
  }

  ghost predicate WorkersOk(cfg: Config, s: State)
    requires |s.workers| <= |cfg.sections|
  {
    forall i | 0 <= i < |s.workers| :: WorkerOk(cfg.sections[i], s.workers[i], s.mutex == Some(i), s.log)
  }

  ghost predicate WorkerOk(sections: nat, p: Phase, holdsMutex: bool, log: seq<Entry>) {
    && (InCritical(p) <==> holdsMutex)
    && (InCritical(p) ==> p.done < sections)
    && (p.Running? ==> p.done <= sections)
    && (p.Loaded? ==> p.snapshot == log)
  }

  ghost predicate Inv(cfg: Config, s: State) {
    && |s.workers| <= |cfg.sections|
    && (s.pc.Acquire? ==> |s.workers| < |cfg.sections|)
    && (s.pc == Join(false) || s.pc == Returned(false) ==> |s.workers| == |cfg.sections|)
    && (s.pc == Join(true) || s.pc == Returned(true) ==> s.ctxDone && cfg.watchesContext)
    && (s.pc.Returned? ==> s.wg == 0)
    && s.sem == InFlight(s) <= cfg.capacity
    && s.wg == Alive(s) + (if s.pc.Acquire? then 1 else 0)
    && (s.mutex.Some? ==> s.mutex.value < |s.workers|)
    && WorkersOk(cfg, s)
    && LogExact(cfg, s)
  }

  lemma {:induction false} InvStep(cfg: Config, s: State, a: Action)
    requires Inv(cfg, s) && Enabled(cfg, s, a)
    ensures Inv(cfg, Apply(cfg, s, a))
  {
    match a {
      case LookAtContext => LauncherStep(cfg, s, a);
      case Wait => LauncherStep(cfg, s, a);
      case Cancel => LauncherStep(cfg, s, a);
      case TakeSlot => LaunchStep(cfg, s);
      case Store(i) => StoreStep(cfg, s, i);
      case Lock(i) => MutexStep(cfg, s, a, i);
      case Load(i) => MutexStep(cfg, s, a, i);
      case Unlock(i) => MutexStep(cfg, s, a, i);
      case FreeSlot(i) => ExitStep(cfg, s, a, i);
      case Leave(i) => ExitStep(cfg, s, a, i);
    }
  }

  lemma {:induction false} LauncherStep(cfg: Config, s: State, a: Action)
    requires Inv(cfg, s) && Enabled(cfg, s, a) && a in {LookAtContext, Wait, Cancel}
    ensures Inv(cfg, Apply(cfg, s, a))
  {
    var t := Apply(cfg, s, a);
    assert t.workers == s.workers && t.log == s.log && t.mutex == s.mutex;
    forall e ensures e in t.log <==> Recorded(cfg, t, e) {
      assert Recorded(cfg, t, e) <==> Recorded(cfg, s, e);
    }
  }

  lemma {:induction false} LaunchStep(cfg: Config, s: State)
    requires Inv(cfg, s) && Enabled(cfg, s, TakeSlot)
    ensures Inv(cfg, Apply(cfg, s, TakeSlot))
  {
    var t := Apply(cfg, s, TakeSlot);
    TotalAppend(s.workers, Running(0), SlotWeight);
    TotalAppend(s.workers, Running(0), AliveWeight);
    forall e ensures e in t.log <==> Recorded(cfg, t, e) {
      assert Recorded(cfg, t, e) <==> Recorded(cfg, s, e);
    }
  }

  /** A worker step other than Store changes neither the log nor what it should contain. */
  lemma {:induction false} QuietStep(cfg: Config, s: State, t: State, i: nat)
    requires Inv(cfg, s) && i < |s.workers| && |t.workers| == |s.workers|
    requires t == s.(workers := s.workers[i := t.workers[i]], mutex := t.mutex, sem := t.sem, wg := t.wg)
    requires t.mutex != s.mutex ==> {t.mutex, s.mutex} == {None, Some(i)}
    requires t.sem + SlotWeight(i, s.workers[i]) == s.sem + SlotWeight(i, t.workers[i])
    requires t.wg + AliveWeight(i, s.workers[i]) == s.wg + AliveWeight(i, t.workers[i])
    requires s.pc.Returned? ==> t.wg == 0
    requires t.sem <= s.sem
    requires Progress(cfg.sections[i], t.workers[i]) == Progress(cfg.sections[i], s.workers[i])
    requires WorkerOk(cfg.sections[i], t.workers[i], t.mutex == Some(i), t.log)
    ensures Inv(cfg, t)
  {
    TotalUpdate(s.workers, i, t.workers[i], SlotWeight);
    TotalUpdate(s.workers, i, t.workers[i], AliveWeight);
    OneWorkerMoved(cfg, s, t, i);
  }

  lemma {:induction false} MutexStep(cfg: Config, s: State, a: Action, i: nat)
    requires Inv(cfg, s) && Enabled(cfg, s, a) && a in {Lock(i), Load(i), Unlock(i)}
    ensures Inv(cfg, Apply(cfg, s, a))
  {
    assert WorkerOk(cfg.sections[i], s.workers[i], s.mutex == Some(i), s.log);
    QuietStep(cfg, s, Apply(cfg, s, a), i);
  }

  lemma {:induction false} ExitStep(cfg: Config, s: State, a: Action, i: nat)
    requires Inv(cfg, s) && Enabled(cfg, s, a) && a in {FreeSlot(i), Leave(i)}
    ensures Inv(cfg, Apply(cfg, s, a))
  {
    assert WorkerOk(cfg.sections[i], s.workers[i], s.mutex == Some(i), s.log);
    QuietStep(cfg, s, Apply(cfg, s, a), i);
  }

  lemma {:induction false} OneWorkerMoved(cfg: Config, s: State, t: State, i: nat)
    requires |s.workers| <= |cfg.sections| && LogExact(cfg, s) && WorkersOk(cfg, s)
    requires i < |s.workers| && |t.workers| == |s.workers| && t.workers == s.workers[i := t.workers[i]]
    requires t.log == s.log
    requires t.mutex != s.mutex ==> {t.mutex, s.mutex} == {None, Some(i)}
    requires Progress(cfg.sections[i], t.workers[i]) == Progress(cfg.sections[i], s.workers[i])
    requires WorkerOk(cfg.sections[i], t.workers[i], t.mutex == Some(i), t.log)
    ensures LogExact(cfg, t) && WorkersOk(cfg, t)
  {
    forall e ensures e in t.log <==> Recorded(cfg, t, e) {
      assert Recorded(cfg, t, e) <==> Recorded(cfg, s, e);
    }
    forall j | 0 <= j < |t.workers|
      ensures WorkerOk(cfg.sections[j], t.workers[j], t.mutex == Some(j), t.log)
    {
      assert j != i ==> t.workers[j] == s.workers[j];
      assert t.mutex in {t.mutex, s.mutex} && s.mutex in {t.mutex, s.mutex};
      assert j != i ==> (t.mutex == Some(j) <==> s.mutex == Some(j));
    }
  }

  /** The mutex makes the read and the write of a section one update: nothing is lost. */
  lemma {:induction false} StoreLog(cfg: Config, s: State, i: nat)
    requires Inv(cfg, s) && Enabled(cfg, s, Store(i))
    ensures LogExact(cfg, Apply(cfg, s, Store(i)))
    ensures WorkersOk(cfg, Apply(cfg, s, Store(i)))
  {
    var t := Apply(cfg, s, Store(i));
    var added := Entry(i, s.workers[i].done);
    assert t.log == s.log + [added];
    assert !Recorded(cfg, s, added);
    forall e ensures e in t.log <==> Recorded(cfg, t, e) {
      assert e in t.log <==> e in s.log || e == added;
      assert Recorded(cfg, t, e) <==> Recorded(cfg, s, e) || e == added;
    }
  }

  lemma {:induction false} StoreStep(cfg: Config, s: State, i: nat)
    requires Inv(cfg, s) && Enabled(cfg, s, Store(i))
    ensures Inv(cfg, Apply(cfg, s, Store(i)))
  {
    var t := Apply(cfg, s, Store(i));
    TotalUpdate(s.workers, i, t.workers[i], SlotWeight);
    TotalUpdate(s.workers, i, t.workers[i], AliveWeight);
    StoreLog(cfg, s, i);
  }

  lemma {:induction false} Reachable(cfg: Config, schedule: seq<Action>)
    requires Exec(cfg, schedule).Some?
    ensures Inv(cfg, Exec(cfg, schedule).value)
  {
    if schedule == [] {
    } else {
      var n := |schedule| - 1;
      Reachable(cfg, schedule[..n]);
      InvStep(cfg, Exec(cfg, schedule[..n]).value, schedule[n]);
    }
  }

  // ---- Safety ----

  /** At most `capacity` probes are in flight, and no two workers are in their critical sections. */
  lemma {:induction false} PoolSafety(cfg: Config, schedule: seq<Action>)
    requires Exec(cfg, schedule).Some?
    ensures
      var s := Exec(cfg, schedule).value;
      && InFlight(s) <= cfg.capacity
      && |s.workers| <= |cfg.sections|
      && (forall i, j | 0 <= i < |s.workers| && 0 <= j < |s.workers| ::
            InCritical(s.workers[i]) && InCritical(s.workers[j]) ==> i == j)
  {
    Reachable(cfg, schedule);
  }

  lemma {:induction false} DoneOnlyByCancel(cfg: Config, schedule: seq<Action>)
    requires Exec(cfg, schedule).Some? && Cancel !in schedule
    ensures !Exec(cfg, schedule).value.ctxDone
  {
    if schedule == [] {
    } else {
      DoneOnlyByCancel(cfg, schedule[..|schedule| - 1]);
    }
  }

  /**
    The context was done before the worker for item i was through: what it asked of the network may
    have failed for that reason.
  */
  ghost predicate Interrupted(schedule: seq<Action>, i: nat) {
    exists c, f | 0 <= c < f < |schedule| :: schedule[c] == Cancel && schedule[f] == FreeSlot(i)
  }

  // ---- A context that is done stops the launcher ----

  /** After n actions the context is done, and the launcher looks at it. */
  ghost predicate DoneBy(cfg: Config, schedule: seq<Action>, n: nat) {
    && n <= |schedule| && cfg.watchesContext
    && Exec(cfg, schedule[..n]).Some? && Exec(cfg, schedule[..n]).value.ctxDone
  }

  /** Workers started, and the one that the launcher is already committed to. */
  function Committed(s: State): nat { |s.workers| + if s.pc.Acquire? then 1 else 0 }

  ghost function CommittedBy(cfg: Config, schedule: seq<Action>, n: nat): nat
    requires DoneBy(cfg, schedule, n)
  {
    Committed(Exec(cfg, schedule[..n]).value)
  }

  lemma {:induction false} DoneStep(cfg: Config, s: State, a: Action)
    requires Enabled(cfg, s, a) && cfg.watchesContext && s.ctxDone
    ensures Apply(cfg, s, a).ctxDone && Committed(Apply(cfg, s, a)) <= Committed(s)
  {
  }

  /** Once the context is done no worker is started but the one the launcher is committed to. */
  lemma {:induction false} LauncherStops(cfg: Config, schedule: seq<Action>, n: nat)
    requires Exec(cfg, schedule).Some? && DoneBy(cfg, schedule, n)
    ensures Exec(cfg, schedule).value.ctxDone
    ensures Committed(Exec(cfg, schedule).value) <= CommittedBy(cfg, schedule, n)
  {
    if n == |schedule| {
      assert schedule[..n] == schedule;
    } else {
      var k := |schedule| - 1;
      assert schedule[..k][..n] == schedule[..n];
      LauncherStops(cfg, schedule[..k], n);
      DoneStep(cfg, Exec(cfg, schedule[..k]).value, schedule[k]);
    }
  }

  lemma {:induction false} StartedInTime(cfg: Config, schedule: seq<Action>)
    requires Exec(cfg, schedule).Some?
    ensures forall n | DoneBy(cfg, schedule, n) ::
              |Exec(cfg, schedule).value.workers| <= CommittedBy(cfg, schedule, n)
  {
    forall n | DoneBy(cfg, schedule, n)
      ensures |Exec(cfg, schedule).value.workers| <= CommittedBy(cfg, schedule, n)
    {
      LauncherStops(cfg, schedule, n);
    }
  }

  /** A context that is done before the first step: nothing is started. */
  lemma {:induction false} DoneAtOnce(cfg: Config, schedule: seq<Action>)
    requires schedule != [] && schedule[0] == Cancel && cfg.watchesContext
    ensures DoneBy(cfg, schedule, 1) && CommittedBy(cfg, schedule, 1) == 0
  {
    assert schedule[..1] == [Cancel] && [Cancel][..0] == [];
    assert Exec(cfg, []) == Some(Init());
  }

  // ---- What the shared variables hold ----

  function SectionsOf(i: nat, k: nat): seq<Entry> {
    if k == 0 then [] else SectionsOf(i, k - 1) + [Entry(i, k - 1)]
  }

  /** The first progress[i] critical sections of each worker i, one worker after the other. */
  function Sequential(progress: seq<nat>): seq<Entry> {
    if progress == [] then []
    else
      var n := |progress| - 1;
      Sequential(progress[..n]) + SectionsOf(n, progress[n])
  }

  lemma {:induction false} SectionsOfMembers(i: nat, k: nat)
    ensures Distinct(SectionsOf(i, k))
    ensures forall e :: e in SectionsOf(i, k) <==> e.worker == i && e.section < k
  {
    if k > 0 {
      SectionsOfMembers(i, k - 1);
    }
  }

  ghost predicate HoldsExactly(log: seq<Entry>, progress: seq<nat>) {
    && Distinct(log)
    && forall e :: e in log <==> e.worker < |progress| && e.section < progress[e.worker]
  }

  lemma {:induction false} SequentialMembers(progress: seq<nat>)
    ensures HoldsExactly(Sequential(progress), progress)
  {
    if progress != [] {
      var n := |progress| - 1;
      SequentialMembers(progress[..n]);
      SectionsOfMembers(n, progress[n]);
      var a, b := Sequential(progress[..n]), SectionsOf(n, progress[n]);
      forall i, j | 0 <= i < |a| && 0 <= j < |b| ensures a[i] != b[j] {
        assert a[i] in a && b[j] in b;
      }
    }
  }

  function ProgressOf(sections: seq<nat>, workers: seq<Phase>): (progress: seq<nat>)
    requires |workers| <= |sections|
    ensures |progress| == |workers|
    ensures forall i | 0 <= i < |workers| :: progress[i] == Progress(sections[i], workers[i])
  {
    seq(|workers|, i requires 0 <= i < |workers| => Progress(sections[i], workers[i]))
  }

  /** In every reachable state the shared variables hold what the workers have got done, permuted. */
  lemma {:induction false} LogIsProgress(cfg: Config, schedule: seq<Action>)
    requires Exec(cfg, schedule).Some?
    ensures
      var s := Exec(cfg, schedule).value;
      && |s.workers| <= |cfg.sections|
      && (forall i | 0 <= i < |s.workers| :: Progress(cfg.sections[i], s.workers[i]) <= cfg.sections[i])
      && multiset(s.log) == multiset(Sequential(ProgressOf(cfg.sections, s.workers)))
  {
    Reachable(cfg, schedule);
    var s := Exec(cfg, schedule).value;
    var progress := ProgressOf(cfg.sections, s.workers);
    SequentialMembers(progress);
    forall e ensures e in s.log <==> e in Sequential(progress) {
      assert e in s.log <==> Recorded(cfg, s, e);
    }
    DistinctMultiset(s.log, Sequential(progress));
  }

  /**
    When the launcher returns no worker is alive, and the shared variables hold exactly the complete
    work of a prefix of the items, permuted: of all items unless the context was done, and of none
    that the launcher was not committed to by then.
  */
  lemma {:induction false} AtReturn(cfg: Config, schedule: seq<Action>) returns (m: nat)
    requires Exec(cfg, schedule).Some? && Exec(cfg, schedule).value.pc.Returned?
    ensures
      var s := Exec(cfg, schedule).value;
      && (forall i | 0 <= i < |s.workers| :: s.workers[i].Finished?)
      && s.sem == 0 && s.mutex.None?
      && m == |s.workers| <= |cfg.sections|
      && multiset(s.log) == multiset(Sequential(cfg.sections[..m]))
      && (!cfg.watchesContext || Cancel !in schedule ==> m == |cfg.sections|)
    ensures forall n | DoneBy(cfg, schedule, n) :: m <= CommittedBy(cfg, schedule, n)
  {
    Reachable(cfg, schedule);
    var s := Exec(cfg, schedule).value;
    m := |s.workers|;
    forall i | 0 <= i < m ensures s.workers[i].Finished? {
      TotalZero(s.workers, i, AliveWeight);
    }
    if s.sem > 0 {
      var i := TotalPositive(s.workers, SlotWeight);
      assert false;
    }
    LogIsProgress(cfg, schedule);
    assert ProgressOf(cfg.sections, s.workers) == cfg.sections[..m];
    if Cancel !in schedule {
      DoneOnlyByCancel(cfg, schedule);
    }
    StartedInTime(cfg, schedule);
  }

  // ---- The pool in which every worker appends the outcome of its probe ----

  function Ones(n: nat): seq<nat> { seq(n, _ => 1) }

  function AppendConfig(n: nat, capacity: nat, watchesContext: bool): Config {
    Config(Ones(n), capacity, watchesContext)
  }

  /** What the worker for an item appends to the shared results. */
  function Appends<T, R>(items: seq<T>, probe: T -> R): Entry -> Option<R> {
    (e: Entry) => if e.worker < |items| then Some(probe(items[e.worker])) else None
  }

  ghost predicate Returns(cfg: Config, schedule: seq<Action>) {
    Exec(cfg, schedule).Some? && Exec(cfg, schedule).value.pc.Returned?
  }

  /** The contents of `results` when the launcher returns. */
  ghost function Results<T, R>(items: seq<T>, probe: T -> R, cfg: Config, schedule: seq<Action>): seq<R>
    requires Returns(cfg, schedule)
  {
    Gather(Appends(items, probe), Exec(cfg, schedule).value.log)
  }

  lemma {:induction false} SequentialAppends<T, R>(items: seq<T>, probe: T -> R, m: nat)
    requires m <= |items|
    ensures Gather(Appends(items, probe), Sequential(Ones(m))) == Map(probe, items[..m])
  {
    var f := Appends(items, probe);
    if m > 0 {
      SequentialAppends(items, probe, m - 1);
      SequentialOnes(m);
      GatherConcat(f, Sequential(Ones(m - 1)), [Entry(m - 1, 0)]);
      GatherOne(f, Entry(m - 1, 0));
      var a, b := Map(probe, items[..m]), Map(probe, items[..m - 1]) + [probe(items[m - 1])];
      assert forall i | 0 <= i < m :: a[i] == b[i];
    }
  }

  lemma {:induction false} SequentialOnes(m: nat)
    requires m > 0
    ensures Sequential(Ones(m)) == Sequential(Ones(m - 1)) + [Entry(m - 1, 0)]
  {
    assert Ones(m)[..m - 1] == Ones(m - 1);
    assert SectionsOf(m - 1, 0) == [] && SectionsOf(m - 1, 1) == [] + [Entry(m - 1, 0)];
  }

  /** Whatever the schedule, the results are a permutation of the probes of exactly a prefix. */
  lemma {:induction false} ResultsArePrefix<T, R>(items: seq<T>, probe: T -> R, capacity: nat, watches: bool,
                                                  schedule: seq<Action>)
    returns (m: nat)
    requires Returns(AppendConfig(|items|, capacity, watches), schedule)
    ensures m <= |items| && (!watches || Cancel !in schedule ==> m == |items|)
    ensures multiset(Results(items, probe, AppendConfig(|items|, capacity, watches), schedule)) ==
            multiset(Map(probe, items[..m]))
    ensures var cfg := AppendConfig(|items|, capacity, watches);
      forall n | DoneBy(cfg, schedule, n) :: m <= CommittedBy(cfg, schedule, n)
  {
    var cfg := AppendConfig(|items|, capacity, watches);
    m := AtReturn(cfg, schedule);
    assert cfg.sections[..m] == Ones(m);
    GatherMultiset(Appends(items, probe), Exec(cfg, schedule).value.log, Sequential(Ones(m)));
    SequentialAppends(items, probe, m);
  }

  // ---- Progress ----

  /** Some step other than a cancellation is possible until the launcher has returned. */
  lemma {:induction false} NoDeadlock(cfg: Config, schedule: seq<Action>) returns (a: Action)
    requires cfg.capacity > 0
    requires Exec(cfg, schedule).Some? && !Exec(cfg, schedule).value.pc.Returned?
    ensures Enabled(cfg, Exec(cfg, schedule).value, a) && !a.Cancel?
  {
    Reachable(cfg, schedule);
    var s := Exec(cfg, schedule).value;
    match s.pc {
      case Select => a := LookAtContext;
      case Acquire =>
        if s.sem < cfg.capacity {
          a := TakeSlot;
        } else {
          var i := TotalPositive(s.workers, SlotWeight);
          a := WorkerMoves(cfg, s, i);
        }
      case Join(_) =>
        if s.wg == 0 {
          a := Wait;
        } else {
          var i := TotalPositive(s.workers, AliveWeight);
          a := WorkerMoves(cfg, s, i);
        }
    }
  }

  /** An unfinished worker can move, or the worker holding the mutex can. */
  lemma {:induction false} WorkerMoves(cfg: Config, s: State, i: nat) returns (a: Action)
    requires Inv(cfg, s) && i < |s.workers| && !s.workers[i].Finished?
    ensures Enabled(cfg, s, a) && !a.Cancel?
  {
    if s.workers[i].Released? {
      LiveWorkerCounted(s.workers, i, AliveWeight);
      a := Leave(i);
    } else if s.workers[i].Running? && s.workers[i].done == cfg.sections[i] {
      LiveWorkerCounted(s.workers, i, SlotWeight);
      a := FreeSlot(i);
    } else if s.mutex.None? {
      a := Lock(i);
    } else {
      var j := s.mutex.value;
      a := match s.workers[j] case Locked(_) => Load(j) case Loaded(_, _) => Store(j) case _ => Unlock(j);
    }
  }

  lemma {:induction false} LiveWorkerCounted(ws: seq<Phase>, i: nat, weight: (nat, Phase) -> nat)
    requires i < |ws| && weight(i, ws[i]) > 0
    ensures Total(ws, weight) > 0
  {
    if Total(ws, weight) == 0 {
      TotalZero(ws, i, weight);
    }
  }

  /** Steps a worker with `sections` critical sections still has to take. */
  function Remaining(sections: nat, p: Phase): nat {
    match p
    case Running(k) => if k <= sections then 4 * (sections - k) + 2 else 2
    case Locked(k) => if k < sections then 4 * (sections - k) + 1 else 1
    case Loaded(k, _) => if k < sections then 4 * (sections - k) else 0
    case Stored(k) => if k < sections then 4 * (sections - k) - 1 else 0
    case Released => 1
    case Finished => 0
  }

  function RemainingWeight(cfg: Config): (nat, Phase) -> nat {
    (i: nat, p: Phase) => if i < |cfg.sections| then Remaining(cfg.sections[i], p) else 0
  }

  /** Steps needed to launch and run the items from n on. */
  function Unlaunched(cfg: Config, n: nat): nat
    decreases |cfg.sections| - n
  {
    if n >= |cfg.sections| then 0 else 4 * cfg.sections[n] + 4 + Unlaunched(cfg, n + 1)
  }

  function LauncherRank(pc: Launcher): nat {
    match pc case Select => 3 case Acquire => 2 case Join(_) => 1 case Returned(_) => 0
  }

  function Measure(cfg: Config, s: State): nat {
    Total(s.workers, RemainingWeight(cfg)) + Unlaunched(cfg, |s.workers|) + LauncherRank(s.pc)
    + (if s.ctxDone then 0 else 1)
  }

  lemma {:induction false} MeasureDecreases(cfg: Config, s: State, a: Action)
    requires Inv(cfg, s) && Enabled(cfg, s, a)
    ensures Measure(cfg, Apply(cfg, s, a)) < Measure(cfg, s)
  {
    match a {
      case LookAtContext =>
      case Wait =>
      case Cancel =>
      case TakeSlot => TotalAppend(s.workers, Running(0), RemainingWeight(cfg));
      case Lock(i) => WorkerMeasure(cfg, s, a, i);
      case Load(i) => WorkerMeasure(cfg, s, a, i);
      case Store(i) => WorkerMeasure(cfg, s, a, i);
      case Unlock(i) => WorkerMeasure(cfg, s, a, i);
      case FreeSlot(i) => WorkerMeasure(cfg, s, a, i);
      case Leave(i) => WorkerMeasure(cfg, s, a, i);
    }
  }

  lemma {:induction false} WorkerMeasure(cfg: Config, s: State, a: Action, i: nat)
    requires Inv(cfg, s) && Enabled(cfg, s, a)
    requires a in {Lock(i), Load(i), Store(i), Unlock(i), FreeSlot(i), Leave(i)}
    ensures Measure(cfg, Apply(cfg, s, a)) < Measure(cfg, s)
  {
    var t := Apply(cfg, s, a);
    assert Remaining(cfg.sections[i], t.workers[i]) < Remaining(cfg.sections[i], s.workers[i]);
    TotalUpdate(s.workers, i, t.workers[i], RemainingWeight(cfg));
  }

  /** No schedule is longer than the initial measure: the pool always finishes. */
  lemma {:induction false} EverySchedulePasses(cfg: Config, schedule: seq<Action>)
    requires Exec(cfg, schedule).Some?
    ensures |schedule| + Measure(cfg, Exec(cfg, schedule).value) <= Measure(cfg, Init())
  {
    if schedule == [] {
    } else {
      var n := |schedule| - 1;
      EverySchedulePasses(cfg, schedule[..n]);
      Reachable(cfg, schedule[..n]);
      MeasureDecreases(cfg, Exec(cfg, schedule[..n]).value, schedule[n]);
    }
  }

  /** From any reachable state the pool's own steps lead the launcher to its return. */
  lemma {:induction false} CanAlwaysReturn(cfg: Config, schedule: seq<Action>) returns (more: seq<Action>)
    requires cfg.capacity > 0 && Exec(cfg, schedule).Some?
    ensures Returns(cfg, schedule + more)
    ensures Cancel !in more
    decreases Measure(cfg, Init()) - |schedule|
  {
    if Returns(cfg, schedule) {
      more := [];
      assert schedule + more == schedule;
    } else {
      var a := NextStep(cfg, schedule);
      var rest := CanAlwaysReturn(cfg, schedule + [a]);
      more := [a] + rest;
      assert schedule + more == schedule + [a] + rest;
    }
  }

  lemma {:induction false} NextStep(cfg: Config, schedule: seq<Action>) returns (a: Action)
    requires cfg.capacity > 0 && Exec(cfg, schedule).Some? && !Returns(cfg, schedule)
    ensures a != Cancel && Exec(cfg, schedule + [a]).Some?
    ensures |schedule| < Measure(cfg, Init())
  {
    a := NoDeadlock(cfg, schedule);
    assert (schedule + [a])[..|schedule|] == schedule;
    EverySchedulePasses(cfg, schedule + [a]);
  }
}
