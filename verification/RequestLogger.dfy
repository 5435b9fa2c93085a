/**
  The request log: a buffer of 2048 entries filled by requests that never wait, and one writer that
  stores the entries.  The log table gives out increasing ids; an insertion may fail.
*/
module RequestLogger {
  import opened Wrappers

  datatype LogEntry = LogEntry(verb: string, path: string, query: string, status: int,
                               ip: string, userAgent: string, principal: string)

  datatype Row = Row(id: int, entry: LogEntry)

  const CAPACITY := 2048

  /** The channel, the entry the writer has taken from it, the stored rows and the last id given out. */
  datatype Log = Log(ch: seq<LogEntry>, writing: Option<LogEntry>, rows: seq<Row>, logSeq: nat)

  datatype Action = Complete(entry: LogEntry) | Take | Insert(ok: bool)

  const EMPTY := Log([], None, [], 0)

  /** A request completes; an entry that finds the buffer full is dropped. */
  function Send(s: Log, e: LogEntry): Log { if |s.ch| < CAPACITY then s.(ch := s.ch + [e]) else s }

  predicate Enabled(s: Log, a: Action) {
    match a
    case Complete(_) => true
    case Take => s.ch != [] && s.writing.None?
    case Insert(_) => s.writing.Some?
  }

  function Step(s: Log, a: Action): Log
    requires Enabled(s, a)
  {
    match a
    case Complete(e) => Send(s, e)
    case Take => s.(ch := s.ch[1..], writing := Some(s.ch[0]))
    case Insert(ok) =>
      if ok then s.(writing := None, rows := s.rows + [Row(s.logSeq + 1, s.writing.value)], logSeq := s.logSeq + 1)
      else s.(writing := None)
  }

  // ---- Runs, and what was seen in them ----

  /**
    What happened: every completed request and whether its entry was kept, the entries kept, and
    for every entry the writer is done with, whether it was stored.
  */
  datatype History = History(completed: seq<LogEntry>, kept: seq<bool>, accepted: seq<LogEntry>, stored: seq<bool>)

  const NOTHING := History([], [], [], [])

  function Note(s: Log, h: History, a: Action): History
    requires Enabled(s, a)
  {
    match a
    case Complete(e) =>
      var fits := |s.ch| < CAPACITY;
      History(h.completed + [e], h.kept + [fits], if fits then h.accepted + [e] else h.accepted, h.stored)
    case Take => h
    case Insert(ok) => h.(stored := h.stored + [ok])
  }

  /** The run of actions leads from the empty log to s, with h the history of what was seen. */
  ghost predicate Leads(run: seq<Action>, s: Log, h: History)
    decreases |run|
  {
    if run == [] then s == EMPTY && h == NOTHING
    else exists s0, h0 :: LeadsBy(run, s0, h0, s, h)
  }

  ghost predicate LeadsBy(run: seq<Action>, s0: Log, h0: History, s: Log, h: History)
    requires run != []
    decreases |run|, 0
  {
    var a := run[|run| - 1];
    Leads(run[..|run| - 1], s0, h0) && Enabled(s0, a) && s == Step(s0, a) && h == Note(s0, h0, a)
  }

  /** The elements whose flag is set, in order. */
  function Select<T>(xs: seq<T>, flags: seq<bool>): (ys: seq<T>)
    requires |xs| == |flags|
    ensures |ys| == Count(flags, true)
  {
    if xs == [] then []
    else
      var n := |xs| - 1;
      Select(xs[..n], flags[..n]) + (if flags[n] then [xs[n]] else [])
  }

  function Count(flags: seq<bool>, flag: bool): nat {
    if flags == [] then 0
    else Count(flags[..|flags| - 1], flag) + (if flags[|flags| - 1] == flag then 1 else 0)
  }

  lemma {:induction false} SelectSnoc<T>(xs: seq<T>, flags: seq<bool>, x: T, flag: bool)
    requires |xs| == |flags|
    ensures Select(xs + [x], flags + [flag]) == Select(xs, flags) + (if flag then [x] else [])
    ensures Count(flags + [flag], true) == Count(flags, true) + (if flag then 1 else 0)
    ensures Count(flags + [flag], false) == Count(flags, false) + (if flag then 0 else 1)
  {
    assert (xs + [x])[..|xs|] == xs && (flags + [flag])[..|flags|] == flags;
  }

  lemma {:induction false} CountAll(flags: seq<bool>)
    ensures Count(flags, true) + Count(flags, false) == |flags|
  {
    if flags != [] {
      CountAll(flags[..|flags| - 1]);
    }
  }

  function Entries(rows: seq<Row>): (es: seq<LogEntry>)
    ensures |es| == |rows|
  {
    seq(|rows|, i requires 0 <= i < |rows| => rows[i].entry)
  }

  function InWriter(s: Log): seq<LogEntry> { if s.writing.Some? then [s.writing.value] else [] }

  /** Ids increase from row to row and none exceeds the last one given out. */
  ghost predicate IdsIncrease(s: Log) {
    && (forall i, j | 0 <= i < j < |s.rows| :: s.rows[i].id < s.rows[j].id)
    && (forall i | 0 <= i < |s.rows| :: s.rows[i].id <= s.logSeq)
  }

  ghost predicate Shapes(s: Log, h: History) {
    |h.completed| == |h.kept| && |h.stored| <= |h.accepted| && |s.ch| <= CAPACITY
  }

  /** First in, first out: what was kept is done with, in the writer or waiting, in this order. */
  ghost predicate Fifo(s: Log, h: History)
    requires Shapes(s, h)
  {
    h.accepted == h.accepted[..|h.stored|] + InWriter(s) + s.ch
  }

  ghost predicate Inv(s: Log, h: History) {
    && Shapes(s, h)
    && h.accepted == Select(h.completed, h.kept)
    && Fifo(s, h)
    && Entries(s.rows) == Select(h.accepted[..|h.stored|], h.stored)
    && IdsIncrease(s)
  }

  lemma {:induction false} CompleteKeeps(s: Log, h: History, e: LogEntry)
    requires Inv(s, h)
    ensures Inv(Step(s, Complete(e)), Note(s, h, Complete(e)))
  {
    SelectSnoc(h.completed, h.kept, e, |s.ch| < CAPACITY);
    var t, g := Step(s, Complete(e)), Note(s, h, Complete(e));
    if |s.ch| < CAPACITY {
      var done := h.accepted[..|h.stored|];
      assert g.accepted[..|g.stored|] == done;
      assert g.accepted == done + InWriter(s) + s.ch + [e] == done + InWriter(t) + t.ch;
    }
  }

  lemma {:induction false} TakeKeeps(s: Log, h: History)
    requires Inv(s, h) && Enabled(s, Take)
    ensures Inv(Step(s, Take), h)
  {
    var t := Step(s, Take);
    assert s.ch == [s.ch[0]] + t.ch;
    assert InWriter(s) + s.ch == InWriter(t) + t.ch;
    assert h.accepted[..|h.stored|] + InWriter(s) + s.ch == h.accepted[..|h.stored|] + (InWriter(s) + s.ch);
  }

  lemma {:induction false} InsertKeeps(s: Log, h: History, ok: bool)
    requires Inv(s, h) && Enabled(s, Insert(ok))
    ensures Inv(Step(s, Insert(ok)), Note(s, h, Insert(ok)))
  {
    var t, g, e := Step(s, Insert(ok)), Note(s, h, Insert(ok)), s.writing.value;
    var done := h.accepted[..|h.stored|];
    DoneGrows(h.accepted, |h.stored|, e, s.ch);
    SelectSnoc(done, h.stored, e, ok);
    RowsSnoc(s.rows, Row(s.logSeq + 1, e));
    assert g.accepted[..|g.stored|] + InWriter(t) == g.accepted[..|g.stored|];
  }

  lemma {:induction false} DoneGrows<T>(all: seq<T>, n: nat, e: T, waiting: seq<T>)
    requires n <= |all| && all == all[..n] + [e] + waiting
    ensures n < |all| && all[..n + 1] == all[..n] + [e] && all == all[..n + 1] + waiting
  {
    assert all[n] == e;
  }

  lemma {:induction false} RowsSnoc(rows: seq<Row>, row: Row)
    ensures Entries(rows + [row]) == Entries(rows) + [row.entry]
  {
  }

  /** What holds in every reachable state. */
  lemma {:induction false} Reached(run: seq<Action>, s: Log, h: History)
    requires Leads(run, s, h)
    ensures Inv(s, h)
    decreases |run|
  {
    if run != [] {
      var s0, h0 :| LeadsBy(run, s0, h0, s, h);
      Reached(run[..|run| - 1], s0, h0);
      match run[|run| - 1]
      case Complete(e) => CompleteKeeps(s0, h0, e);
      case Take => TakeKeeps(s0, h0);
      case Insert(ok) => InsertKeeps(s0, h0, ok);
    }
  }

  // ---- Main results ----

  /**
    No entry is lost silently: every completed request is stored, failed to be stored, in the
    writer, waiting in the buffer or was dropped; the buffer never exceeds its capacity.
  */
  lemma {:induction false} Conservation(run: seq<Action>, s: Log, h: History)
    requires Leads(run, s, h)
    ensures |h.completed| == |s.rows| + Count(h.stored, false) + (if s.writing.Some? then 1 else 0)
                             + |s.ch| + Count(h.kept, false)
    ensures |s.ch| <= 2048
  {
    Reached(run, s, h);
    CountAll(h.kept);
    CountAll(h.stored);
    var done := h.accepted[..|h.stored|];
    assert |h.accepted| == |done| + |InWriter(s)| + |s.ch|;
  }

  /**
    Stored rows appear in the order in which their requests completed, with increasing ids: they
    are the requests whose entry was kept and whose insertion succeeded, selected in order.
  */
  lemma {:induction false} RowsInOrder(run: seq<Action>, s: Log, h: History)
    requires Leads(run, s, h)
    ensures |h.completed| == |h.kept| && |h.stored| <= |Select(h.completed, h.kept)|
    ensures Entries(s.rows) == Select(Select(h.completed, h.kept)[..|h.stored|], h.stored)
    ensures forall i, j | 0 <= i < j < |s.rows| :: s.rows[i].id < s.rows[j].id
  {
    Reached(run, s, h);
  }

  /** A drop needs a full buffer, and so 2048 requests that completed before it. */
  lemma {:induction false} DroppedOnlyWhenFull(run: seq<Action>, s: Log, h: History, e: LogEntry)
    requires Leads(run, s, h)
    ensures Note(s, h, Complete(e)).kept == h.kept + [true] <==> |s.ch| != 2048
    ensures |s.ch| == 2048 ==> Step(s, Complete(e)) == s && |h.completed| >= 2048
  {
    Reached(run, s, h);
    Conservation(run, s, h);
    var kept := Note(s, h, Complete(e)).kept;
    assert kept[|h.kept|] == (|s.ch| < 2048);
  }

  /** Up to 2048 requests nothing is dropped, however slow the writer is. */
  lemma {:induction false} BurstKept(run: seq<Action>, s: Log, h: History)
    requires Leads(run, s, h) && |h.completed| <= 2048
    ensures Count(h.kept, false) == 0
    decreases |run|
  {
    if run != [] {
      var s0, h0 :| LeadsBy(run, s0, h0, s, h);
      var before := run[..|run| - 1];
      BurstKept(before, s0, h0);
      if run[|run| - 1].Complete? {
        var e := run[|run| - 1].entry;
        Reached(before, s0, h0);
        DroppedOnlyWhenFull(before, s0, h0, e);
        SelectSnoc(h0.completed, h0.kept, e, |s0.ch| < 2048);
      }
    }
  }

  // ---- The logger object ----

  class RequestLogger {
    var ch: seq<LogEntry>
    var writing: Option<LogEntry>
    var rows: seq<Row>
    var logSeq: nat

    function State(): Log
      reads this
    {
      Log(ch, writing, rows, logSeq)
    }

    constructor ()
      ensures State() == EMPTY
    {
      ch, writing, rows, logSeq := [], None, [], 0;
    }

    /** After a request: an entry is made and sent without waiting. */
    method Record(verb: string, path: string, query: string, status: int, ip: string, userAgent: string,
                  contextPrincipal: string)
      returns (entry: LogEntry)
      modifies this
      ensures entry == LogEntry(verb, path, query, status, ip, userAgent,
                                if contextPrincipal == "" then "anon" else contextPrincipal)
      ensures State() == Step(old(State()), Complete(entry))
    {
      var principal := "anon";
      if contextPrincipal != "" {
        principal := contextPrincipal;
      }
      entry := LogEntry(verb, path, query, status, ip, userAgent, principal);
      if |ch| < CAPACITY {
        ch := ch + [entry];
      }
    }

    /** The writer receives the oldest entry. */
    method Receive()
      requires Enabled(State(), Take)
      modifies this
      ensures State() == Step(old(State()), Take)
    {
      writing := Some(ch[0]);
      ch := ch[1..];
    }

    /** The writer's insertion ends, with a new row or with an error that is only reported. */
    method InsertLog(ok: bool)
      requires Enabled(State(), Insert(ok))
      modifies this
      ensures State() == Step(old(State()), Insert(ok))
    {
      if ok {
        logSeq := logSeq + 1;
        rows := rows + [Row(logSeq, writing.value)];
      }
      writing := None;
    }
  }
}
