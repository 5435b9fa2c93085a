/**
  Deletions of users that are not atomic: the middleware checks that the requester is an admin, and
  some time later the handler deletes.  Between the two, other requests and other deletions run.
*/
module AdminRaces {
  import opened Wrappers
  import opened Text
  import opened Store
  import opened Accounts

  /** A deletion that has passed the check: who asked, and the id in the path. */
  datatype Pending = Pending(self: int, id: string)

  datatype World = World(sys: Sys, pending: map<nat, Pending>)

  /** Any request but a deletion is one step; a deletion is a Check and an Execute with one ticket. */
  datatype Event =
    | Atomic(req: Request)
    | Check(ticket: nat, authorization: string, id: string)
    | Execute(ticket: nat)

  datatype Moment = Moment(ev: Event, now: int)

  const START := World(Sys(EMPTY, map[]), map[])

  ghost function Step(env: Env, w: World, a: Moment): World {
    match a.ev
    case Atomic(req) => if req.AdminDeleteUser? then w else w.(sys := Handle(env, w.sys, req, a.now).0)
    case Check(ticket, authz, id) =>
      var r := RequireAdmin(w.sys, authz, a.now);
      if r.Err? || ticket in w.pending then w else w.(pending := w.pending[ticket := Pending(r.value, id)])
    case Execute(ticket) =>
      if ticket !in w.pending then w
      else World(OnDeleteUser(w.sys, w.pending[ticket].id, w.pending[ticket].self).0, w.pending - {ticket})
  }

  /** The state after a run from empty tables. */
  ghost function Reach(env: Env, run: seq<Moment>): World {
    if run == [] then START else Step(env, Reach(env, run[..|run| - 1]), run[|run| - 1])
  }

  /** Never more than k deletions are between their check and their execution. */
  ghost predicate AtMost(env: Env, run: seq<Moment>, k: nat) {
    forall n | 0 <= n <= |run| :: |Reach(env, run[..n]).pending| <= k
  }

  /** Once there is an admin, there is one ever after, if at most k deletions are pending at a time. */
  ghost predicate AdminsLast(k: nat) {
    forall env, run, n | 0 <= n <= |run| && AtMost(env, run, k) && SomeAdmin(Reach(env, run[..n]).sys.db) ::
      SomeAdmin(Reach(env, run).sys.db)
  }

  /** A check followed at once by its execution is the atomic request. */
  lemma {:induction false} SplitIsAtomic(env: Env, w: World, ticket: nat, authz: string, id: string, now: int,
                                         later: int)
    requires ticket !in w.pending
    ensures var checked := Step(env, w, Moment(Check(ticket, authz, id), now));
      Step(env, checked, Moment(Execute(ticket), later))
      == w.(sys := Handle(env, w.sys, AdminDeleteUser(authz, id), now).0)
  {
    var checked := Step(env, w, Moment(Check(ticket, authz, id), now));
    if ticket in checked.pending {
      assert checked.pending - {ticket} == w.pending;
    }
  }

  // ---- One pending deletion is harmless ----

  /** Who has a deletion pending is still an admin. */
  ghost predicate OneAdminPending(w: World) {
    && Sound(w.sys) && |w.pending| <= 1
    && forall t | t in w.pending :: w.pending[t].self in Admins(w.sys.db)
  }

  lemma {:induction false} AdminStays(env: Env, s: Sys, req: Request, now: int, a: int)
    requires Sound(s) && !req.AdminDeleteUser? && a in Admins(s.db)
    ensures a in Admins(Handle(env, s, req, now).0.db)
  {
    HandleKeeps(env, s, req, now);
    StaysUser(env, s, req, now, a);
  }

  lemma {:induction false} DeleterStays(s: Sys, id: string, self: int)
    requires self in Admins(s.db)
    ensures self in Admins(OnDeleteUser(s, id, self).0.db)
  {
  }

  lemma {:induction false} OnlyOne<V>(m: map<nat, V>, t: nat)
    requires |m| <= 1 && t in m
    ensures m - {t} == map[]
  {
    assert m.Keys == {t} + (m.Keys - {t});
    assert |m.Keys - {t}| == 0;
  }

  lemma {:induction false} PendingStep(env: Env, w: World, a: Moment)
    requires OneAdminPending(w) && |Step(env, w, a).pending| <= 1
    ensures OneAdminPending(Step(env, w, a))
    ensures SomeAdmin(w.sys.db) ==> SomeAdmin(Step(env, w, a).sys.db)
  {
    match a.ev
    case Atomic(req) =>
      if !req.AdminDeleteUser? {
        HandleKeeps(env, w.sys, req, a.now);
        forall u | u in Admins(w.sys.db) ensures u in Admins(Step(env, w, a).sys.db) {
          AdminStays(env, w.sys, req, a.now, u);
        }
      }
    case Check(_, _, _) =>
    case Execute(ticket) =>
      if ticket in w.pending {
        var p := w.pending[ticket];
        DeleteUserKeeps(w.sys, p.id, p.self);
        DeleterStays(w.sys, p.id, p.self);
        OnlyOne(w.pending, ticket);
      }
  }

  lemma {:induction false} AtMostBefore(env: Env, run: seq<Moment>, k: nat, m: nat)
    requires m <= |run| && AtMost(env, run, k)
    ensures AtMost(env, run[..m], k)
    ensures |Reach(env, run).pending| <= k
  {
    forall n | 0 <= n <= m ensures |Reach(env, run[..m][..n]).pending| <= k {
      assert run[..m][..n] == run[..n];
    }
    assert run[..|run|] == run;
  }

  lemma {:induction false} PendingReached(env: Env, run: seq<Moment>)
    requires AtMost(env, run, 1)
    ensures OneAdminPending(Reach(env, run))
  {
    if run != [] {
      var n := |run| - 1;
      AtMostBefore(env, run, 1, n);
      PendingReached(env, run[..n]);
      PendingStep(env, Reach(env, run[..n]), run[n]);
    }
  }

  lemma {:induction false} OneAtATime(env: Env, run: seq<Moment>, n: nat)
    requires n <= |run| && AtMost(env, run, 1) && SomeAdmin(Reach(env, run[..n]).sys.db)
    ensures SomeAdmin(Reach(env, run).sys.db)
  {
    if n == |run| {
      assert run[..n] == run;
    } else {
      var m := |run| - 1;
      AtMostBefore(env, run, 1, m);
      assert run[..m][..n] == run[..n];
      OneAtATime(env, run[..m], n);
      PendingReached(env, run[..m]);
      PendingStep(env, Reach(env, run[..m]), run[m]);
    }
  }

  // ---- Two are not ----

  function Checks(run: seq<Moment>): nat {
    if run == [] then 0 else Checks(run[..|run| - 1]) + (if run[|run| - 1].ev.Check? then 1 else 0)
  }

  lemma {:induction false} PendingByChecks(env: Env, run: seq<Moment>, n: nat)
    requires n <= |run|
    ensures |Reach(env, run[..n]).pending| <= Checks(run)
  {
    if n == |run| {
      assert run[..n] == run;
      if n > 0 {
        PendingByChecks(env, run[..n - 1], n - 1);
        assert run[..n - 1][..n - 1] == run[..n - 1];
        PendingGrows(env, Reach(env, run[..n - 1]), run[n - 1]);
      }
    } else {
      assert run[..|run| - 1][..n] == run[..n];
      PendingByChecks(env, run[..|run| - 1], n);
    }
  }

  lemma {:induction false} PendingGrows(env: Env, w: World, a: Moment)
    ensures |Step(env, w, a).pending| <= |w.pending| + (if a.ev.Check? then 1 else 0)
  {
    match a.ev
    case Atomic(_) =>
    case Check(ticket, _, _) =>
      if Step(env, w, a).pending != w.pending {
        assert Step(env, w, a).pending.Keys == w.pending.Keys + {ticket};
      }
    case Execute(ticket) =>
      SmallerKeys((w.pending - {ticket}).Keys, w.pending.Keys);
  }

  lemma {:induction false} SmallerKeys(a: set<nat>, b: set<nat>)
    requires a <= b
    ensures |a| <= |b|
  {
    assert b == a + (b - a);
  }

  /** Every password is right, every address is well-formed, and a token is the id it stands for. */
  const DUEL_ENV := Env((c: Claims) => c.subject, (t: string) => t, (h: string, p: string) => true,
                        (e: string) => true, HOUR)

  const FIRST := User("a@example.org", "h", ADMIN, true)
  const SECOND := User("b@example.org", "h", ADMIN, true)

  const TWO_ADMINS := Db(map[1 := FIRST, 2 := SECOND], map[], 2, 0)

  /** Two admins are created and sign in. */
  const SIGNING_IN := [
    Moment(Atomic(CreateAdmin("a@example.org", "h")), 0), Moment(Atomic(CreateAdmin("b@example.org", "h")), 0),
    Moment(Atomic(Login("a@example.org", "p")), 0), Moment(Atomic(Login("b@example.org", "p")), 0)]

  /** Each asks to delete the other, both are checked, then both deletions are executed. */
  const DUEL := [
    Moment(Check(0, "Bearer 1", "2"), 0), Moment(Check(1, "Bearer 2", "1"), 0),
    Moment(Execute(0), 0), Moment(Execute(1), 0)]

  /** The same steps, taken from the first event on. */
  ghost function Play(env: Env, w: World, run: seq<Moment>): World
    decreases |run|
  {
    if run == [] then w else Play(env, Step(env, w, run[0]), run[1..])
  }

  lemma {:induction false} ReachPlay(env: Env, run: seq<Moment>, more: seq<Moment>)
    ensures Reach(env, run + more) == Play(env, Reach(env, run), more)
    decreases |more|
  {
    if more == [] {
      assert run + more == run;
    } else {
      var next := run + [more[0]];
      assert next[..|run|] == run;
      ReachPlay(env, next, more[1..]);
      assert run + more == next + more[1..];
    }
  }

  lemma {:induction false} PlayFour(env: Env, w: World, a: Moment, b: Moment, c: Moment, d: Moment)
    ensures Play(env, w, [a, b, c, d]) == Step(env, Step(env, Step(env, Step(env, w, a), b), c), d)
  {
    assert [a, b, c, d][1..] == [b, c, d] && [b, c, d][1..] == [c, d] && [c, d][1..] == [d] && [d][1..] == [];
    var x := Step(env, w, a);
    var y := Step(env, x, b);
    var z := Step(env, y, c);
    assert Play(env, z, [d]) == Step(env, z, d);
    assert Play(env, y, [c, d]) == Step(env, z, d);
    assert Play(env, x, [b, c, d]) == Step(env, z, d);
  }

  /** Four more events, one after the other. */
  lemma {:induction false} ReachFour(env: Env, run: seq<Moment>, more: seq<Moment>)
    requires |more| == 4
    ensures var w := Reach(env, run);
      Reach(env, run + more) == Step(env, Step(env, Step(env, Step(env, w, more[0]), more[1]), more[2]), more[3])
  {
    assert more == [more[0], more[1], more[2], more[3]];
    ReachPlay(env, run, more);
    PlayFour(env, Reach(env, run), more[0], more[1], more[2], more[3]);
  }

  lemma {:induction false} Numerals()
    ensures Itoa(1) == "1" && Itoa(2) == "2"
  {
  }

  lemma {:induction false} Bearers()
    ensures Bearer("Bearer 1") == Some("1") && Bearer("Bearer 2") == Some("2")
  {
    TrimGraphic("Bearer 1");
    TrimGraphic("Bearer 2");
    TrimGraphic("1");
    TrimGraphic("2");
    assert "Bearer 1"[..7] == "Bearer " && "Bearer 1"[7..] == "1";
    assert "Bearer 2"[..7] == "Bearer " && "Bearer 2"[7..] == "2";
  }

  lemma {:induction false} TwoCreated()
    ensures InsertUser(EMPTY, FIRST) == (Db(map[1 := FIRST], map[], 1, 0), Ok(1))
    ensures InsertUser(Db(map[1 := FIRST], map[], 1, 0), SECOND) == (TWO_ADMINS, Ok(2))
    ensures Wf(TWO_ADMINS) && Admins(TWO_ADMINS) == {1, 2}
  {
    var one := Db(map[1 := FIRST], map[], 1, 0);
    InsertUserKeeps(EMPTY, FIRST);
    assert one.users[1].email[0] == 'a' && SECOND.email[0] == 'b';
    InsertUserKeeps(one, SECOND);
  }

  lemma {:induction false} LoggedIn(s: Sys, u: int, now: int)
    requires Sound(s) && u in s.db.users
    ensures OnLogin(DUEL_ENV, s, s.db.users[u].email, "p", now).0
            == Sys(s.db, s.issued[Itoa(u) := ClaimsOf(DUEL_ENV, u, s.db.users[u], now)])
  {
    assert UserByEmail(s.db, s.db.users[u].email) == Some(u);
  }

  /** The state before the duel: both admins hold sessions. */
  function SignedIn(): Sys {
    Sys(TWO_ADMINS, map["1" := ClaimsOf(DUEL_ENV, 1, FIRST, 0), "2" := ClaimsOf(DUEL_ENV, 2, SECOND, 0)])
  }

  lemma {:induction false} BothSignIn()
    ensures Reach(DUEL_ENV, SIGNING_IN) == World(SignedIn(), map[]) && Sound(SignedIn())
  {
    Numerals();
    TwoCreated();
    ReachFour(DUEL_ENV, [], SIGNING_IN);
    assert [] + SIGNING_IN == SIGNING_IN;
    var s := Sys(TWO_ADMINS, map[]);
    LoggedIn(s, 1, 0);
    var t := Sys(TWO_ADMINS, map["1" := ClaimsOf(DUEL_ENV, 1, FIRST, 0)]);
    AtoiItoa(1);
    AtoiItoa(2);
    LoggedIn(t, 2, 0);
  }

  lemma {:induction false} BothPass()
    ensures RequireAdmin(SignedIn(), "Bearer 1", 0) == Ok(1) && RequireAdmin(SignedIn(), "Bearer 2", 0) == Ok(2)
  {
    Numerals();
    Bearers();
    AtoiItoa(1);
    AtoiItoa(2);
  }

  lemma {:induction false} CheckPasses(env: Env, w: World, ticket: nat, authz: string, id: string, self: int)
    requires ticket !in w.pending && RequireAdmin(w.sys, authz, 0) == Ok(self)
    ensures Step(env, w, Moment(Check(ticket, authz, id), 0))
            == World(w.sys, w.pending[ticket := Pending(self, id)])
  {
  }

  lemma {:induction false} ExecuteDeletes(env: Env, w: World, ticket: nat, self: int, id: string)
    requires ticket in w.pending && w.pending[ticket] == Pending(self, id)
    ensures Step(env, w, Moment(Execute(ticket), 0)) == World(OnDeleteUser(w.sys, id, self).0, w.pending - {ticket})
  {
  }

  /** Two checked deletions, executed one after the other. */
  lemma {:induction false} BothDelete(env: Env, s: Sys, a: int, b: int, authA: string, authB: string)
    requires RequireAdmin(s, authA, 0) == Ok(a) && RequireAdmin(s, authB, 0) == Ok(b)
    ensures var w := World(s, map[]);
      var first := Step(env, w, Moment(Check(0, authA, Itoa(b)), 0));
      var second := Step(env, first, Moment(Check(1, authB, Itoa(a)), 0));
      Step(env, Step(env, second, Moment(Execute(0), 0)), Moment(Execute(1), 0)).sys
      == OnDeleteUser(OnDeleteUser(s, Itoa(b), a).0, Itoa(a), b).0
  {
    var w := World(s, map[]);
    CheckPasses(env, w, 0, authA, Itoa(b), a);
    var first := World(s, map[0 := Pending(a, Itoa(b))]);
    CheckPasses(env, first, 1, authB, Itoa(a), b);
    var second := World(s, map[0 := Pending(a, Itoa(b)), 1 := Pending(b, Itoa(a))]);
    assert w.pending[0 := Pending(a, Itoa(b))] == first.pending;
    assert first.pending[1 := Pending(b, Itoa(a))] == second.pending;
    ExecuteDeletes(env, second, 0, a, Itoa(b));
    var third := World(OnDeleteUser(s, Itoa(b), a).0, second.pending - {0});
    ExecuteDeletes(env, third, 1, b, Itoa(a));
  }

  lemma {:induction false} DuelEnds()
    ensures Reach(DUEL_ENV, SIGNING_IN + DUEL).sys
            == OnDeleteUser(OnDeleteUser(SignedIn(), Itoa(2), 1).0, Itoa(1), 2).0
  {
    BothSignIn();
    BothPass();
    Numerals();
    ReachFour(DUEL_ENV, SIGNING_IN, DUEL);
    BothDelete(DUEL_ENV, SignedIn(), 1, 2, "Bearer 1", "Bearer 2");
  }

  lemma {:induction false} DuelReached()
    ensures SomeAdmin(Reach(DUEL_ENV, SIGNING_IN).sys.db) && !SomeAdmin(Reach(DUEL_ENV, SIGNING_IN + DUEL).sys.db)
  {
    BothSignIn();
    BothPass();
    TwoCreated();
    DuelEnds();
    assert 1 in Admins(TWO_ADMINS);
    InterleavedDeletions(SignedIn(), 1, 2, "Bearer 1", "Bearer 2", 0);
  }

  lemma {:induction false} ChecksConcat(run: seq<Moment>, more: seq<Moment>)
    ensures Checks(run + more) == Checks(run) + Checks(more)
  {
    if more == [] {
      assert run + more == run;
    } else {
      var n := |more| - 1;
      ChecksConcat(run, more[..n]);
      assert (run + more)[..|run| + n] == run + more[..n];
    }
  }

  lemma {:induction false} ChecksFour(a: Moment, b: Moment, c: Moment, d: Moment)
    ensures Checks([a, b, c, d]) == (if a.ev.Check? then 1 else 0) + (if b.ev.Check? then 1 else 0)
                                    + (if c.ev.Check? then 1 else 0) + (if d.ev.Check? then 1 else 0)
  {
    ChecksConcat([a, b, c], [d]);
    ChecksConcat([a, b], [c]);
    ChecksConcat([a], [b]);
    assert [a] + [b] == [a, b] && [a, b] + [c] == [a, b, c] && [a, b, c] + [d] == [a, b, c, d];
    ChecksOne(a);
    ChecksOne(b);
    ChecksOne(c);
    ChecksOne(d);
  }

  lemma {:induction false} ChecksOne(a: Moment)
    ensures Checks([a]) == if a.ev.Check? then 1 else 0
  {
    assert [a][..0] == [];
  }

  lemma {:induction false} DuelChecks()
    ensures Checks(SIGNING_IN + DUEL) == 2
  {
    ChecksConcat(SIGNING_IN, DUEL);
    ChecksFour(SIGNING_IN[0], SIGNING_IN[1], SIGNING_IN[2], SIGNING_IN[3]);
    ChecksFour(DUEL[0], DUEL[1], DUEL[2], DUEL[3]);
  }

  lemma {:induction false} TwoAreTooMany(k: nat)
    requires k >= 2
    ensures !AdminsLast(k)
  {
    var run := SIGNING_IN + DUEL;
    DuelReached();
    DuelChecks();
    forall n | 0 <= n <= |run| ensures |Reach(DUEL_ENV, run[..n]).pending| <= k {
      PendingByChecks(DUEL_ENV, run, n);
    }
    assert run[..4] == SIGNING_IN;
    assert AtMost(DUEL_ENV, run, k) && SomeAdmin(Reach(DUEL_ENV, run[..4]).sys.db);
  }

  /**
    Admins last through every interleaving in which at most k deletions are pending at a time, if
    and only if k is at most one: it is enough to admit a deletion's check only while no other
    deletion is between its check and its execution, and nothing weaker will do.
  */
  lemma {:induction false} AdminsLastIff(k: nat)
    ensures AdminsLast(k) <==> k <= 1
  {
    if k >= 2 {
      TwoAreTooMany(k);
    } else {
      forall env, run, n | 0 <= n <= |run| && AtMost(env, run, k) && SomeAdmin(Reach(env, run[..n]).sys.db)
        ensures SomeAdmin(Reach(env, run).sys.db)
      {
        OneAtATime(env, run, n);
      }
    }
  }
}
