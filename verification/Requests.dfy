/**
  What each request does, said of Handle alone, and what follows for whole runs: where every token,
  key, revocation, deletion and administrator comes from.
*/
module Requests {
  import opened Wrappers
  import opened Text
  import opened Transforms
  import opened Store
  import opened Accounts

  // ---- One request ----

  ghost function Reply(env: Env, s: Sys, req: Request, now: int): Accounts.Reply { Handle(env, s, req, now).1 }

  ghost function Next(env: Env, s: Sys, req: Request, now: int): Sys { Handle(env, s, req, now).0 }

  /** The user with this e-mail address, for whom this is the right password. */
  ghost predicate HasPassword(env: Env, db: Db, email: string, password: string, u: int) {
    u in db.users && db.users[u].email == email && env.checkPassword(db.users[u].passwordHash, password)
  }

  /** A token that stands for u for as long as sessions last, and is all that is new in t. */
  ghost predicate SignsIn(env: Env, s: Sys, t: Sys, token: string, u: int, now: int) {
    && u in t.db.users
    && t.issued == s.issued[token := Claims(Itoa(u), t.db.users[u].role, t.db.users[u].email, now, now + Ttl(env))]
    && SessionUser(t, token, now) == Some(u)
  }

  lemma {:induction false} IssueSignsIn(env: Env, s: Sys, u: int, now: int)
    requires Sound(s) && u in s.db.users
    ensures var (t, token) := IssueJWT(env, s, u, s.db.users[u], now);
      SignsIn(env, s, t, token, u, now) && t.db == s.db
  {
    AtoiItoa(u);
  }

  /** A login succeeds exactly with the right password; otherwise nothing happens. */
  lemma {:induction false} LoginMeans(env: Env, s: Sys, email: string, password: string, now: int)
    requires Sound(s)
    ensures var (t, reply) := Handle(env, s, Login(email, password), now);
      && (reply.Session? <==> exists u :: HasPassword(env, s.db, email, password, u))
      && (reply.Session? ==> t.db == s.db)
      && (forall u | HasPassword(env, s.db, email, password, u) ::
            reply.Session? && SignsIn(env, s, t, reply.token, u, now))
      && (!reply.Session? ==> reply == Refused(401, "invalid_credentials") && t == s)
  {
    var u := UserByEmail(s.db, email);
    if u.Some? {
      IssueSignsIn(env, s, u.value, now);
      assert HasPassword(env, s.db, email, password, u.value)
             <==> env.checkPassword(s.db.users[u.value].passwordHash, password);
    }
  }

  /** What a registration is refused for, in this order. */
  function RegisterRefusal(env: Env, s: Sys, email: string, password: string, acceptTOS: bool, hash: Option<string>)
    : Option<Accounts.Reply>
  {
    if !env.emailOk(email) || |password| < 8 then Some(Refused(400, "invalid_input"))
    else if !acceptTOS then Some(Refused(400, "tos_required"))
    else if exists u | u in s.db.users :: s.db.users[u].email == email then Some(Refused(409, "email_taken"))
    else if hash.None? || s.db.userSeq >= MAX_INT then Some(Refused(500, "internal_error"))
    else None
  }

  /** A registration adds a client under a new id and signs it in, or does nothing. */
  lemma {:induction false} RegisterMeans(
    env: Env, s: Sys, email: string, password: string, acceptTOS: bool, hash: Option<string>, now: int)
    requires Sound(s)
    ensures var (t, reply) := Handle(env, s, Register(email, password, acceptTOS, hash), now);
      match RegisterRefusal(env, s, email, password, acceptTOS, hash)
      case Some(refusal) => reply == refusal && t == s
      case None =>
        var u := s.db.userSeq + 1;
        && u !in s.db.users
        && t.db == s.db.(users := s.db.users[u := User(email, hash.value, "client", true)], userSeq := u)
        && reply.Session? && SignsIn(env, s, t, reply.token, u, now)
  {
    if RegisterRefusal(env, s, email, password, acceptTOS, hash).None? {
      var user := User(email, hash.value, CLIENT, true);
      InsertUserKeeps(s.db, user);
      var db := InsertUser(s.db, user).0;
      TablesKeep(s, db);
      IssueSignsIn(env, Sys(db, s.issued), s.db.userSeq + 1, now);
    }
  }

  /** A key gets the name asked for, trimmed and cut to 60 characters, or "default". */
  lemma {:induction false} KeyNameMeans(name: string)
    ensures TrimSpace(name) == "" ==> KeyName(name) == "default"
    ensures TrimSpace(name) != "" && |TrimSpace(name)| <= 60 ==> KeyName(name) == TrimSpace(name)
    ensures |TrimSpace(name)| > 60 ==> |KeyName(name)| == 60 && KeyName(name) <= TrimSpace(name)
  {
  }

  lemma {:induction false} MintMeans(env: Env, s: Sys, u: int, name: string, random: KeyBytes)
    requires Sound(s) && u in s.db.users
    ensures var (t, reply) := OnCreateKey(env, s, u, name, random);
      var plaintext := "pk_" + EncodeHex(random);
      if HashTaken(s.db, env.hashKey(plaintext)) || s.db.keySeq >= MAX_INT then
        reply == Refused(500, "internal_error") && t == s
      else
        var k := s.db.keySeq + 1;
        var row := APIKey(u, KeyName(name), plaintext[..9], env.hashKey(plaintext), false);
        && k !in s.db.keys && reply == KeyMinted(k, plaintext)
        && t == Sys(s.db.(keys := s.db.keys[k := row], keySeq := k), s.issued)
  {
  }

  /** A signed-in user gets a new key of its own; nothing else changes. */
  lemma {:induction false} CreateKeyMeans(env: Env, s: Sys, authz: string, name: string, random: KeyBytes, now: int)
    requires Sound(s)
    ensures var (t, reply) := Handle(env, s, CreateKey(authz, name, random), now);
      var plaintext := "pk_" + EncodeHex(random);
      match ResolveSession(s, authz, now)
      case None => reply == Refused(401, "unauthorized") && t == s
      case Some(u) =>
        if HashTaken(s.db, env.hashKey(plaintext)) || s.db.keySeq >= MAX_INT then
          reply == Refused(500, "internal_error") && t == s
        else
          var k := s.db.keySeq + 1;
          var row := APIKey(u, KeyName(name), plaintext[..9], env.hashKey(plaintext), false);
          && k !in s.db.keys && reply == KeyMinted(k, plaintext)
          && t == Sys(s.db.(keys := s.db.keys[k := row], keySeq := k), s.issued)
  {
    var u := ResolveSession(s, authz, now);
    if u.Some? {
      MintMeans(env, s, u.value, name, random);
      assert Handle(env, s, CreateKey(authz, name, random), now) == OnCreateKey(env, s, u.value, name, random);
    }
  }

  /** The command line adds an administrator under a new id, or does nothing. */
  lemma {:induction false} CreateAdminMeans(env: Env, s: Sys, email: string, hash: string, now: int)
    ensures var (t, reply) := Handle(env, s, CreateAdmin(email, hash), now);
      if EmailTaken(s.db, email) || s.db.userSeq >= MAX_INT then reply == Refused(500, "internal_error") && t == s
      else
        var u := s.db.userSeq + 1;
        && reply == Created(u)
        && t == Sys(s.db.(users := s.db.users[u := User(email, hash, "admin", true)], userSeq := u), s.issued)
  {
  }

  /** The state after one key is revoked. */
  function RevokedOnly(s: Sys, k: int): Sys
    requires k in s.db.keys
  {
    s.(db := s.db.(keys := s.db.keys[k := s.db.keys[k].(revoked := true)]))
  }

  /** Only a key of the signed-in user is revoked, and nothing else. */
  lemma {:induction false} RevokeKeyMeans(env: Env, s: Sys, authz: string, id: string, now: int)
    ensures var (t, reply) := Handle(env, s, RevokeKey(authz, id), now);
      match ResolveSession(s, authz, now)
      case None => reply == Refused(401, "unauthorized") && t == s
      case Some(u) =>
        match Atoi(id)
        case None => reply == Refused(400, "invalid_input") && t == s
        case Some(k) =>
          if k in s.db.keys && s.db.keys[k].userID == u then reply == Revoked(k) && t == RevokedOnly(s, k)
          else reply == Refused(404, "not_found") && t == s
  {
  }

  /** What an administrator's request is refused for before anything else. */
  function AdminRefusal(s: Sys, authz: string, now: int): Option<Accounts.Reply> {
    match ResolveSession(s, authz, now)
    case None => Some(Refused(401, "unauthorized"))
    case Some(u) => if s.db.users[u].role == "admin" then None else Some(Refused(403, "forbidden"))
  }

  /** A signed-in administrator revokes any key, and nothing else. */
  lemma {:induction false} AdminRevokeKeyMeans(env: Env, s: Sys, authz: string, id: string, now: int)
    ensures var (t, reply) := Handle(env, s, AdminRevokeKey(authz, id), now);
      match AdminRefusal(s, authz, now)
      case Some(refusal) => reply == refusal && t == s
      case None =>
        match Atoi(id)
        case None => reply == Refused(400, "invalid_input") && t == s
        case Some(k) =>
          if k in s.db.keys then reply == Revoked(k) && t == RevokedOnly(s, k)
          else reply == Refused(404, "not_found") && t == s
  {
  }

  /** The state after one user is gone, and its keys. */
  function WithoutUser(s: Sys, u: int): Sys {
    var left := map k | k in s.db.keys && s.db.keys[k].userID != u :: s.db.keys[k];
    s.(db := s.db.(users := s.db.users - {u}, keys := left))
  }

  /** A signed-in administrator deletes any other user with its keys, and nothing else. */
  lemma {:induction false} AdminDeleteUserMeans(env: Env, s: Sys, authz: string, id: string, now: int)
    ensures var (t, reply) := Handle(env, s, AdminDeleteUser(authz, id), now);
      match AdminRefusal(s, authz, now)
      case Some(refusal) => reply == refusal && t == s
      case None =>
        match Atoi(id)
        case None => reply == Refused(400, "invalid_input") && t == s
        case Some(u) =>
          if Some(u) == ResolveSession(s, authz, now) then reply == Refused(400, "cannot_delete_self") && t == s
          else if u in s.db.users then reply == Deleted(u) && t == WithoutUser(s, u)
          else reply == Refused(404, "not_found") && t == s
  {
  }

  // ---- Runs ----

  lemma {:induction false} AfterLast(env: Env, s: Sys, run: seq<Timed>)
    requires run != []
    ensures var n := |run| - 1;
      After(env, s, run) == Next(env, After(env, s, run[..n]), run[n].req, run[n].now)
    decreases |run|
  {
    var n := |run| - 1;
    if n > 0 {
      AfterLast(env, Next(env, s, run[0].req, run[0].now), run[1..]);
      assert run[1..][..n - 1] == run[..n][1..];
    }
  }

  /** The state before the i-th request. */
  ghost function Before(env: Env, s: Sys, run: seq<Timed>, i: nat): Sys
    requires i <= |run|
  {
    After(env, s, run[..i])
  }

  lemma {:induction false} BeforeInPrefix(env: Env, s: Sys, run: seq<Timed>, n: nat, i: nat)
    requires i <= n <= |run|
    ensures Before(env, s, run[..n], i) == Before(env, s, run, i)
  {
    assert run[..n][..i] == run[..i];
  }

  lemma {:induction false} SoundBefore(env: Env, s: Sys, run: seq<Timed>, i: nat)
    requires Sound(s) && i <= |run|
    ensures Sound(Before(env, s, run, i))
  {
    RunKeeps(env, s, run[..i]);
  }

  /** The i-th request answers with the token, having registered u or having checked u's password. */
  ghost predicate SignedInAt(env: Env, s: Sys, run: seq<Timed>, i: nat, token: string, u: int)
    requires i < |run|
  {
    SignedInBy(env, Before(env, s, run, i), run[i], token, u)
  }

  ghost predicate SignedInBy(env: Env, s: Sys, a: Timed, token: string, u: int) {
    && Reply(env, s, a.req, a.now) == Session(token)
    && match a.req
       case Login(email, password) => HasPassword(env, s.db, email, password, u)
       case Register(email, _, _, _) =>
         && u !in s.db.users && u in Next(env, s, a.req, a.now).db.users
         && Next(env, s, a.req, a.now).db.users[u].email == email
       case _ => false
  }

  ghost predicate TokenOrigin(env: Env, s: Sys, run: seq<Timed>, token: string, subject: string) {
    exists i, u | 0 <= i < |run| :: SignedInAt(env, s, run, i, token, u) && subject == Itoa(u)
  }

  lemma {:induction false} TokenStep(env: Env, s: Sys, a: Timed, token: string)
    requires Sound(s) && token in Next(env, s, a.req, a.now).issued
    ensures var t := Next(env, s, a.req, a.now);
      || (token in s.issued && t.issued[token] == s.issued[token])
      || exists u :: SignedInBy(env, s, a, token, u) && t.issued[token].subject == Itoa(u)
  {
    var t := Next(env, s, a.req, a.now);
    match a.req
    case Login(email, password) =>
      LoginMeans(env, s, email, password, a.now);
      if t.issued != s.issued {
        var u :| HasPassword(env, s.db, email, password, u);
        if token == Reply(env, s, a.req, a.now).token {
          assert SignedInBy(env, s, a, token, u);
        }
      }
    case Register(email, password, tos, hash) =>
      RegisterMeans(env, s, email, password, tos, hash, a.now);
      if t.issued != s.issued {
        if token == Reply(env, s, a.req, a.now).token {
          assert SignedInBy(env, s, a, token, s.db.userSeq + 1);
        }
      }
    case CreateKey(authz, name, random) => CreateKeyMeans(env, s, authz, name, random, a.now);
    case RevokeKey(authz, id) => RevokeKeyMeans(env, s, authz, id, a.now);
    case AdminDeleteUser(authz, id) => AdminDeleteUserMeans(env, s, authz, id, a.now);
    case AdminRevokeKey(authz, id) => AdminRevokeKeyMeans(env, s, authz, id, a.now);
    case CreateAdmin(_, _) =>
  }

  /**
    Every token that verifies at the end of a run, and did not already at its start for the same
    claims, was the answer to a registration of its user or to a login with its user's password.
  */
  lemma {:induction false} TokensEarned(env: Env, s: Sys, run: seq<Timed>, token: string)
    requires Sound(s) && token in After(env, s, run).issued
    ensures var t := After(env, s, run);
      || (token in s.issued && t.issued[token] == s.issued[token])
      || TokenOrigin(env, s, run, token, t.issued[token].subject)
  {
    if run != [] {
      var n := |run| - 1;
      var before := Before(env, s, run, n);
      var t := After(env, s, run);
      AfterLast(env, s, run);
      SoundBefore(env, s, run, n);
      TokenStep(env, before, run[n], token);
      if token in before.issued && t.issued[token] == before.issued[token] {
        TokensEarned(env, s, run[..n], token);
        if TokenOrigin(env, s, run[..n], token, t.issued[token].subject) {
          var i, u :| 0 <= i < n && SignedInAt(env, s, run[..n], i, token, u) && t.issued[token].subject == Itoa(u);
          BeforeInPrefix(env, s, run, n, i);
          assert SignedInAt(env, s, run, i, token, u);
        }
      } else {
        var u :| SignedInBy(env, before, run[n], token, u) && t.issued[token].subject == Itoa(u);
        assert SignedInAt(env, s, run, n, token, u);
      }
    }
  }

  /** The i-th request, of a signed-in administrator other than u, deletes u. */
  ghost predicate DeletedAt(env: Env, s: Sys, run: seq<Timed>, i: nat, u: int)
    requires i < |run|
  {
    DeletedBy(Before(env, s, run, i), run[i], u)
  }

  predicate DeletedBy(s: Sys, a: Timed, u: int) {
    && a.req.AdminDeleteUser? && Atoi(a.req.id) == Some(u)
    && var admin := ResolveSession(s, a.req.authorization, a.now);
       admin.Some? && admin.value in Admins(s.db) && admin.value != u
  }

  lemma {:induction false} UserStep(env: Env, s: Sys, a: Timed, u: int)
    requires Sound(s) && u in s.db.users && u !in Next(env, s, a.req, a.now).db.users
    ensures DeletedBy(s, a, u)
  {
    match a.req
    case Login(email, password) => LoginMeans(env, s, email, password, a.now);
    case Register(email, password, tos, hash) => RegisterMeans(env, s, email, password, tos, hash, a.now);
    case CreateKey(authz, name, random) => CreateKeyMeans(env, s, authz, name, random, a.now);
    case RevokeKey(authz, id) => RevokeKeyMeans(env, s, authz, id, a.now);
    case AdminDeleteUser(authz, id) => AdminDeleteUserMeans(env, s, authz, id, a.now);
    case AdminRevokeKey(authz, id) => AdminRevokeKeyMeans(env, s, authz, id, a.now);
    case CreateAdmin(_, _) =>
  }

  /** No user goes but by the request of another, who is an administrator at that moment. */
  lemma {:induction false} DeletionsAuthorised(env: Env, s: Sys, run: seq<Timed>, u: int) returns (i: nat)
    requires Sound(s) && u in s.db.users && u !in After(env, s, run).db.users
    ensures i < |run| && DeletedAt(env, s, run, i, u)
  {
    var n := |run| - 1;
    AfterLast(env, s, run);
    SoundBefore(env, s, run, n);
    if u in Before(env, s, run, n).db.users {
      i := n;
      UserStep(env, Before(env, s, run, n), run[n], u);
    } else {
      i := DeletionsAuthorised(env, s, run[..n], u);
      BeforeInPrefix(env, s, run, n, i);
    }
  }

  /** The i-th request creates the administrator u. */
  ghost predicate AppointedAt(env: Env, s: Sys, run: seq<Timed>, i: nat, u: int)
    requires i < |run|
  {
    run[i].req.CreateAdmin? && Reply(env, Before(env, s, run, i), run[i].req, run[i].now) == Created(u)
  }

  lemma {:induction false} AdminsStep(env: Env, s: Sys, a: Timed, u: int)
    requires Sound(s) && u in Admins(Next(env, s, a.req, a.now).db) && u !in Admins(s.db)
    ensures a.req.CreateAdmin? && Reply(env, s, a.req, a.now) == Created(u)
  {
    match a.req
    case Login(email, password) => LoginMeans(env, s, email, password, a.now);
    case Register(email, password, tos, hash) => RegisterMeans(env, s, email, password, tos, hash, a.now);
    case CreateKey(authz, name, random) => CreateKeyMeans(env, s, authz, name, random, a.now);
    case RevokeKey(authz, id) => RevokeKeyMeans(env, s, authz, id, a.now);
    case AdminDeleteUser(authz, id) => AdminDeleteUserMeans(env, s, authz, id, a.now);
    case AdminRevokeKey(authz, id) => AdminRevokeKeyMeans(env, s, authz, id, a.now);
    case CreateAdmin(_, _) =>
  }

  /** Nobody becomes an administrator but by being created as one. */
  lemma {:induction false} AdminsAppointed(env: Env, s: Sys, run: seq<Timed>, u: int) returns (i: nat)
    requires Sound(s) && u in Admins(After(env, s, run).db) && u !in Admins(s.db)
    ensures i < |run| && AppointedAt(env, s, run, i, u)
  {
    var n := |run| - 1;
    AfterLast(env, s, run);
    SoundBefore(env, s, run, n);
    if u !in Admins(Before(env, s, run, n).db) {
      i := n;
      AdminsStep(env, Before(env, s, run, n), run[n], u);
    } else {
      i := AdminsAppointed(env, s, run[..n], u);
      BeforeInPrefix(env, s, run, n, i);
    }
  }

  /** The request revokes k for its owner or for an administrator, or deletes its owner. */
  ghost predicate WithdrawnBy(s: Sys, a: Timed, k: int) {
    && k in s.db.keys
    && (|| (a.req.RevokeKey? && Atoi(a.req.id) == Some(k)
            && ResolveSession(s, a.req.authorization, a.now) == Some(s.db.keys[k].userID))
        || (a.req.AdminRevokeKey? && Atoi(a.req.id) == Some(k) && AdminRefusal(s, a.req.authorization, a.now) == None)
        || DeletedBy(s, a, s.db.keys[k].userID))
  }

  ghost predicate WithdrawnAt(env: Env, s: Sys, run: seq<Timed>, i: nat, k: int)
    requires i < |run|
  {
    WithdrawnBy(Before(env, s, run, i), run[i], k)
  }

  lemma {:induction false} KeyStep(env: Env, s: Sys, a: Timed, k: int)
    requires Sound(s) && Live(s.db, k) && !Live(Next(env, s, a.req, a.now).db, k)
    ensures WithdrawnBy(s, a, k)
  {
    match a.req
    case Login(email, password) => LoginMeans(env, s, email, password, a.now);
    case Register(email, password, tos, hash) => RegisterMeans(env, s, email, password, tos, hash, a.now);
    case CreateKey(authz, name, random) => CreateKeyMeans(env, s, authz, name, random, a.now);
    case RevokeKey(authz, id) => RevokeKeyMeans(env, s, authz, id, a.now);
    case AdminDeleteUser(authz, id) => AdminDeleteUserMeans(env, s, authz, id, a.now);
    case AdminRevokeKey(authz, id) => AdminRevokeKeyMeans(env, s, authz, id, a.now);
    case CreateAdmin(_, _) =>
  }

  /** No key stops working but by the request of its owner or of an administrator. */
  lemma {:induction false} WithdrawalsAuthorised(env: Env, s: Sys, run: seq<Timed>, k: int) returns (i: nat)
    requires Sound(s) && Live(s.db, k) && !Live(After(env, s, run).db, k)
    ensures i < |run| && WithdrawnAt(env, s, run, i, k)
  {
    var n := |run| - 1;
    AfterLast(env, s, run);
    SoundBefore(env, s, run, n);
    if Live(Before(env, s, run, n).db, k) {
      i := n;
      KeyStep(env, Before(env, s, run, n), run[n], k);
    } else {
      i := WithdrawalsAuthorised(env, s, run[..n], k);
      BeforeInPrefix(env, s, run, n, i);
    }
  }

  /** The i-th request mints k for the user it is signed in as. */
  ghost predicate MintedAt(env: Env, s: Sys, run: seq<Timed>, i: nat, k: int, row: APIKey)
    requires i < |run|
  {
    MintedBy(env, Before(env, s, run, i), run[i], k, row)
  }

  ghost predicate MintedBy(env: Env, s: Sys, a: Timed, k: int, row: APIKey) {
    && a.req.CreateKey? && ResolveSession(s, a.req.authorization, a.now) == Some(row.userID)
    && Reply(env, s, a.req, a.now) == KeyMinted(k, "pk_" + EncodeHex(a.req.random))
    && row.keyHash == env.hashKey("pk_" + EncodeHex(a.req.random))
  }

  lemma {:induction false} MintStep(env: Env, s: Sys, a: Timed, k: int)
    requires Sound(s) && k in Next(env, s, a.req, a.now).db.keys
    ensures var row := Next(env, s, a.req, a.now).db.keys[k];
      (k in s.db.keys && KeyAges(s.db.keys[k], row)) || MintedBy(env, s, a, k, row)
  {
    match a.req
    case Login(email, password) => LoginMeans(env, s, email, password, a.now);
    case Register(email, password, tos, hash) => RegisterMeans(env, s, email, password, tos, hash, a.now);
    case CreateKey(authz, name, random) => CreateKeyMeans(env, s, authz, name, random, a.now);
    case RevokeKey(authz, id) => RevokeKeyMeans(env, s, authz, id, a.now);
    case AdminDeleteUser(authz, id) => AdminDeleteUserMeans(env, s, authz, id, a.now);
    case AdminRevokeKey(authz, id) => AdminRevokeKeyMeans(env, s, authz, id, a.now);
    case CreateAdmin(_, _) =>
  }

  ghost predicate KeyOrigin(env: Env, s: Sys, run: seq<Timed>, k: int, row: APIKey) {
    exists i | 0 <= i < |run| :: MintedAt(env, s, run, i, k, row)
  }

  /** Every key was there at the start or was minted by a request of its owner. */
  lemma {:induction false} KeysMinted(env: Env, s: Sys, run: seq<Timed>, k: int)
    requires Sound(s) && k in After(env, s, run).db.keys
    ensures var row := After(env, s, run).db.keys[k];
      (k in s.db.keys && KeyAges(s.db.keys[k], row)) || KeyOrigin(env, s, run, k, row)
  {
    if run != [] {
      var n := |run| - 1;
      var before, row := Before(env, s, run, n), After(env, s, run).db.keys[k];
      AfterLast(env, s, run);
      SoundBefore(env, s, run, n);
      MintStep(env, before, run[n], k);
      if k in before.db.keys && KeyAges(before.db.keys[k], row) {
        KeysMinted(env, s, run[..n], k);
        if KeyOrigin(env, s, run[..n], k, before.db.keys[k]) {
          var i :| 0 <= i < n && MintedAt(env, s, run[..n], i, k, before.db.keys[k]);
          BeforeInPrefix(env, s, run, n, i);
          assert MintedAt(env, s, run, i, k, row);
        }
      } else {
        assert MintedAt(env, s, run, n, k, row);
      }
    }
  }
}
