/**
  Accounts, sessions and API keys: how a request is authenticated, what each request does to the
  tables, and what holds over every run of requests.  Password hashing, key hashing and token
  signing are functions about which nothing is known; a token verifies if it was issued and has
  not expired.  Every request is one atomic step.
*/
module Accounts {
  import opened Wrappers
  import opened Text
  import opened Codecs
  import opened Transforms
  import opened Store

  datatype Claims = Claims(subject: string, role: string, email: string, issuedAt: int, expiresAt: int)

  /** What is not modelled: signing, hashing, password checks, the e-mail pattern; and the session life. */
  datatype Env = Env(
    sign: Claims -> string,
    hashKey: string -> string,
    checkPassword: (string, string) -> bool,
    emailOk: string -> bool,
    ttl: int)

  /** The tables, and the claims of every token ever signed. */
  datatype Sys = Sys(db: Db, issued: map<string, Claims>)

  const KEY_PREFIX := "pk_"
  const HOUR := 3600

  // ---- Tokens and keys ----

  /** The life of a session; without a positive one it is an hour. */
  function Ttl(env: Env): (t: int)
    ensures t > 0 && (t == env.ttl || (env.ttl <= 0 && t == 3600))
  {
    if env.ttl <= 0 then HOUR else env.ttl
  }

  function ClaimsOf(env: Env, id: int, u: User, now: int): Claims {
    Claims(Itoa(id), u.role, u.email, now, now + Ttl(env))
  }

  function IssueJWT(env: Env, s: Sys, id: int, u: User, now: int): (Sys, string) {
    var claims := ClaimsOf(env, id, u, now);
    (s.(issued := s.issued[env.sign(claims) := claims]), env.sign(claims))
  }

  function VerifyJWT(s: Sys, token: string, now: int): Option<Claims> {
    if token in s.issued && now < s.issued[token].expiresAt then Some(s.issued[token]) else None
  }

  /** The 24 random bytes of a new key. */
  type KeyBytes = b: seq<byte> | |b| == 24 witness seq(24, _ => 0)

  function NewKey(random: KeyBytes): (plaintext: string)
    ensures |plaintext| == 51
  {
    KEY_PREFIX + EncodeHex(random)
  }

  ghost function ResolveKey(env: Env, db: Db, plaintext: string): Option<int> {
    if HasPrefix(plaintext, KEY_PREFIX) then KeyByHash(db, env.hashKey(plaintext)) else None
  }

  // ---- Authentication ----

  datatype Headers = Headers(apiKey: string, authorization: string)

  /** The credential of an Authorization header of the Bearer kind. */
  function Bearer(authorization: string): Option<string> {
    var authz := TrimSpace(authorization);
    if HasPrefix(authz, BEARER) then Some(TrimSpace(TrimPrefix(authz, BEARER))) else None
  }

  function KeyPrincipal(k: int): string { "key:" + Itoa(k) }

  function UserPrincipal(u: int): string { "user:" + Itoa(u) }

  /** The user that a session token stands for, if it verifies and the user still exists. */
  function SessionUser(s: Sys, token: string, now: int): (r: Option<int>)
    ensures r.Some? ==> r.value in s.db.users
  {
    match VerifyJWT(s, token, now)
    case None => None
    case Some(claims) =>
      match Atoi(claims.subject)
      case Some(id) => if id in s.db.users then Some(id) else None
      case None => None
  }

  function ResolveSession(s: Sys, authorization: string, now: int): (r: Option<int>)
    ensures r.Some? ==> r.value in s.db.users
  {
    match Bearer(authorization) case None => None case Some(token) => SessionUser(s, token, now)
  }

  ghost function PrincipalOfBearer(env: Env, s: Sys, cred: string, now: int): Option<string> {
    if HasPrefix(cred, KEY_PREFIX) then
      match ResolveKey(env, s.db, cred) case Some(k) => Some(KeyPrincipal(k)) case None => None
    else
      match SessionUser(s, cred, now)
      case Some(_) => Some("user:" + s.issued[cred].subject)
      case None => None
  }

  /** A bad X-API-Key does not end the search: the Authorization header is tried next. */
  ghost function AuthenticateAPI(env: Env, s: Sys, h: Headers, now: int): Option<string> {
    var k := TrimSpace(h.apiKey);
    var byKey := if k == "" then None else ResolveKey(env, s.db, k);
    if byKey.Some? then Some(KeyPrincipal(byKey.value))
    else match Bearer(h.authorization)
      case None => None
      case Some(cred) => PrincipalOfBearer(env, s, cred, now)
  }

  // ---- Requests ----

  datatype Reply =
    | Session(token: string)
    | KeyMinted(id: int, plaintext: string)
    | Deleted(id: int)
    | Revoked(id: int)
    | Created(id: int)
    | Refused(status: int, code: string)

  /**
    Requests that can change the state.  E-mail addresses are already lower-cased and trimmed; the
    password hash is absent if hashing failed; ids are the text of the path parameter.
  */
  datatype Request =
    | Register(email: string, password: string, acceptTOS: bool, hash: Option<string>)
    | Login(email: string, password: string)
    | CreateKey(authorization: string, name: string, random: KeyBytes)
    | RevokeKey(authorization: string, id: string)
    | AdminDeleteUser(authorization: string, id: string)
    | AdminRevokeKey(authorization: string, id: string)
    | CreateAdmin(email: string, adminHash: string)

  const UNAUTHORIZED := Refused(401, "unauthorized")
  const FORBIDDEN := Refused(403, "forbidden")
  const INVALID_INPUT := Refused(400, "invalid_input")
  const CANNOT_DELETE_SELF := Refused(400, "cannot_delete_self")
  const NOT_FOUND := Refused(404, "not_found")
  const EMAIL_TAKEN := Refused(409, "email_taken")
  const TOS_REQUIRED := Refused(400, "tos_required")
  const INVALID_CREDENTIALS := Refused(401, "invalid_credentials")
  const INTERNAL_ERROR := Refused(500, "internal_error")

  /** The signed-in user, or the reply that ends the request. */
  function RequireUser(s: Sys, authorization: string, now: int): (r: Result<int, Reply>)
    ensures r.Ok? ==> r.value in s.db.users
  {
    match ResolveSession(s, authorization, now) case Some(u) => Ok(u) case None => Err(UNAUTHORIZED)
  }

  /** The role is the one in the table now, not the one in the token. */
  function RequireAdmin(s: Sys, authorization: string, now: int): (r: Result<int, Reply>)
    ensures forall u :: r == Ok(u) <==> ResolveSession(s, authorization, now) == Some(u) && u in Admins(s.db)
    ensures r == Err(FORBIDDEN) <==> exists u :: ResolveSession(s, authorization, now) == Some(u) && u !in Admins(s.db)
  {
    match RequireUser(s, authorization, now)
    case Err(e) => Err(e)
    case Ok(u) => if s.db.users[u].role == ADMIN then Ok(u) else Err(FORBIDDEN)
  }

  const CLIENT := "client"

  function KeyName(name: string): string {
    var n := if TrimSpace(name) == "" then "default" else TrimSpace(name);
    if |n| > 60 then n[..60] else n
  }

  function OnRegister(env: Env, s: Sys, email: string, password: string, acceptTOS: bool, hash: Option<string>,
                      now: int)
    : (Sys, Reply)
  {
    if !env.emailOk(email) || |password| < 8 then (s, INVALID_INPUT)
    else if !acceptTOS then (s, TOS_REQUIRED)
    else if EmailTaken(s.db, email) then (s, EMAIL_TAKEN)
    else if hash.None? then (s, INTERNAL_ERROR)
    else
      var u := User(email, hash.value, CLIENT, true);
      match InsertUser(s.db, u)
      case (db, Ok(id)) => var (after, token) := IssueJWT(env, Sys(db, s.issued), id, u, now); (after, Session(token))
      case (db, Err(_)) => (Sys(db, s.issued), INTERNAL_ERROR)
  }

  ghost function OnLogin(env: Env, s: Sys, email: string, password: string, now: int): (Sys, Reply) {
    match UserByEmail(s.db, email)
    case None => (s, INVALID_CREDENTIALS)
    case Some(u) =>
      if !env.checkPassword(s.db.users[u].passwordHash, password) then (s, INVALID_CREDENTIALS)
      else var (after, token) := IssueJWT(env, s, u, s.db.users[u], now); (after, Session(token))
  }

  function OnCreateKey(env: Env, s: Sys, user: int, name: string, random: KeyBytes): (Sys, Reply) {
    var plaintext := NewKey(random);
    match InsertKey(s.db, APIKey(user, KeyName(name), plaintext[..9], env.hashKey(plaintext), false))
    case (db, Ok(id)) => (Sys(db, s.issued), KeyMinted(id, plaintext))
    case (db, Err(_)) => (Sys(db, s.issued), INTERNAL_ERROR)
  }

  function OnRevoke(s: Sys, id: string, owner: Option<int>): (Sys, Reply) {
    match Atoi(id)
    case None => (s, INVALID_INPUT)
    case Some(k) =>
      match MarkRevoked(s.db, k, owner)
      case (db, Ok(_)) => (Sys(db, s.issued), Revoked(k))
      case (db, Err(_)) => (Sys(db, s.issued), NOT_FOUND)
  }

  function OnDeleteUser(s: Sys, id: string, self: int): (Sys, Reply) {
    match Atoi(id)
    case None => (s, INVALID_INPUT)
    case Some(u) =>
      if u == self then (s, CANNOT_DELETE_SELF)
      else match RemoveUser(s.db, u)
        case (db, Ok(_)) => (Sys(db, s.issued), Deleted(u))
        case (db, Err(_)) => (Sys(db, s.issued), NOT_FOUND)
  }

  function OnCreateAdmin(s: Sys, email: string, hash: string): (Sys, Reply) {
    match InsertUser(s.db, User(email, hash, ADMIN, true))
    case (db, Ok(id)) => (Sys(db, s.issued), Created(id))
    case (db, Err(_)) => (Sys(db, s.issued), INTERNAL_ERROR)
  }

  /** The state after a request, and its reply. */
  ghost function Handle(env: Env, s: Sys, req: Request, now: int): (Sys, Reply) {
    match req
    case Register(email, password, tos, hash) => OnRegister(env, s, email, password, tos, hash, now)
    case Login(email, password) => OnLogin(env, s, email, password, now)
    case CreateKey(authz, name, random) =>
      (match RequireUser(s, authz, now) case Err(e) => (s, e) case Ok(u) => OnCreateKey(env, s, u, name, random))
    case RevokeKey(authz, id) =>
      (match RequireUser(s, authz, now) case Err(e) => (s, e) case Ok(u) => OnRevoke(s, id, Some(u)))
    case AdminDeleteUser(authz, id) =>
      (match RequireAdmin(s, authz, now) case Err(e) => (s, e) case Ok(u) => OnDeleteUser(s, id, u))
    case AdminRevokeKey(authz, id) =>
      (match RequireAdmin(s, authz, now) case Err(e) => (s, e) case Ok(_) => OnRevoke(s, id, None))
    case CreateAdmin(email, hash) => OnCreateAdmin(s, email, hash)
  }

  datatype Timed = Timed(req: Request, now: int)

  /** The state after a run of requests, at any times. */
  ghost function After(env: Env, s: Sys, run: seq<Timed>): Sys
    decreases |run|
  {
    if run == [] then s else After(env, Handle(env, s, run[0].req, run[0].now).0, run[1..])
  }

  // ---- What every request keeps ----

  /** The subject of every token is the decimal form of an id that was given out. */
  ghost predicate SubjectsGivenOut(s: Sys) {
    forall t | t in s.issued :: GivenOut(s.db, s.issued[t].subject)
  }

  predicate GivenOut(db: Db, subject: string) {
    match Atoi(subject) case None => false case Some(n) => 1 <= n <= db.userSeq && Itoa(n) == subject
  }

  ghost predicate Sound(s: Sys) { Wf(s.db) && SubjectsGivenOut(s) }

  /** A sound state whose tables are later ones. */
  ghost predicate Follows(s: Sys, t: Sys) { Sound(t) && Later(s.db, t.db) }

  lemma {:induction false} IssueKeeps(env: Env, s: Sys, id: int, u: User, now: int)
    requires Sound(s) && id in s.db.users
    ensures Follows(s, IssueJWT(env, s, id, u, now).0)
  {
    AtoiItoa(id);
  }

  lemma {:induction false} TablesKeep(s: Sys, db: Db)
    requires Sound(s) && Wf(db) && Later(s.db, db)
    ensures Follows(s, Sys(db, s.issued))
  {
  }

  lemma {:induction false} RegisterKeeps(
    env: Env, s: Sys, email: string, password: string, acceptTOS: bool, hash: Option<string>, now: int)
    requires Sound(s)
    ensures Follows(s, OnRegister(env, s, email, password, acceptTOS, hash, now).0)
  {
    if hash.Some? {
      var u := User(email, hash.value, CLIENT, true);
      var (db, r) := InsertUser(s.db, u);
      InsertUserKeeps(s.db, u);
      TablesKeep(s, db);
      if r.Ok? {
        IssueKeeps(env, Sys(db, s.issued), r.value, u, now);
      }
    }
  }

  lemma {:induction false} LoginKeeps(env: Env, s: Sys, email: string, password: string, now: int)
    requires Sound(s)
    ensures Follows(s, OnLogin(env, s, email, password, now).0)
  {
    var u := UserByEmail(s.db, email);
    if u.Some? {
      IssueKeeps(env, s, u.value, s.db.users[u.value], now);
    }
  }

  lemma {:induction false} CreateKeyKeeps(env: Env, s: Sys, user: int, name: string, random: KeyBytes)
    requires Sound(s)
    ensures Follows(s, OnCreateKey(env, s, user, name, random).0)
  {
    var plaintext := NewKey(random);
    var k := APIKey(user, KeyName(name), plaintext[..9], env.hashKey(plaintext), false);
    InsertKeyKeeps(s.db, k);
    TablesKeep(s, InsertKey(s.db, k).0);
  }

  lemma {:induction false} RevokeKeeps(s: Sys, id: string, owner: Option<int>)
    requires Sound(s)
    ensures Follows(s, OnRevoke(s, id, owner).0)
  {
    if Atoi(id).Some? {
      MarkRevokedKeeps(s.db, Atoi(id).value, owner);
      TablesKeep(s, MarkRevoked(s.db, Atoi(id).value, owner).0);
    }
  }

  lemma {:induction false} DeleteUserKeeps(s: Sys, id: string, self: int)
    requires Sound(s)
    ensures Follows(s, OnDeleteUser(s, id, self).0)
  {
    if Atoi(id).Some? {
      RemoveUserKeeps(s.db, Atoi(id).value);
      TablesKeep(s, RemoveUser(s.db, Atoi(id).value).0);
    }
  }

  lemma {:induction false} CreateAdminKeeps(s: Sys, email: string, hash: string)
    requires Sound(s)
    ensures Follows(s, OnCreateAdmin(s, email, hash).0)
  {
    var u := User(email, hash, ADMIN, true);
    InsertUserKeeps(s.db, u);
    TablesKeep(s, InsertUser(s.db, u).0);
  }

  lemma {:induction false} UserRequestKeeps(env: Env, s: Sys, req: Request, now: int)
    requires Sound(s) && (req.CreateKey? || req.RevokeKey?) && RequireUser(s, req.authorization, now).Ok?
    ensures Follows(s, Handle(env, s, req, now).0)
  {
    var u := RequireUser(s, req.authorization, now).value;
    match req
    case CreateKey(_, name, random) => CreateKeyKeeps(env, s, u, name, random);
    case RevokeKey(_, id) => RevokeKeeps(s, id, Some(u));
  }

  lemma {:induction false} AdminRequestKeeps(env: Env, s: Sys, req: Request, now: int)
    requires Sound(s) && (req.AdminDeleteUser? || req.AdminRevokeKey?) && RequireAdmin(s, req.authorization, now).Ok?
    ensures Follows(s, Handle(env, s, req, now).0)
  {
    var u := RequireAdmin(s, req.authorization, now).value;
    match req
    case AdminDeleteUser(_, id) => DeleteUserKeeps(s, id, u);
    case AdminRevokeKey(_, id) => RevokeKeeps(s, id, None);
  }

  lemma {:induction false} LaterReflexive(s: Sys)
    requires Sound(s)
    ensures Follows(s, s)
  {
  }

  lemma {:induction false} HandleKeeps(env: Env, s: Sys, req: Request, now: int)
    requires Sound(s)
    ensures Follows(s, Handle(env, s, req, now).0)
  {
    LaterReflexive(s);
    match req
    case Register(email, password, tos, hash) => RegisterKeeps(env, s, email, password, tos, hash, now);
    case Login(email, password) => LoginKeeps(env, s, email, password, now);
    case CreateAdmin(email, hash) => CreateAdminKeeps(s, email, hash);
    case AdminDeleteUser(authz, _) => if RequireAdmin(s, authz, now).Ok? { AdminRequestKeeps(env, s, req, now); }
    case AdminRevokeKey(authz, _) => if RequireAdmin(s, authz, now).Ok? { AdminRequestKeeps(env, s, req, now); }
    case CreateKey(authz, _, _) => if RequireUser(s, authz, now).Ok? { UserRequestKeeps(env, s, req, now); }
    case RevokeKey(authz, _) => if RequireUser(s, authz, now).Ok? { UserRequestKeeps(env, s, req, now); }
  }

  /** Every run keeps the tables sound, gives out no id twice and undoes no revocation. */
  lemma {:induction false} RunKeeps(env: Env, s: Sys, run: seq<Timed>)
    requires Sound(s)
    ensures Follows(s, After(env, s, run))
    decreases |run|
  {
    if run != [] {
      var next := Handle(env, s, run[0].req, run[0].now).0;
      HandleKeeps(env, s, run[0].req, run[0].now);
      RunKeeps(env, next, run[1..]);
      LaterTransitive(s.db, next.db, After(env, s, run).db);
    }
  }

  // ---- Who a principal is ----

  lemma {:induction false} PrincipalsDiffer(k: int, l: int, subject: string)
    ensures KeyPrincipal(k) == KeyPrincipal(l) ==> k == l
    ensures KeyPrincipal(k) != "user:" + subject
    ensures "user:" + subject == UserPrincipal(k) <==> subject == Itoa(k)
  {
    assert KeyPrincipal(k)[4..] == Itoa(k) && KeyPrincipal(l)[4..] == Itoa(l);
    if Itoa(k) == Itoa(l) {
      ItoaInjective(k, l);
    }
    assert KeyPrincipal(k)[0] == 'k' && ("user:" + subject)[0] == 'u';
    assert ("user:" + subject)[5..] == subject && UserPrincipal(k)[5..] == Itoa(k);
  }

  /** The user of a session is named by the subject of the token. */
  lemma {:induction false} SubjectNames(s: Sys, token: string, now: int)
    requires Sound(s)
    ensures SessionUser(s, token, now).Some? ==> s.issued[token].subject == Itoa(SessionUser(s, token, now).value)
  {
  }

  /** A text is the plaintext of a live key. */
  ghost predicate NamesKey(env: Env, db: Db, text: string, k: int) {
    HasPrefix(text, KEY_PREFIX) && Live(db, k) && db.keys[k].keyHash == env.hashKey(text)
  }

  ghost predicate NamesSome(env: Env, db: Db, text: string) { exists k :: NamesKey(env, db, text, k) }

  lemma {:induction false} ResolveIff(env: Env, db: Db, text: string, k: int)
    requires Wf(db)
    ensures ResolveKey(env, db, text) == Some(k) <==> NamesKey(env, db, text, k)
    ensures ResolveKey(env, db, text).Some? <==> NamesSome(env, db, text)
  {
    var r := ResolveKey(env, db, text);
    if r.Some? {
      assert NamesKey(env, db, text, r.value);
    }
  }

  /** An issued and unexpired token of u. */
  predicate ValidToken(s: Sys, token: string, now: int, u: int) {
    token in s.issued && s.issued[token].subject == Itoa(u) && now < s.issued[token].expiresAt
  }

  /** A bearer credential that is a valid token of u. */
  ghost predicate HoldsToken(s: Sys, h: Headers, now: int, u: int) {
    && Bearer(h.authorization).Some?
    && var token := Bearer(h.authorization).value;
       !HasPrefix(token, KEY_PREFIX) && ValidToken(s, token, now, u)
  }

  lemma {:induction false} SessionIff(s: Sys, token: string, now: int, u: int)
    requires Sound(s)
    ensures SessionUser(s, token, now) == Some(u) <==>
            ValidToken(s, token, now, u) && u in s.db.users
  {
    if token in s.issued && s.issued[token].subject == Itoa(u) && u in s.db.users {
      AtoiItoa(u);
    }
  }

  lemma {:induction false} BearerIff(env: Env, s: Sys, h: Headers, now: int, cred: string, u: int, k: int)
    requires Sound(s) && Bearer(h.authorization) == Some(cred)
    ensures PrincipalOfBearer(env, s, cred, now) == Some(UserPrincipal(u))
            <==> HoldsToken(s, h, now, u) && u in s.db.users
    ensures PrincipalOfBearer(env, s, cred, now) == Some(KeyPrincipal(k)) <==> NamesKey(env, s.db, cred, k)
  {
    if HasPrefix(cred, KEY_PREFIX) {
      ResolveIff(env, s.db, cred, k);
      var r := ResolveKey(env, s.db, cred);
      if r.Some? {
        PrincipalsDiffer(r.value, k, Itoa(u));
      }
    } else {
      TokenIff(s, cred, now, u);
      if SessionUser(s, cred, now).Some? {
        PrincipalsDiffer(k, 0, s.issued[cred].subject);
        PrincipalsDiffer(u, 0, s.issued[cred].subject);
      }
    }
  }

  lemma {:induction false} TokenIff(s: Sys, token: string, now: int, u: int)
    requires Sound(s)
    ensures SessionUser(s, token, now).Some? && s.issued[token].subject == Itoa(u) <==>
            ValidToken(s, token, now, u) && u in s.db.users
  {
    SessionIff(s, token, now, u);
    var r := SessionUser(s, token, now);
    if r.Some? && s.issued[token].subject == Itoa(u) {
      SessionIff(s, token, now, r.value);
      SubjectNames(s, token, now);
      ItoaInjective(r.value, u);
    }
  }

  /**
    A request authenticates as user u exactly if its X-API-Key is no live key, its bearer credential
    is an issued and unexpired token of u, and u exists now.
  */
  lemma {:induction false} UserPrincipalIff(env: Env, s: Sys, h: Headers, now: int, u: int)
    requires Sound(s)
    ensures AuthenticateAPI(env, s, h, now) == Some("user:" + Itoa(u)) <==>
            !NamesSome(env, s.db, TrimSpace(h.apiKey)) && HoldsToken(s, h, now, u) && u in s.db.users
  {
    var text := TrimSpace(h.apiKey);
    ResolveIff(env, s.db, text, 0);
    var r := ResolveKey(env, s.db, text);
    if r.Some? {
      PrincipalsDiffer(r.value, 0, Itoa(u));
    } else if Bearer(h.authorization).Some? {
      BearerIff(env, s, h, now, Bearer(h.authorization).value, u, 0);
    }
  }

  /**
    A request authenticates as key k exactly if its X-API-Key is the plaintext of k, or is no live
    key and its bearer credential is; k being unrevoked and its owner existing now.
  */
  lemma {:induction false} KeyPrincipalIff(env: Env, s: Sys, h: Headers, now: int, k: int)
    requires Sound(s)
    ensures AuthenticateAPI(env, s, h, now) == Some("key:" + Itoa(k)) <==>
            || NamesKey(env, s.db, TrimSpace(h.apiKey), k)
            || (!NamesSome(env, s.db, TrimSpace(h.apiKey)) && Bearer(h.authorization).Some?
                && NamesKey(env, s.db, Bearer(h.authorization).value, k))
  {
    var text := TrimSpace(h.apiKey);
    ResolveIff(env, s.db, text, k);
    var r := ResolveKey(env, s.db, text);
    if r.Some? {
      PrincipalsDiffer(r.value, k, "");
    } else if Bearer(h.authorization).Some? {
      BearerIff(env, s, h, now, Bearer(h.authorization).value, 0, k);
    }
  }

  /** A bearer credential is what follows "Bearer ", without white space around it. */
  lemma {:induction false} BearerReads(token: string)
    requires token != "" && Graphic(token[0]) && Graphic(token[|token| - 1])
    ensures Bearer("Bearer " + token) == Some(token)
  {
    var s := "Bearer " + token;
    assert s[..7] == "Bearer " && s[7..] == token;
    TrimGraphic(s);
    TrimGraphic(token);
  }

  // ---- Lockout ----

  /** Once a user is gone, no state of any later run takes any request for that user, nor for a key of that user. */
  lemma {:induction false} DeletedUserLockedOut(env: Env, s: Sys, u: int, run: seq<Timed>, h: Headers, now: int, k: int)
    requires Sound(s) && u in s.db.users
    ensures var t := After(env, Sys(RemoveUser(s.db, u).0, s.issued), run);
      && AuthenticateAPI(env, t, h, now) != Some(UserPrincipal(u))
      && ResolveSession(t, h.authorization, now) != Some(u)
      && (k in s.db.keys && s.db.keys[k].userID == u ==> AuthenticateAPI(env, t, h, now) != Some(KeyPrincipal(k)))
  {
    var gone := Sys(RemoveUser(s.db, u).0, s.issued);
    RemoveUserKeeps(s.db, u);
    TablesKeep(s, gone.db);
    RunKeeps(env, gone, run);
    var t := After(env, gone, run);
    assert u !in t.db.users;
    UserPrincipalIff(env, t, h, now, u);
    KeyPrincipalIff(env, t, h, now, k);
  }

  /** Once a key is revoked, no state of any later run accepts it. */
  lemma {:induction false} RevokedKeyLockedOut(env: Env, s: Sys, k: int, owner: Option<int>, run: seq<Timed>,
                                               h: Headers, now: int)
    requires Sound(s) && MarkRevoked(s.db, k, owner).1.Ok?
    ensures var t := After(env, Sys(MarkRevoked(s.db, k, owner).0, s.issued), run);
      AuthenticateAPI(env, t, h, now) != Some(KeyPrincipal(k))
  {
    var revoked := Sys(MarkRevoked(s.db, k, owner).0, s.issued);
    MarkRevokedKeeps(s.db, k, owner);
    TablesKeep(s, revoked.db);
    RunKeeps(env, revoked, run);
    var t := After(env, revoked, run);
    KeyPrincipalIff(env, t, h, now, k);
  }

  // ---- How long a credential works ----

  lemma {:induction false} NewKeyPlain(random: KeyBytes)
    ensures HasPrefix(NewKey(random), KEY_PREFIX) && TrimSpace(NewKey(random)) == NewKey(random)
  {
    HexGraphic(random);
    var plaintext := NewKey(random);
    assert plaintext[|plaintext| - 1] == EncodeHex(random)[47];
    TrimGraphic(plaintext);
  }

  lemma {:induction false} HexGraphic(b: seq<byte>)
    ensures forall i | 0 <= i < |EncodeHex(b)| :: Graphic(EncodeHex(b)[i])
  {
    if b != [] {
      HexGraphic(b[1..]);
      assert Graphic(HexPair(b[0], false)[0]) && Graphic(HexPair(b[0], false)[1]);
    }
  }

  /**
    A key that was minted is accepted as itself, in X-API-Key, in exactly those later states in
    which it is neither revoked nor gone with its owner.
  */
  lemma {:induction false} KeyWorksUntilRevoked(
    env: Env, s: Sys, user: int, name: string, random: KeyBytes, run: seq<Timed>, authorization: string, now: int)
    requires Sound(s) && OnCreateKey(env, s, user, name, random).1.KeyMinted?
    ensures var (minted, reply) := OnCreateKey(env, s, user, name, random);
      var t := After(env, minted, run);
      AuthenticateAPI(env, t, Headers(reply.plaintext, authorization), now) == Some(KeyPrincipal(reply.id)) <==>
      Live(t.db, reply.id)
  {
    var (minted, reply) := OnCreateKey(env, s, user, name, random);
    var plaintext := NewKey(random);
    NewKeyPlain(random);
    var row := APIKey(user, KeyName(name), plaintext[..9], env.hashKey(plaintext), false);
    InsertKeyKeeps(s.db, row);
    TablesKeep(s, minted.db);
    RunKeeps(env, minted, run);
    var t := After(env, minted, run);
    var h := Headers(plaintext, authorization);
    if Live(t.db, reply.id) {
      assert KeyAges(row, t.db.keys[reply.id]);
    }
    KeyPrincipalIff(env, t, h, now, reply.id);
  }

  ghost predicate Injective(sign: Claims -> string) {
    forall a, b :: sign(a) == sign(b) ==> a == b
  }

  ghost predicate SignedByKey(env: Env, s: Sys) {
    forall t | t in s.issued :: env.sign(s.issued[t]) == t
  }

  /** At most one token is signed by a request. */
  ghost predicate SignsOne(env: Env, s: Sys, t: Sys) {
    t.issued == s.issued || exists c :: Signed(env, s, t, c)
  }

  ghost predicate Signed(env: Env, s: Sys, t: Sys, c: Claims) { t.issued == s.issued[env.sign(c) := c] }

  lemma {:induction false} HandleSigns(env: Env, s: Sys, req: Request, now: int)
    ensures SignsOne(env, s, Handle(env, s, req, now).0)
  {
    var t := Handle(env, s, req, now).0;
    match req
    case Register(email, password, tos, hash) =>
      if t.issued != s.issued {
        var u := User(email, hash.value, CLIENT, true);
        assert Signed(env, s, t, ClaimsOf(env, InsertUser(s.db, u).1.value, u, now));
      }
    case Login(email, password) =>
      if t.issued != s.issued {
        var u := UserByEmail(s.db, email).value;
        assert Signed(env, s, t, ClaimsOf(env, u, s.db.users[u], now));
      }
    case _ =>
  }

  ghost predicate Extends(s: Sys, t: Sys) {
    forall token | token in s.issued :: token in t.issued && t.issued[token] == s.issued[token]
  }

  lemma {:induction false} IssuedStep(env: Env, s: Sys, req: Request, now: int)
    requires Injective(env.sign) && SignedByKey(env, s)
    ensures var t := Handle(env, s, req, now).0; SignedByKey(env, t) && Extends(s, t)
  {
    HandleSigns(env, s, req, now);
    var t := Handle(env, s, req, now).0;
    if t.issued != s.issued {
      var c :| Signed(env, s, t, c);
      assert env.sign(c) in s.issued ==> env.sign(s.issued[env.sign(c)]) == env.sign(c);
    }
  }

  /** With signing injective, the claims of an issued token never change. */
  lemma {:induction false} IssuedStays(env: Env, s: Sys, run: seq<Timed>)
    requires Injective(env.sign) && SignedByKey(env, s)
    ensures SignedByKey(env, After(env, s, run)) && Extends(s, After(env, s, run))
    decreases |run|
  {
    if run != [] {
      IssuedStep(env, s, run[0].req, run[0].now);
      IssuedStays(env, Handle(env, s, run[0].req, run[0].now).0, run[1..]);
    }
  }

  /**
    A session lasts until it expires or its user is deleted, and no longer: its token stands for
    the user it was issued to in exactly those later states in which neither has happened.
  */
  lemma {:induction false} SessionLasts(env: Env, s: Sys, u: int, issuedAt: int, run: seq<Timed>,
                                        authorization: string, now: int)
    requires Sound(s) && Injective(env.sign) && SignedByKey(env, s) && u in s.db.users
    requires Bearer(authorization) == Some(IssueJWT(env, s, u, s.db.users[u], issuedAt).1)
    ensures var t := After(env, IssueJWT(env, s, u, s.db.users[u], issuedAt).0, run);
      ResolveSession(t, authorization, now) ==
      if now < issuedAt + Ttl(env) && u in t.db.users then Some(u) else None
  {
    var (signed, token) := IssueJWT(env, s, u, s.db.users[u], issuedAt);
    AtoiItoa(u);
    IssuedStays(env, signed, run);
  }

  // ---- Some admin survives ----

  ghost predicate SomeAdmin(db: Db) { exists u :: u in Admins(db) }

  lemma {:induction false} AdminStep(env: Env, s: Sys, req: Request, now: int)
    requires Sound(s) && SomeAdmin(s.db)
    ensures SomeAdmin(Handle(env, s, req, now).0.db)
  {
    var t := Handle(env, s, req, now).0;
    HandleKeeps(env, s, req, now);
    var a :| a in Admins(s.db);
    if req.AdminDeleteUser? && RequireAdmin(s, req.authorization, now).Ok? {
      a := RequireAdmin(s, req.authorization, now).value;
    }
    StaysUser(env, s, req, now, a);
    assert a in Admins(t.db);
  }

  /** A request deletes nobody but the user that an admin names, and never that admin. */
  lemma {:induction false} StaysUser(env: Env, s: Sys, req: Request, now: int, a: int)
    requires a in s.db.users
    requires req.AdminDeleteUser? ==>
      RequireAdmin(s, req.authorization, now).Err? || RequireAdmin(s, req.authorization, now).value == a
    ensures a in Handle(env, s, req, now).0.db.users
  {
  }

  /** Any run from a state with an admin ends in a state with an admin. */
  lemma {:induction false} AdminSurvives(env: Env, s: Sys, run: seq<Timed>)
    requires Sound(s) && SomeAdmin(s.db)
    ensures SomeAdmin(After(env, s, run).db)
    decreases |run|
  {
    if run != [] {
      AdminStep(env, s, run[0].req, run[0].now);
      HandleKeeps(env, s, run[0].req, run[0].now);
      AdminSurvives(env, Handle(env, s, run[0].req, run[0].now).0, run[1..]);
    }
  }

  /**
    Two deletions that have both passed RequireAdmin before either is executed may leave no admin;
    AdminRaces has the runs in which requests are not atomic.
  */
  lemma {:induction false} InterleavedDeletions(s: Sys, a: int, b: int, authA: string, authB: string, now: int)
    requires Sound(s) && Admins(s.db) == {a, b} && a != b
    requires RequireAdmin(s, authA, now) == Ok(a) && RequireAdmin(s, authB, now) == Ok(b)
    ensures var afterFirst := OnDeleteUser(s, Itoa(b), a).0;
      Admins(OnDeleteUser(afterFirst, Itoa(a), b).0.db) == {}
  {
    AtoiItoa(a);
    AtoiItoa(b);
    AdminRemoved(s.db, b);
    AdminRemoved(RemoveUser(s.db, b).0, a);
  }

  lemma {:induction false} AdminRemoved(db: Db, id: int)
    ensures Admins(RemoveUser(db, id).0) == Admins(db) - {id}
  {
  }

  // ---- The handlers ----

  lemma {:induction false} AdminRevokes(env: Env, s: Sys, authorization: string, id: string, now: int)
    ensures Handle(env, s, AdminRevokeKey(authorization, id), now)
            == match RequireAdmin(s, authorization, now) case Ok(_) => OnRevoke(s, id, None) case Err(e) => (s, e)
  {
  }

  /** The signed-in user as later handlers read it back from the request context. */
  function ContextUserID(text: string): int { match Atoi(text) case Some(n) => n case None => 0 }

  lemma {:induction false} ContextKeeps(db: Db, u: int)
    requires IdsGivenOut(db) && u in db.users
    ensures ContextUserID(Itoa(u)) == u
  {
    AtoiItoa(u);
  }

  class Server {
    const env: Env
    const tables: Tables
    var issued: map<string, Claims>

    function State(): Sys
      reads this, tables
    {
      Sys(tables.Contents(), issued)
    }

    constructor (env: Env)
      ensures State() == Sys(EMPTY, map[]) && Sound(State()) && fresh(tables) && this.env == env
    {
      this.env := env;
      tables := new Tables();
      issued := map[];
    }

    method Issue(id: int, u: User, now: int) returns (token: string)
      requires Sound(State()) && id in tables.users
      modifies this
      ensures (State(), token) == IssueJWT(env, old(State()), id, u, now) && Sound(State())
    {
      IssueKeeps(env, State(), id, u, now);
      var claims := ClaimsOf(env, id, u, now);
      token := env.sign(claims);
      issued := issued[token := claims];
    }

    method Register(email: string, password: string, acceptTOS: bool, hash: Option<string>, now: int)
      returns (reply: Reply)
      requires Sound(State())
      modifies this, tables
      ensures (State(), reply) == Handle(env, old(State()), Request.Register(email, password, acceptTOS, hash), now)
      ensures Sound(State())
    {
      HandleKeeps(env, State(), Request.Register(email, password, acceptTOS, hash), now);
      if !env.emailOk(email) || |password| < 8 {
        return INVALID_INPUT;
      }
      if !acceptTOS {
        return TOS_REQUIRED;
      }
      var taken := tables.GetUserByEmail(email);
      if taken.Some? {
        return EMAIL_TAKEN;
      }
      if hash.None? {
        return INTERNAL_ERROR;
      }
      TablesKeep(State(), InsertUser(State().db, User(email, hash.value, CLIENT, true)).0);
      InsertUserKeeps(State().db, User(email, hash.value, CLIENT, true));
      var user := tables.CreateUser(email, hash.value, CLIENT, true);
      if user.Err? {
        return INTERNAL_ERROR;
      }
      var token := Issue(user.value, User(email, hash.value, CLIENT, true), now);
      reply := Session(token);
    }

    method Login(email: string, password: string, now: int) returns (reply: Reply)
      requires Sound(State())
      modifies this
      ensures (State(), reply) == Handle(env, old(State()), Request.Login(email, password), now)
      ensures Sound(State())
    {
      var user := tables.GetUserByEmail(email);
      if user.None? || !env.checkPassword(user.value.1.passwordHash, password) {
        return INVALID_CREDENTIALS;
      }
      var token := Issue(user.value.0, user.value.1, now);
      reply := Session(token);
    }

    method CreateKey(authorization: string, name: string, random: KeyBytes, now: int) returns (reply: Reply)
      requires Sound(State())
      modifies tables
      ensures (State(), reply) == Handle(env, old(State()), Request.CreateKey(authorization, name, random), now)
      ensures Sound(State())
    {
      HandleKeeps(env, State(), Request.CreateKey(authorization, name, random), now);
      var session := RequireUser(State(), authorization, now);
      if session.Err? {
        return session.error;
      }
      ContextKeeps(State().db, session.value);
      var userID := ContextUserID(Itoa(session.value));
      var plaintext := NewKey(random);
      var key := tables.CreateAPIKey(userID, KeyName(name), plaintext[..9], env.hashKey(plaintext));
      reply := if key.Ok? then KeyMinted(key.value, plaintext) else INTERNAL_ERROR;
    }

    method Revoke(id: string, owner: Option<int>) returns (reply: Reply)
      requires Sound(State())
      modifies tables
      ensures (State(), reply) == OnRevoke(old(State()), id, owner) && Sound(State())
    {
      RevokeKeeps(State(), id, owner);
      match Atoi(id) {
        case None => reply := INVALID_INPUT;
        case Some(k) =>
          var done := tables.RevokeAPIKey(k, owner);
          reply := if done.Ok? then Revoked(k) else NOT_FOUND;
      }
    }

    method Delete(id: string, self: int) returns (reply: Reply)
      requires Sound(State())
      modifies tables
      ensures (State(), reply) == OnDeleteUser(old(State()), id, self) && Sound(State())
    {
      DeleteUserKeeps(State(), id, self);
      match Atoi(id) {
        case None => return INVALID_INPUT;
        case Some(u) =>
          if u == self {
            return CANNOT_DELETE_SELF;
          }
          var done := tables.DeleteUser(u);
          reply := if done.Ok? then Deleted(u) else NOT_FOUND;
      }
    }

    method RevokeKey(authorization: string, id: string, now: int) returns (reply: Reply)
      requires Sound(State())
      modifies tables
      ensures (State(), reply) == Handle(env, old(State()), Request.RevokeKey(authorization, id), now)
      ensures Sound(State())
    {
      var session := RequireUser(State(), authorization, now);
      if session.Err? {
        return session.error;
      }
      ContextKeeps(State().db, session.value);
      reply := Revoke(id, Some(ContextUserID(Itoa(session.value))));
    }

    method AdminRevokeKey(authorization: string, id: string, now: int) returns (reply: Reply)
      requires Sound(State())
      modifies tables
      ensures (State(), reply) == Handle(env, old(State()), Request.AdminRevokeKey(authorization, id), now)
      ensures Sound(State())
    {
      AdminRevokes(env, State(), authorization, id, now);
      var session := RequireAdmin(State(), authorization, now);
      if session.Err? {
        return session.error;
      }
      reply := Revoke(id, None);
    }

    method AdminDeleteUser(authorization: string, id: string, now: int) returns (reply: Reply)
      requires Sound(State())
      modifies tables
      ensures (State(), reply) == Handle(env, old(State()), Request.AdminDeleteUser(authorization, id), now)
      ensures Sound(State())
    {
      var session := RequireAdmin(State(), authorization, now);
      if session.Err? {
        return session.error;
      }
      ContextKeeps(State().db, session.value);
      reply := Delete(id, ContextUserID(Itoa(session.value)));
    }
  }
}
