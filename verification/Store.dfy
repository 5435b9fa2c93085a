/**
  The tables of users and API keys: AUTOINCREMENT ids that are never used again, unique e-mail
  addresses and key hashes, and keys that refer to a live owner and go with it (ON DELETE CASCADE).
  Timestamps and last_used_at are left out.
*/
module Store {
  import opened Wrappers
  import opened Text

  datatype User = User(email: string, passwordHash: string, role: string, acceptedTOS: bool)

  datatype APIKey = APIKey(userID: int, name: string, prefix: string, keyHash: string, revoked: bool)

  /** The rows by id, and the largest id that each table has ever given out. */
  datatype Db = Db(users: map<int, User>, keys: map<int, APIKey>, userSeq: nat, keySeq: nat)

  datatype StoreError = NotFound | Rejected

  const ADMIN := "admin"

  // ---- Integrity ----

  ghost predicate OwnersLive(db: Db) { forall k | k in db.keys :: db.keys[k].userID in db.users }

  ghost predicate IdsGivenOut(db: Db) {
    && db.userSeq <= MAX_INT && db.keySeq <= MAX_INT
    && (forall u | u in db.users :: 1 <= u <= db.userSeq)
    && (forall k | k in db.keys :: 1 <= k <= db.keySeq)
  }

  ghost predicate UniqueColumns(db: Db) {
    && (forall u, v | u in db.users && v in db.users && db.users[u].email == db.users[v].email :: u == v)
    && (forall k, l | k in db.keys && l in db.keys && db.keys[k].keyHash == db.keys[l].keyHash :: k == l)
  }

  ghost predicate Wf(db: Db) { OwnersLive(db) && IdsGivenOut(db) && UniqueColumns(db) }

  const EMPTY := Db(map[], map[], 0, 0)

  // ---- The statements ----

  predicate EmailTaken(db: Db, email: string) { exists u | u in db.users :: db.users[u].email == email }

  predicate HashTaken(db: Db, hash: string) { exists k | k in db.keys :: db.keys[k].keyHash == hash }

  function InsertUser(db: Db, u: User): (Db, Result<int, StoreError>) {
    if EmailTaken(db, u.email) || db.userSeq >= MAX_INT then (db, Err(Rejected))
    else
      var id := db.userSeq + 1;
      (db.(users := db.users[id := u], userSeq := id), Ok(id))
  }

  function InsertKey(db: Db, k: APIKey): (Db, Result<int, StoreError>) {
    if k.userID !in db.users || HashTaken(db, k.keyHash) || db.keySeq >= MAX_INT then (db, Err(Rejected))
    else
      var id := db.keySeq + 1;
      (db.(keys := db.keys[id := k], keySeq := id), Ok(id))
  }

  function KeysOfOthers(keys: map<int, APIKey>, user: int): map<int, APIKey> {
    map k | k in keys && keys[k].userID != user :: keys[k]
  }

  function RemoveUser(db: Db, id: int): (Db, Result<(), StoreError>) {
    if id !in db.users then (db, Err(NotFound))
    else (db.(users := db.users - {id}, keys := KeysOfOthers(db.keys, id)), Ok(()))
  }

  /** With an owner, only a key of that owner is revoked. */
  function MarkRevoked(db: Db, id: int, owner: Option<int>): (Db, Result<(), StoreError>) {
    if id !in db.keys || (owner.Some? && db.keys[id].userID != owner.value) then (db, Err(NotFound))
    else (db.(keys := db.keys[id := db.keys[id].(revoked := true)]), Ok(()))
  }

  /** The user with this e-mail address. */
  ghost function UserByEmail(db: Db, email: string): (r: Option<int>)
    ensures r.Some? ==> r.value in db.users && db.users[r.value].email == email
    ensures r.None? ==> !EmailTaken(db, email)
  {
    if EmailTaken(db, email) then
      var u :| u in db.users && db.users[u].email == email;
      Some(u)
    else None
  }

  ghost predicate Live(db: Db, k: int) { k in db.keys && !db.keys[k].revoked && db.keys[k].userID in db.users }

  /** The unrevoked key with this hash whose owner exists. */
  ghost function KeyByHash(db: Db, hash: string): (r: Option<int>)
    ensures r.Some? ==> Live(db, r.value) && db.keys[r.value].keyHash == hash
    ensures r.None? ==> forall k | Live(db, k) :: db.keys[k].keyHash != hash
  {
    if exists k :: Live(db, k) && db.keys[k].keyHash == hash then
      var k :| Live(db, k) && db.keys[k].keyHash == hash;
      Some(k)
    else None
  }

  // ---- What every statement keeps ----

  /**
    What a later state may differ in: rows go and new ids are given out, but no id is given out
    again, no row changes its owner, hash, role or e-mail, and no revocation is undone.
  */
  ghost predicate Later(db: Db, later: Db) {
    && db.userSeq <= later.userSeq && db.keySeq <= later.keySeq
    && (forall u | u in later.users && u <= db.userSeq :: u in db.users && later.users[u] == db.users[u])
    && (forall k | k in later.keys && k <= db.keySeq :: k in db.keys && KeyAges(db.keys[k], later.keys[k]))
  }

  predicate KeyAges(k: APIKey, later: APIKey) {
    later == k || later == k.(revoked := true)
  }

  lemma {:induction false} LaterTransitive(a: Db, b: Db, c: Db)
    requires Later(a, b) && Later(b, c)
    ensures Later(a, c)
  {
    forall k | k in c.keys && k <= a.keySeq ensures k in a.keys && KeyAges(a.keys[k], c.keys[k]) {
      assert k in b.keys && KeyAges(b.keys[k], c.keys[k]);
    }
  }

  lemma {:induction false} InsertUserKeeps(db: Db, u: User)
    requires Wf(db)
    ensures Wf(InsertUser(db, u).0) && Later(db, InsertUser(db, u).0)
    ensures var (after, r) := InsertUser(db, u);
      && (r.Ok? <==> !EmailTaken(db, u.email) && db.userSeq < MAX_INT)
      && (r.Err? ==> after == db)
      && (r.Ok? ==> r.value > db.userSeq && r.value !in db.users && after.users == db.users[r.value := u])
      && after.keys == db.keys && after.keySeq == db.keySeq
  {
  }

  lemma {:induction false} InsertKeyKeeps(db: Db, k: APIKey)
    requires Wf(db)
    ensures Wf(InsertKey(db, k).0) && Later(db, InsertKey(db, k).0)
    ensures var (after, r) := InsertKey(db, k);
      && (r.Ok? <==> k.userID in db.users && !HashTaken(db, k.keyHash) && db.keySeq < MAX_INT)
      && (r.Err? ==> after == db)
      && (r.Ok? ==> r.value > db.keySeq && r.value !in db.keys && after.keys == db.keys[r.value := k])
      && after.users == db.users && after.userSeq == db.userSeq
  {
  }

  lemma {:induction false} RemoveUserKeeps(db: Db, id: int)
    requires Wf(db)
    ensures Wf(RemoveUser(db, id).0) && Later(db, RemoveUser(db, id).0)
    ensures var (after, r) := RemoveUser(db, id);
      && (r.Ok? <==> id in db.users) && id !in after.users
      && (forall u | u != id :: u in after.users <==> u in db.users)
      && (forall k :: k in after.keys <==> k in db.keys && db.keys[k].userID != id)
      && (forall k | k in after.keys :: after.keys[k] == db.keys[k])
      && after.userSeq == db.userSeq && after.keySeq == db.keySeq
  {
  }

  function WithRevoked(db: Db, id: int): Db
    requires id in db.keys
  {
    db.(keys := db.keys[id := db.keys[id].(revoked := true)])
  }

  lemma {:induction false} RevokedStaysWf(db: Db, id: int)
    requires Wf(db) && id in db.keys
    ensures Wf(WithRevoked(db, id))
  {
    var after := WithRevoked(db, id);
    assert forall k | k in after.keys :: after.keys[k].keyHash == db.keys[k].keyHash;
  }

  lemma {:induction false} RevokedIsLater(db: Db, id: int)
    requires id in db.keys
    ensures Later(db, WithRevoked(db, id))
  {
  }

  lemma {:induction false} RevokedLives(db: Db, id: int, k: int)
    requires id in db.keys
    ensures Live(WithRevoked(db, id), k) <==> k != id && Live(db, k)
  {
  }

  lemma {:induction false} MarkRevokedKeeps(db: Db, id: int, owner: Option<int>)
    requires Wf(db)
    ensures Wf(MarkRevoked(db, id, owner).0) && Later(db, MarkRevoked(db, id, owner).0)
    ensures var (after, r) := MarkRevoked(db, id, owner);
      && (r.Ok? <==> id in db.keys && (owner.None? || db.keys[id].userID == owner.value))
      && (r.Ok? ==> !Live(after, id)) && (r.Err? ==> after == db)
      && (forall k | k != id :: Live(after, k) <==> Live(db, k))
      && after.users == db.users && after.userSeq == db.userSeq && after.keySeq == db.keySeq
  {
    if MarkRevoked(db, id, owner).1.Ok? {
      assert MarkRevoked(db, id, owner).0 == WithRevoked(db, id);
      RevokedStaysWf(db, id);
      RevokedIsLater(db, id);
      forall k ensures Live(WithRevoked(db, id), k) <==> k != id && Live(db, k) {
        RevokedLives(db, id, k);
      }
    }
  }

  // ---- The store object ----

  datatype UserSummary = UserSummary(id: int, email: string, role: string, activeKeys: nat)

  function SummaryOf(db: Db, u: int): UserSummary
    requires u in db.users
  {
    var active := set k | k in db.keys && db.keys[k].userID == u && !db.keys[k].revoked;
    UserSummary(u, db.users[u].email, db.users[u].role, |active|)
  }

  class Tables {
    var users: map<int, User>
    var keys: map<int, APIKey>
    var userSeq: nat
    var keySeq: nat

    function Contents(): Db
      reads this
    {
      Db(users, keys, userSeq, keySeq)
    }

    constructor ()
      ensures Contents() == EMPTY && Wf(Contents())
    {
      users, keys, userSeq, keySeq := map[], map[], 0, 0;
    }

    method CreateUser(email: string, passwordHash: string, role: string, acceptedTOS: bool)
      returns (r: Result<int, StoreError>)
      requires Wf(Contents())
      modifies this
      ensures (Contents(), r) == InsertUser(old(Contents()), User(email, passwordHash, role, acceptedTOS))
      ensures Wf(Contents()) && Later(old(Contents()), Contents())
    {
      InsertUserKeeps(Contents(), User(email, passwordHash, role, acceptedTOS));
      if EmailTaken(Contents(), email) || userSeq >= MAX_INT {
        return Err(Rejected);
      }
      userSeq := userSeq + 1;
      users := users[userSeq := User(email, passwordHash, role, acceptedTOS)];
      r := Ok(userSeq);
    }

    method GetUserByEmail(email: string) returns (r: Option<(int, User)>)
      requires Wf(Contents())
      ensures r == match UserByEmail(Contents(), email) case Some(u) => Some((u, users[u])) case None => None
    {
      if u :| u in users && users[u].email == email {
        r := Some((u, users[u]));
      } else {
        r := None;
      }
    }

    method GetUserByID(id: int) returns (r: Option<User>)
      ensures r == if id in users then Some(users[id]) else None
    {
      if id in users { r := Some(users[id]); } else { r := None; }
    }

    method DeleteUser(id: int) returns (r: Result<(), StoreError>)
      requires Wf(Contents())
      modifies this
      ensures (Contents(), r) == RemoveUser(old(Contents()), id)
      ensures Wf(Contents()) && Later(old(Contents()), Contents())
    {
      RemoveUserKeeps(Contents(), id);
      if id !in users {
        return Err(NotFound);
      }
      users := users - {id};
      keys := map k | k in keys && keys[k].userID != id :: keys[k];
      r := Ok(());
    }

    method CreateAPIKey(userID: int, name: string, prefix: string, keyHash: string) returns (r: Result<int, StoreError>)
      requires Wf(Contents())
      modifies this
      ensures (Contents(), r) == InsertKey(old(Contents()), APIKey(userID, name, prefix, keyHash, false))
      ensures Wf(Contents()) && Later(old(Contents()), Contents())
    {
      InsertKeyKeeps(Contents(), APIKey(userID, name, prefix, keyHash, false));
      if userID !in users || HashTaken(Contents(), keyHash) || keySeq >= MAX_INT {
        return Err(Rejected);
      }
      keySeq := keySeq + 1;
      keys := keys[keySeq := APIKey(userID, name, prefix, keyHash, false)];
      r := Ok(keySeq);
    }

    /** The key and its owner. */
    method ResolveAPIKey(keyHash: string) returns (r: Option<(int, int)>)
      requires Wf(Contents())
      ensures r == match KeyByHash(Contents(), keyHash) case Some(k) => Some((k, keys[k].userID)) case None => None
    {
      if k :| k in keys && !keys[k].revoked && keys[k].keyHash == keyHash && keys[k].userID in users {
        assert Live(Contents(), k);
        r := Some((k, keys[k].userID));
      } else {
        r := None;
      }
    }

    /** `RevokeAPIKey` with an owner, `AdminRevokeAPIKey` without. */
    method RevokeAPIKey(id: int, owner: Option<int>) returns (r: Result<(), StoreError>)
      requires Wf(Contents())
      modifies this
      ensures (Contents(), r) == MarkRevoked(old(Contents()), id, owner)
      ensures Wf(Contents()) && Later(old(Contents()), Contents())
    {
      MarkRevokedKeeps(Contents(), id, owner);
      if id !in keys || (owner.Some? && keys[id].userID != owner.value) {
        return Err(NotFound);
      }
      keys := keys[id := keys[id].(revoked := true)];
      r := Ok(());
    }

    /** The user's keys, newest first, each once. */
    method ListAPIKeysByUser(userID: int) returns (out: seq<(int, APIKey)>)
      requires Wf(Contents())
      ensures forall i, j | 0 <= i < j < |out| :: out[i].0 > out[j].0
      ensures forall row :: row in out <==> row.0 in keys && row.1 == keys[row.0] && row.1.userID == userID
    {
      out := [];
      var id: nat := keySeq;
      while id > 0
        invariant id <= keySeq
        invariant forall i | 0 <= i < |out| :: out[i].0 > id
        invariant forall i, j | 0 <= i < j < |out| :: out[i].0 > out[j].0
        invariant forall row :: row in out <==>
                    row.0 in keys && row.0 > id && row.1 == keys[row.0] && row.1.userID == userID
      {
        if id in keys && keys[id].userID == userID {
          out := out + [(id, keys[id])];
        }
        id := id - 1;
      }
    }

    /** All users, newest first, each with the number of its unrevoked keys. */
    method ListUsers() returns (out: seq<UserSummary>)
      requires Wf(Contents())
      ensures forall i, j | 0 <= i < j < |out| :: out[i].id > out[j].id
      ensures forall s :: s in out <==> s.id in users && s == SummaryOf(Contents(), s.id)
    {
      out := [];
      var id: nat := userSeq;
      while id > 0
        invariant id <= userSeq
        invariant forall i | 0 <= i < |out| :: out[i].id > id
        invariant forall i, j | 0 <= i < j < |out| :: out[i].id > out[j].id
        invariant forall s :: s in out <==> s.id in users && s.id > id && s == SummaryOf(Contents(), s.id)
      {
        if id in users {
          out := out + [SummaryOf(Contents(), id)];
        }
        id := id - 1;
      }
    }

    method CountAdmins() returns (n: nat)
      requires Wf(Contents())
      ensures n == |Admins(Contents())|
    {
      n := 0;
      var id: nat := userSeq;
      while id > 0
        invariant id <= userSeq
        invariant n == |AdminsAbove(Contents(), id)|
      {
        AdminsStep(Contents(), id);
        if id in users && users[id].role == ADMIN {
          n := n + 1;
        }
        id := id - 1;
      }
      assert AdminsAbove(Contents(), 0) == Admins(Contents());
    }
  }

  function Admins(db: Db): set<int> { set u | u in db.users && db.users[u].role == ADMIN }

  function AdminsAbove(db: Db, id: int): set<int> { set u | u in db.users && db.users[u].role == ADMIN && u > id }

  lemma {:induction false} AdminsStep(db: Db, id: int)
    ensures |AdminsAbove(db, id - 1)| == |AdminsAbove(db, id)| + (if id in Admins(db) then 1 else 0)
  {
    if id in Admins(db) {
      assert AdminsAbove(db, id - 1) == AdminsAbove(db, id) + {id};
    } else {
      assert AdminsAbove(db, id - 1) == AdminsAbove(db, id);
    }
  }
}
