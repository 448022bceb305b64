/** The User collection as the socket handler uses it: look a session up,
    upsert it on registration, flag it when a teacher kicks it. */
module Users {
  import opened Wrappers
  import opened Models

  /** Position of the record of `sessionId` (`findOne({sessionId})`). */
  function UserIndex(users: seq<User>, sessionId: SessionId): (r: Option<nat>)
    ensures r.None? <==> forall u :: u in users ==> u.sessionId != sessionId
    ensures r.Some? ==> r.value < |users| && users[r.value].sessionId == sessionId
    ensures r.Some? ==> forall j :: 0 <= j < r.value ==> users[j].sessionId != sessionId
  {
    if users == [] then None
    else if users[0].sessionId == sessionId then Some(0)
    else
      var k := UserIndex(users[1..], sessionId);
      assert k.None? ==> forall u :: u in users[1..] ==> u.sessionId != sessionId;
      if k.None? then None else Some(k.value + 1)
  }

  function FindUser(users: seq<User>, sessionId: SessionId): (r: Option<User>)
    ensures r.None? <==> forall u :: u in users ==> u.sessionId != sessionId
    ensures r.Some? ==> r.value in users && r.value.sessionId == sessionId
  {
    match UserIndex(users, sessionId)
    case None => None
    case Some(i) => Some(users[i])
  }

  /** `user?.isKicked`: an unknown session is not kicked. */
  predicate IsKicked(users: seq<User>, sessionId: SessionId) {
    FindUser(users, sessionId).Some? && FindUser(users, sessionId).value.isKicked
  }

  /** `findOneAndUpdate({sessionId}, {socketId, name, role, connectedAt},
      {upsert: true})`: an existing record gets the new socket, name, role
      and connection time and keeps its kicked flag; otherwise a new record
      with the schema defaults is appended. */
  function Upserted(users: seq<User>, sessionId: SessionId, socketId: SocketId, name: string, role: Role, now: int): (r: seq<User>)
    ensures |r| == if UserIndex(users, sessionId).Some? then |users| else |users| + 1
    ensures forall i :: 0 <= i < |users| ==> r[i].sessionId == users[i].sessionId
    ensures forall i :: 0 <= i < |users| && users[i].sessionId != sessionId ==> r[i] == users[i]
  {
    match UserIndex(users, sessionId)
    case None => users + [NewUser(sessionId, socketId, name, role, now)]
    case Some(i) => users[i := users[i].(socketId := Some(socketId), name := name, role := role, connectedAt := now)]
  }

  /** `findOneAndUpdate({sessionId}, {isKicked: true})` without upsert:
      flags the record, and does nothing for an unknown session. */
  function Flagged(users: seq<User>, sessionId: SessionId): (r: seq<User>)
    ensures |r| == |users|
    ensures forall i :: 0 <= i < |users| ==>
      r[i] == users[i] || (users[i].sessionId == sessionId && r[i] == users[i].(isKicked := true))
  {
    match UserIndex(users, sessionId)
    case None => users
    case Some(i) => users[i := users[i].(isKicked := true)]
  }

  /** Replacing the record of one session leaves every other session's
      record as it was and the sessions unique. */
  lemma {:induction false} ReplaceRecord(users: seq<User>, i: nat, u: User, other: SessionId)
    requires UniqueSessions(users) && i < |users| && u.sessionId == users[i].sessionId
    ensures UniqueSessions(users[i := u])
    ensures FindUser(users[i := u], u.sessionId) == Some(u)
    ensures other != u.sessionId ==> FindUser(users[i := u], other) == FindUser(users, other)
  {
    var r := users[i := u];
    FindAt(r, i);
    if other != u.sessionId {
      match UserIndex(users, other)
      case None =>
        assert forall w :: w in r ==> w.sessionId != other by {
          forall w | w in r ensures w.sessionId != other {
            var k :| 0 <= k < |r| && r[k] == w;
            if k != i { assert users[k] == w; }
          }
        }
      case Some(k) =>
        assert r[k] == users[k];
        FindAt(r, k);
        FindAt(users, k);
    }
  }

  /** With unique sessions, the record at `i` is what a lookup of its
      session finds. */
  lemma {:induction false} FindAt(users: seq<User>, i: nat)
    requires UniqueSessions(users) && i < |users|
    ensures FindUser(users, users[i].sessionId) == Some(users[i])
  {
    assert users[i] in users;
  }

  /** The upserted record: registered on the new socket with the new name,
      role and time; kicked exactly when it was kicked before. Other
      sessions are untouched and sessions stay unique. */
  lemma {:induction false} UpsertEffect(users: seq<User>, sessionId: SessionId, socketId: SocketId, name: string, role: Role, now: int, other: SessionId)
    requires UniqueSessions(users)
    ensures UniqueSessions(Upserted(users, sessionId, socketId, name, role, now))
    ensures FindUser(Upserted(users, sessionId, socketId, name, role, now), sessionId)
      == Some(User(sessionId, Some(socketId), name, role, now, IsKicked(users, sessionId)))
    ensures other != sessionId ==>
      FindUser(Upserted(users, sessionId, socketId, name, role, now), other) == FindUser(users, other)
  {
    var r := Upserted(users, sessionId, socketId, name, role, now);
    match UserIndex(users, sessionId)
    case None =>
      var u := NewUser(sessionId, socketId, name, role, now);
      assert r == users + [u];
      FindAt(r, |users|);
      if other != sessionId {
        match UserIndex(users, other)
        case None =>
          assert forall w :: w in r ==> w.sessionId != other;
        case Some(k) =>
          assert r[k] == users[k];
          FindAt(r, k);
          FindAt(users, k);
      }
    case Some(i) =>
      FindAt(users, i);
      ReplaceRecord(users, i, users[i].(socketId := Some(socketId), name := name, role := role, connectedAt := now), other);
  }

  /** After a kick the session's record (if any) is flagged and nothing else
      about it changes; other sessions are untouched; kicking is
      idempotent. */
  lemma {:induction false} MarkKickedEffect(users: seq<User>, sessionId: SessionId, other: SessionId)
    requires UniqueSessions(users)
    ensures UniqueSessions(Flagged(users, sessionId))
    ensures FindUser(users, sessionId).None? ==> Flagged(users, sessionId) == users
    ensures FindUser(users, sessionId).Some? ==>
      FindUser(Flagged(users, sessionId), sessionId) == Some(FindUser(users, sessionId).value.(isKicked := true))
    ensures other != sessionId ==> FindUser(Flagged(users, sessionId), other) == FindUser(users, other)
    ensures Flagged(Flagged(users, sessionId), sessionId) == Flagged(users, sessionId)
  {
    match UserIndex(users, sessionId)
    case None =>
    case Some(i) =>
      var r := Flagged(users, sessionId);
      FindAt(users, i);
      ReplaceRecord(users, i, users[i].(isKicked := true), other);
      FindAt(r, i);
      assert UserIndex(r, sessionId) == Some(i);
      assert r[i := r[i].(isKicked := true)] == r;
  }

  /** The User collection. */
  class UserStore {
    var users: seq<User>

    ghost predicate Valid()
      reads this
    {
      UniqueSessions(users)
    }

    constructor ()
      ensures Valid() && users == []
    {
      users := [];
    }

    method Upsert(sessionId: SessionId, socketId: SocketId, name: string, role: Role, now: int)
      requires Valid()
      modifies this
      ensures Valid()
      ensures users == Upserted(old(users), sessionId, socketId, name, role, now)
    {
      UpsertEffect(users, sessionId, socketId, name, role, now, sessionId);
      users := Upserted(users, sessionId, socketId, name, role, now);
    }

    method MarkKicked(sessionId: SessionId)
      requires Valid()
      modifies this
      ensures Valid()
      ensures users == Flagged(old(users), sessionId)
    {
      MarkKickedEffect(users, sessionId, sessionId);
      users := Flagged(users, sessionId);
    }
  }
}
