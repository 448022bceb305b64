/** The in-memory `connectedUsers` map of the socket handler: socket id to
    the identity registered on that socket. A JavaScript `Map` iterates in
    insertion order and `set` on an existing key keeps the key's place, so
    the map is a sequence of entries with distinct socket ids. */
module ConnectionRegistry {
  import opened Wrappers
  import opened Seqs
  import opened Models

  datatype Connection = Connection(sessionId: SessionId, name: string, role: Role, socketId: SocketId)

  type Registry = seq<Connection>

  /** What `students:list` sends for each student. */
  datatype StudentInfo = StudentInfo(name: string, sessionId: SessionId)

  ghost predicate KeysUnique(reg: Registry) {
    forall i, j :: 0 <= i < j < |reg| ==> reg[i].socketId != reg[j].socketId
  }

  predicate HasKey(reg: Registry, sid: SocketId) {
    exists c :: c in reg && c.socketId == sid
  }

  /** Position of the entry for socket `sid`. */
  function IndexOf(reg: Registry, sid: SocketId): (r: Option<nat>)
    ensures r.None? <==> !HasKey(reg, sid)
    ensures r.Some? ==> r.value < |reg| && reg[r.value].socketId == sid
    ensures r.Some? ==> forall j :: 0 <= j < r.value ==> reg[j].socketId != sid
  {
    if reg == [] then None
    else if reg[0].socketId == sid then Some(0)
    else
      var k := IndexOf(reg[1..], sid);
      assert k.None? ==> forall c :: c in reg[1..] ==> c.socketId != sid;
      if k.None? then None else Some(k.value + 1)
  }

  /** `connectedUsers.get(socket.id)`. */
  function Get(reg: Registry, sid: SocketId): (r: Option<Connection>)
    ensures r.None? <==> !HasKey(reg, sid)
    ensures r.Some? ==> r.value in reg && r.value.socketId == sid
  {
    match IndexOf(reg, sid)
    case None => None
    case Some(i) => Some(reg[i])
  }

  /** `connectedUsers.set(c.socketId, c)`: overwrites the entry of that
      socket in place, or appends a new one. */
  function Set(reg: Registry, c: Connection): (r: Registry)
    ensures HasKey(reg, c.socketId) ==> |r| == |reg|
    ensures HasKey(reg, c.socketId) ==>
      exists i :: 0 <= i < |reg| && reg[i].socketId == c.socketId && r == reg[i := c]
    ensures !HasKey(reg, c.socketId) ==> r == reg + [c]
  {
    match IndexOf(reg, c.socketId)
    case None => reg + [c]
    case Some(i) => reg[i := c]
  }

  /** `connectedUsers.delete(sid)`: drops the entry of that socket, keeping
      the order of the others. */
  function Delete(reg: Registry, sid: SocketId): (r: Registry)
    ensures forall c :: c in r <==> c in reg && c.socketId != sid
    ensures forall c :: multiset(r)[c] == if c.socketId != sid then multiset(reg)[c] else 0
    ensures IsSubseq(r, reg)
  {
    var keep := (c: Connection) => c.socketId != sid;
    FilterCounts(reg, keep);
    FilterIsSubseq(reg, keep);
    Filter(reg, keep)
  }

  /** `set` then `get` on the same key yields what was set; every other key
      reads as before; keys stay distinct. */
  lemma {:induction false} SetGet(reg: Registry, c: Connection, sid: SocketId)
    requires KeysUnique(reg)
    ensures KeysUnique(Set(reg, c))
    ensures Get(Set(reg, c), c.socketId) == Some(c)
    ensures sid != c.socketId ==> Get(Set(reg, c), sid) == Get(reg, sid)
  {
    var r := Set(reg, c);
    if HasKey(reg, c.socketId) {
      var i := IndexOf(reg, c.socketId).value;
      assert r == reg[i := c];
      assert r[i] == c;
      GetUnique(r, i);
      if sid != c.socketId {
        match IndexOf(reg, sid)
        case None =>
          assert !HasKey(r, sid) by {
            forall d | d in r ensures d.socketId != sid {
              var k :| 0 <= k < |r| && r[k] == d;
              if k != i { assert reg[k] == d; }
            }
          }
        case Some(k) =>
          assert r[k] == reg[k];
          GetUnique(r, k);
          GetUnique(reg, k);
      }
    } else {
      assert r[|reg|] == c;
      GetUnique(r, |reg|);
      if sid != c.socketId {
        match IndexOf(reg, sid)
        case None =>
          assert !HasKey(r, sid);
        case Some(k) =>
          assert r[k] == reg[k];
          GetUnique(r, k);
          GetUnique(reg, k);
      }
    }
  }

  /** With distinct keys, the entry at `i` is what `get` of its key returns. */
  lemma {:induction false} GetUnique(reg: Registry, i: nat)
    requires KeysUnique(reg) && i < |reg|
    ensures Get(reg, reg[i].socketId) == Some(reg[i])
  {
    var k := IndexOf(reg, reg[i].socketId);
    assert HasKey(reg, reg[i].socketId) by { assert reg[i] in reg; }
  }

  /** After `delete(sid)` there is no entry for `sid`; with distinct keys
      every other key reads as before and keys stay distinct. */
  lemma {:induction false} DeleteGet(reg: Registry, sid: SocketId, other: SocketId)
    requires KeysUnique(reg)
    ensures Get(Delete(reg, sid), sid).None?
    ensures KeysUnique(Delete(reg, sid))
    ensures other != sid ==> Get(Delete(reg, sid), other) == Get(reg, other)
  {
    var r := Delete(reg, sid);
    DeleteSubsequence(reg, sid);
    if other != sid {
      match Get(reg, other)
      case None =>
      case Some(c) =>
        var k :| 0 <= k < |r| && r[k] == c;
        GetUnique(r, k);
    }
  }

  /** `delete` keeps distinct keys: the result is a subsequence of the input. */
  lemma {:induction false} DeleteSubsequence(reg: Registry, sid: SocketId)
    requires KeysUnique(reg)
    ensures KeysUnique(Delete(reg, sid))
  {
    var key := (c: Connection) => c.socketId;
    assert DistinctKeys(reg, key);
    FilterDistinct(reg, (c: Connection) => c.socketId != sid, key);
  }

  /** Registering a socket that was not connected and then disconnecting it
      leaves the registry as it was. */
  lemma {:induction false} SetThenDelete(reg: Registry, c: Connection)
    requires !HasKey(reg, c.socketId)
    ensures Delete(Set(reg, c), c.socketId) == reg
  {
    var p := (d: Connection) => d.socketId != c.socketId;
    FilterAppend(reg, [c], p);
    FilterAll(reg, p);
    FilterNone([c], p);
  }

  /** Entry `j` is the first one registered for `sessionId`. */
  ghost predicate FirstOfSession(reg: Registry, j: int, sessionId: SessionId) {
    0 <= j < |reg| && reg[j].sessionId == sessionId &&
    forall k :: 0 <= k < j ==> reg[k].sessionId != sessionId
  }

  /** The first connection (in insertion order) registered for a session:
      `Array.from(connectedUsers.entries()).find(([_, u]) => u.sessionId === s)`. */
  function FindBySession(reg: Registry, sessionId: SessionId): (r: Option<Connection>)
    ensures r.None? <==> forall c :: c in reg ==> c.sessionId != sessionId
    ensures r.Some? ==> r.value in reg && r.value.sessionId == sessionId
    ensures r.Some? ==> exists j :: FirstOfSession(reg, j, sessionId) && reg[j] == r.value
  {
    if reg == [] then None
    else if reg[0].sessionId == sessionId then
      assert FirstOfSession(reg, 0, sessionId);
      Some(reg[0])
    else
      var r := FindBySession(reg[1..], sessionId);
      assert r.Some? ==> exists j :: FirstOfSession(reg, j, sessionId) && reg[j] == r.value by {
        if r.Some? {
          var j :| FirstOfSession(reg[1..], j, sessionId) && reg[1..][j] == r.value;
          assert FirstOfSession(reg, j + 1, sessionId);
        }
      }
      r
  }

  /** The student connections, each once per entry, in insertion order. */
  function Students(reg: Registry): (r: Registry)
    ensures forall c :: c in r <==> c in reg && c.role == Student
    ensures forall c :: multiset(r)[c] == if c.role == Student then multiset(reg)[c] else 0
    ensures IsSubseq(r, reg)
  {
    var isStudent := (c: Connection) => c.role == Student;
    FilterCounts(reg, isStudent);
    FilterIsSubseq(reg, isStudent);
    Filter(reg, isStudent)
  }

  /** The `students.length` that gates poll creation. */
  function StudentCount(reg: Registry): nat {
    |Students(reg)|
  }

  /** The payload of `broadcastStudentList`: name and session of every
      student connection, in insertion order. */
  function Roster(reg: Registry): (r: seq<StudentInfo>)
    ensures |r| == StudentCount(reg)
    ensures forall i :: 0 <= i < |r| ==> Students(reg)[i].name == r[i].name && Students(reg)[i].sessionId == r[i].sessionId
  {
    var st := Students(reg);
    seq(|st|, i requires 0 <= i < |st| => StudentInfo(st[i].name, st[i].sessionId))
  }

  /** Everyone on the roster is a connected student and every connected
      student is on the roster. */
  lemma {:induction false} RosterMembers(reg: Registry, info: StudentInfo)
    ensures info in Roster(reg) <==> exists c :: c in reg && c.role == Student && info == StudentInfo(c.name, c.sessionId)
  {
    var st := Students(reg);
    InfoMembers(st, Roster(reg), info);
    if exists c :: c in reg && c.role == Student && info == StudentInfo(c.name, c.sessionId) {
      var c :| c in reg && c.role == Student && info == StudentInfo(c.name, c.sessionId);
      assert c in st;
    }
  }

  /** A list of `{name, sessionId}` pairs taken entry by entry from some
      connections holds exactly the pairs of those connections. */
  lemma {:induction false} InfoMembers(st: Registry, r: seq<StudentInfo>, info: StudentInfo)
    requires |r| == |st|
    requires forall i :: 0 <= i < |r| ==> st[i].name == r[i].name && st[i].sessionId == r[i].sessionId
    ensures info in r <==> exists c :: c in st && info == StudentInfo(c.name, c.sessionId)
  {
    if info in r {
      var i :| 0 <= i < |r| && r[i] == info;
      assert st[i] in st;
    }
    if exists c :: c in st && info == StudentInfo(c.name, c.sessionId) {
      var c :| c in st && info == StudentInfo(c.name, c.sessionId);
      var i :| 0 <= i < |st| && st[i] == c;
      assert r[i] == info;
    }
  }
}
