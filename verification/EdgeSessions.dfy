/** _deprecated/edge/session.go: the sessions of an edge node, by user and, redundantly, by room. */
module EdgeSessions {
  /** The fields of a session that never change. */
  datatype Session = Session(userId: int, roomId: int, connId: string)

  type ByUser = map<int, Session>
  type ByRoom = map<int, seq<Session>>

  function Listed(rooms: ByRoom, room: int): seq<Session> {
    if room in rooms then rooms[room] else []
  }

  ghost predicate NoDuplicates(s: seq<Session>) {
    forall i, j | 0 <= i < j < |s| :: s[i] != s[j]
  }

  ghost predicate UsersAgree(users: ByUser) {
    forall u | u in users :: users[u].userId == u
  }

  /** The room's list holds exactly the sessions the user map has for the room, each once. */
  ghost predicate Mirrors(users: ByUser, rooms: ByRoom, room: int) {
    && NoDuplicates(Listed(rooms, room))
    && (room in rooms ==> rooms[room] != [])
    && (forall s :: s in Listed(rooms, room) <==> s.roomId == room && s.userId in users && users[s.userId] == s)
  }

  ghost predicate Inv(users: ByUser, rooms: ByRoom) {
    UsersAgree(users) && forall room :: Mirrors(users, rooms, room)
  }

  function Created(users: ByUser, rooms: ByRoom, s: Session): (ByUser, ByRoom) {
    if s.userId in users then (users, rooms)
    else (users[s.userId := s], rooms[s.roomId := Listed(rooms, s.roomId) + [s]])
  }

  function Without(s: seq<Session>, user: int): seq<Session> {
    if s == [] then []
    else
      var front, last := Without(s[..|s| - 1], user), s[|s| - 1];
      if last.userId != user then front + [last] else front
  }

  function Removed(users: ByUser, rooms: ByRoom, user: int): (ByUser, ByRoom) {
    if user !in users then (users, rooms)
    else
      var room := users[user].roomId;
      var rest := Without(Listed(rooms, room), user);
      (users - {user}, if room !in rooms then rooms else if rest == [] then rooms - {room} else rooms[room := rest])
  }

  lemma {:induction false} WithoutMembers(s: seq<Session>, user: int)
    ensures forall x :: x in Without(s, user) <==> x in s && x.userId != user
    ensures NoDuplicates(s) ==> NoDuplicates(Without(s, user))
  {
    if s == [] {
    } else {
      var front, last := s[..|s| - 1], s[|s| - 1];
      WithoutMembers(front, user);
      assert s == front + [last];
      if NoDuplicates(s) {
        assert NoDuplicates(front);
        var w := Without(front, user);
        forall i | 0 <= i < |w|
          ensures w[i] != last
        {
          assert w[i] in w && w[i] in front;
        }
      }
    }
  }

  /** Creating a session keeps every room's list an exact mirror of the user map. */
  lemma CreateKeepsMirror(users: ByUser, rooms: ByRoom, s: Session)
    requires Inv(users, rooms)
    ensures var (users', rooms') := Created(users, rooms, s);
      && Inv(users', rooms')
      && users' == (if s.userId in users then users else users[s.userId := s])
      && forall room, x :: x in Listed(rooms', room) <==>
           x in Listed(rooms, room) || (s.userId !in users && x == s && room == s.roomId)
  {
    var (users', rooms') := Created(users, rooms, s);
    forall room
      ensures Mirrors(users', rooms', room)
    {
      assert Mirrors(users, rooms, room);
    }
  }

  /** So does removing one. */
  lemma RemoveKeepsMirror(users: ByUser, rooms: ByRoom, user: int)
    requires Inv(users, rooms)
    ensures var (users', rooms') := Removed(users, rooms, user);
      && Inv(users', rooms') && users' == users - {user}
      && forall room, x :: x in Listed(rooms', room) <==> x in Listed(rooms, room) && x.userId != user
  {
    hide Mirrors, Listed;
    var (users', rooms') := Removed(users, rooms, user);
    forall room
      ensures Mirrors(users', rooms', room)
      ensures forall x :: x in Listed(rooms', room) <==> x in Listed(rooms, room) && x.userId != user
    {
      RemoveMirrors(users, rooms, user, room);
    }
  }

  lemma RemoveMirrors(users: ByUser, rooms: ByRoom, user: int, room: int)
    requires UsersAgree(users) && Mirrors(users, rooms, room)
    requires user in users ==> Mirrors(users, rooms, users[user].roomId)
    ensures var (users', rooms') := Removed(users, rooms, user);
      && Mirrors(users', rooms', room)
      && forall x :: x in Listed(rooms', room) <==> x in Listed(rooms, room) && x.userId != user
  {
    hide Without, NoDuplicates;
    if user in users {
      WithoutMembers(Listed(rooms, users[user].roomId), user);
    }
  }

  lemma OneFewer(users: ByUser, user: int)
    requires user in users
    ensures |users - {user}| == |users| - 1
  {
    assert users.Keys == (users - {user}).Keys + {user};
  }

  class SessionManager {
    var sessions: ByUser
    var roomSessions: ByRoom
    var totalSessions: int
    var activeCount: int

    ghost predicate Valid()
      reads this
    {
      Inv(sessions, roomSessions) && activeCount == |sessions| && totalSessions >= activeCount
    }

    constructor ()
      ensures Valid() && sessions == map[] && roomSessions == map[]
    {
      sessions, roomSessions, totalSessions, activeCount := map[], map[], 0, 0;
    }

    method CreateSession(userId: int, roomId: int, connId: string) returns (session: Session)
      requires Valid()
      modifies this
      ensures Valid()
      ensures (sessions, roomSessions) == Created(old(sessions), old(roomSessions), Session(userId, roomId, connId))
      ensures sessions ==
        if userId in old(sessions) then old(sessions) else old(sessions)[userId := Session(userId, roomId, connId)]
      ensures userId in sessions && session == sessions[userId]
      ensures userId in old(sessions) ==> session == old(sessions)[userId]
      ensures totalSessions == old(totalSessions) + if userId in old(sessions) then 0 else 1
    {
      if userId in sessions {
        return sessions[userId];
      }
      session := Session(userId, roomId, connId);
      CreateKeepsMirror(sessions, roomSessions, session);
      sessions := sessions[userId := session];
      roomSessions := roomSessions[roomId := (if roomId in roomSessions then roomSessions[roomId] else []) + [session]];
      totalSessions := totalSessions + 1;
      activeCount := activeCount + 1;
    }

    method RemoveSession(userId: int)
      requires Valid()
      modifies this
      ensures Valid() && totalSessions == old(totalSessions)
      ensures (sessions, roomSessions) == Removed(old(sessions), old(roomSessions), userId)
      ensures sessions == old(sessions) - {userId}
    {
      if userId !in sessions {
        return;
      }
      hide Inv, Without;
      RemoveKeepsMirror(sessions, roomSessions, userId);
      var session := sessions[userId];
      OneFewer(sessions, userId);
      sessions := sessions - {userId};
      if session.roomId in roomSessions {
        var newSessions := Keep(roomSessions[session.roomId], userId);
        if |newSessions| == 0 {
          roomSessions := roomSessions - {session.roomId};
        } else {
          roomSessions := roomSessions[session.roomId := newSessions];
        }
      }
      activeCount := activeCount - 1;
    }

    /** GetRoomSessions: exactly the room's sessions, each once. */
    method GetRoomSessions(roomId: int) returns (result: seq<Session>)
      requires Valid()
      ensures result == Listed(roomSessions, roomId) && NoDuplicates(result)
      ensures forall s :: s in result <==> s.roomId == roomId && s.userId in sessions && sessions[s.userId] == s
    {
      assert Mirrors(sessions, roomSessions, roomId);
      result := if roomId in roomSessions then roomSessions[roomId] else [];
    }
  }

  /** The filtering loop of RemoveSession. */
  method Keep(list: seq<Session>, userId: int) returns (kept: seq<Session>)
    ensures kept == Without(list, userId)
  {
    kept := [];
    for i := 0 to |list|
      invariant kept == Without(list[..i], userId)
    {
      assert list[..i + 1][..i] == list[..i];
      if list[i].userId != userId {
        kept := kept + [list[i]];
      }
    }
    assert list[..|list|] == list;
  }
}
