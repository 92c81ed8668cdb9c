/** internal/room/manager.go: what a new manager serves, and who is in a room after any history of operations, read
    off the history itself. */
module RoomHistory {
  import opened Bitmaps
  import opened Collections
  import opened Rooms
  import opened RoomsFlat

  // ----- a new manager ----------------------------------------------------------------------------------------------

  /** A new manager serves the loops asked for, at least one and at most 64: the first join of a positive room with a
      named connection and a handle on one of them counts 1 and sets that loop's bit alone; any other changes
      nothing. */
  lemma NewServesItsLoops(n: int, room: int, loop: int, conn: ConnId, c: Option<Conn>)
    ensures New(n).None? <==> n > 64
    ensures New(n).Some? ==>
      var m := New(n).value;
      && Inv(m) && m.loopCount == (if n < 1 then 1 else n)
      && var m' := Rooms.Add(m, room, loop, conn, c);
      && |m'.buckets| > 0
      && if room > 0 && conn != "" && c.Some? && (0 <= loop < n || loop == 0)
         then ConnCount(m', room) == 1 && forall i: nat | i < 64 :: Bit(ActiveLoopBitmap(m', room), i) <==> i == loop
         else m' == m
  {
    if New(n).Some? {
      var m := New(n).value;
      NewInv(n);
      NewRefines(n);
      LoopsPositive(m);
      if ValidKey(m.loopCount, room, loop, conn) && c.Some? {
        OneMember(m, room, loop, conn, c.value);
      }
    }
  }

  lemma OneMember(m: Manager, room: int, loop: int, conn: ConnId, c: Conn)
    requires Inv(m) && m.loopCount > 0 && Refines(m, EMPTY) && ValidKey(m.loopCount, room, loop, conn)
    ensures var m' := Rooms.Add(m, room, loop, conn, Some(c));
      && |m'.buckets| > 0 && ConnCount(m', room) == 1
      && forall i: nat | i < 64 :: Bit(ActiveLoopBitmap(m', room), i) <==> i == loop
  {
    hide Inv, Refines, Bit, BucketIndex;
    var op := Op.Add(room, loop, conn, Some(c));
    AddRefines(m, EMPTY, room, loop, conn, Some(c));
    var m', f := Step(m, op), FlatStep(m.loopCount, EMPTY, op);
    LoopsPositive(m');
    QueriesAreFlat(m', f, room);
    assert f.members == {(room, loop, conn)} && MembersOf(f, room) == {(room, loop, conn)};
  }

  // ----- any history ------------------------------------------------------------------------------------------------

  /** Operation k puts the connection in the room on this loop: an Add with a handle. */
  predicate Joins(ops: seq<Op>, k: int, room: int, loop: int, conn: ConnId) {
    0 <= k < |ops| && ops[k].Add? && ops[k].c.Some? && (ops[k].room, ops[k].loop, ops[k].conn) == (room, loop, conn)
  }

  predicate Leaves(ops: seq<Op>, k: int, room: int, loop: int, conn: ConnId) {
    0 <= k < |ops| && ops[k].Remove? && (ops[k].room, ops[k].loop, ops[k].conn) == (room, loop, conn)
  }

  /** Some operation puts the connection there, and no later one takes it out. */
  ghost predicate JoinedLast(ops: seq<Op>, room: int, loop: int, conn: ConnId) {
    exists k :: Joins(ops, k, room, loop, conn) && forall j | k < j :: !Leaves(ops, j, room, loop, conn)
  }

  lemma JoinedLastSnoc(ops: seq<Op>, op: Op, room: int, loop: int, conn: ConnId)
    ensures JoinedLast(ops + [op], room, loop, conn) <==>
      || Joins([op], 0, room, loop, conn)
      || (JoinedLast(ops, room, loop, conn) && !Leaves([op], 0, room, loop, conn))
  {
    var all, n := ops + [op], |ops|;
    assert forall k | 0 <= k < n :: all[k] == ops[k];
    if Joins([op], 0, room, loop, conn) {
      assert Joins(all, n, room, loop, conn);
    }
    if k :| Joins(ops, k, room, loop, conn) && forall j | k < j :: !Leaves(ops, j, room, loop, conn) {
      assert Joins(all, k, room, loop, conn);
      if !Leaves([op], 0, room, loop, conn) {
        assert forall j | k < j :: Leaves(all, j, room, loop, conn) ==> Leaves(ops, j, room, loop, conn);
      }
    }
    if k :| Joins(all, k, room, loop, conn) && forall j | k < j :: !Leaves(all, j, room, loop, conn) {
      assert !Leaves(all, n, room, loop, conn) || k == n;
      if k < n {
        assert Joins(ops, k, room, loop, conn);
        assert forall j | k < j :: Leaves(ops, j, room, loop, conn) ==> Leaves(all, j, room, loop, conn);
      }
    }
  }

  lemma {:induction false} FlatRunSnoc(loopCount: nat, f: Flat, ops: seq<Op>, op: Op)
    requires loopCount > 0
    ensures FlatRun(loopCount, f, ops + [op]) == FlatStep(loopCount, FlatRun(loopCount, f, ops), op)
    decreases |ops|
  {
    hide FlatStep;
    if ops == [] {
      assert [op][1..] == [] && ops + [op] == [op];
    } else {
      assert (ops + [op])[1..] == ops[1..] + [op];
      FlatRunSnoc(loopCount, FlatStep(loopCount, f, ops[0]), ops[1..], op);
    }
  }

  lemma {:induction false} MembersAreJoinedLast(loopCount: nat, ops: seq<Op>, room: int, loop: int, conn: ConnId)
    requires loopCount > 0
    ensures (room, loop, conn) in FlatRun(loopCount, EMPTY, ops).members <==>
      room > 0 && conn != "" && 0 <= loop < loopCount && JoinedLast(ops, room, loop, conn)
    decreases |ops|
  {
    hide JoinedLast, MembersOf, DueFor;
    if ops == [] {
      NobodyJoined(room, loop, conn);
    } else {
      var front, op := ops[..|ops| - 1], ops[|ops| - 1];
      assert ops == front + [op];
      MembersAreJoinedLast(loopCount, front, room, loop, conn);
      FlatRunSnoc(loopCount, EMPTY, front, op);
      JoinedLastSnoc(front, op, room, loop, conn);
      hide FlatRun;
    }
  }

  lemma NobodyJoined(room: int, loop: int, conn: ConnId)
    ensures !JoinedLast([], room, loop, conn)
  {
  }

  /** After every run of creations, joins, leaves and cleanings of a new manager, a connection is in a room on a loop if
      and only if the key is valid and the last operation that named it there was a join: cleanings take nobody out. */
  lemma InRoomIffJoinedLast(n: int, ops: seq<Op>, room: int, loop: int, conn: ConnId)
    requires n <= 64
    ensures New(n).Some? && Inv(New(n).value)
    ensures var m := Run(New(n).value, ops);
      && Inv(m)
      && (conn in Shard(m, room, loop) <==>
           room > 0 && conn != "" && (0 <= loop < n || loop == 0) && JoinedLast(ops, room, loop, conn))
  {
    hide Inv, JoinedLast, Shard, Refines;
    NewRefines(n);
    var m := New(n).value;
    RunRefines(m, EMPTY, ops);
    MembersAreJoinedLast(m.loopCount, ops, room, loop, conn);
    AgreesAt(Run(m, ops), FlatRun(m.loopCount, EMPTY, ops), room, loop, conn);
  }

  lemma AgreesAt(m: Manager, f: Flat, room: int, loop: int, conn: ConnId)
    requires Inv(m) && Refines(m, f)
    ensures conn in Shard(m, room, loop) <==> (room, loop, conn) in f.members
  {
    hide Inv, Shard;
    assert AgreesOn(m, f, room);
  }
}
