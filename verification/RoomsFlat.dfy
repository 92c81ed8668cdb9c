/** The room manager against its flat specification: which connection is in which room on which loop,
    and since when a room has been empty. */
module RoomsFlat {
  import opened Collections
  import opened Bitmaps
  import opened Rooms

  datatype Op =
    | Create(room: int)
    | Add(room: int, loop: int, conn: ConnId, c: Option<Conn>)
    | Remove(room: int, loop: int, conn: ConnId, now: int)
    | Clean(bucket: nat, now: int, idle: int)

  /** The implementation, as one machine. */
  function Step(m: Manager, op: Op): Manager
    requires Inv(m)
  {
    match op
    case Create(room) => GetOrCreate(m, room)
    case Add(room, loop, conn, c) => Rooms.Add(m, room, loop, conn, c)
    case Remove(room, loop, conn, now) => Rooms.Remove(m, room, loop, conn, now)
    case Clean(b, now, idle) => if b < |m.buckets| then CleanBucket(m, b, now, idle) else m
  }

  function Run(m: Manager, ops: seq<Op>): Manager
    requires Inv(m)
    decreases |ops|
  {
    if ops == [] then m
    else
      StepKeepsInv(m, ops[0]);
      Run(Step(m, ops[0]), ops[1..])
  }

  lemma StepKeepsInv(m: Manager, op: Op)
    requires Inv(m)
    ensures Inv(Step(m, op)) && Step(m, op).loopCount == m.loopCount
  {
    hide Inv, BucketIndex, AddToRoom, RemoveFromRoom;
    match op
    case Create(room) => CreateKeepsInv(m, room);
    case Add(room, loop, conn, c) => AddKeepsInv(m, room, loop, conn, c);
    case Remove(room, loop, conn, now) => RemoveKeepsInv(m, room, loop, conn, now);
    case Clean(b, now, idle) =>
      if b < |m.buckets| {
        CleanKeepsInv(m, b, now, idle);
      }
  }

  // ----- the flat specification ---------------------------------------------------------------------

  /** `since` gives, for the rooms the cleaner may still remove, when they became empty. */
  datatype Flat = Flat(members: set<Member>, since: map<int, int>)

  const EMPTY := Flat({}, map[])

  ghost function MembersOf(f: Flat, room: int): set<Member> {
    set t | t in f.members && t.0 == room
  }

  ghost function FlatStep(loopCount: nat, f: Flat, op: Op): Flat
    requires loopCount > 0
  {
    match op
    case Create(_) => f
    case Add(room, loop, conn, c) =>
      if ValidKey(loopCount, room, loop, conn) && c.Some?
      then Flat(f.members + {(room, loop, conn)}, f.since - {room}) else f
    case Remove(room, loop, conn, now) =>
      if (room, loop, conn) !in f.members then f
      else
        var g := f.(members := f.members - {(room, loop, conn)});
        if MembersOf(g, room) == {} then g.(since := g.since[room := now]) else g
    case Clean(b, now, idle) =>
      f.(since := map r | r in f.since && !DueFor(loopCount, f, r, b, now, idle) :: f.since[r])
  }

  /** The cleaner's visit to bucket b removes room r. */
  ghost predicate DueFor(loopCount: nat, f: Flat, r: int, b: nat, now: int, idle: int)
    requires loopCount > 0
  {
    r in f.since && BucketIndex(r, BucketNum(loopCount)) == b && f.since[r] > 0 && now - f.since[r] > idle
  }

  ghost function FlatRun(loopCount: nat, f: Flat, ops: seq<Op>): Flat
    requires loopCount > 0
    decreases |ops|
  {
    if ops == [] then f else FlatRun(loopCount, FlatStep(loopCount, f, ops[0]), ops[1..])
  }

  // ----- refinement -------------------------------------------------------------------------------------

  ghost function Shard(m: Manager, room: int, loop: int): map<ConnId, Conn>
    requires Inv(m)
  {
    if Get(m, room).None? || loop < 0 || loop >= m.loopCount then map[]
    else
      GetInv(m, room);
      Get(m, room).value.shards[loop]
  }

  ghost predicate MembersAgree(m: Manager, f: Flat, room: int)
    requires Inv(m)
  {
    forall loop, conn :: (room, loop, conn) in f.members <==> conn in Shard(m, room, loop)
  }

  /** The table and the flat state agree on the room. */
  ghost predicate AgreesOn(m: Manager, f: Flat, room: int)
    requires Inv(m)
  {
    && MembersAgree(m, f, room)
    && (room in f.since ==> Get(m, room).Some? && MembersOf(f, room) == {})
    && (Get(m, room).Some? ==> Get(m, room).value.lastEmpty == if room in f.since then f.since[room] else 0)
  }

  ghost predicate Refines(m: Manager, f: Flat)
    requires Inv(m)
  {
    forall room :: AgreesOn(m, f, room)
  }

  ghost predicate ValidMembers(loopCount: nat, f: Flat) {
    forall t | t in f.members :: ValidKey(loopCount, t.0, t.1, t.2)
  }

  lemma LoopsPositive(m: Manager)
    requires Inv(m)
    ensures 1 <= m.loopCount <= 64 && |m.buckets| == BucketNum(m.loopCount) > 0
  {
  }

  lemma EmptyIff(loopCount: nat, r: Room)
    requires RoomInv(loopCount, r)
    ensures r.local >= 0
    ensures r.local == 0 <==> forall i | 0 <= i < loopCount :: r.shards[i] == map[]
  {
    hide BitmapExact, Sum;
    SumNonNegative(r.counts);
    assert forall i | 0 <= i < loopCount :: r.counts[i] == 0 <==> r.shards[i] == map[];
  }

  lemma RoomEmptyIff(m: Manager, f: Flat, room: int)
    requires Inv(m) && Get(m, room).Some? && MembersAgree(m, f, room)
    ensures Get(m, room).value.local >= 0
    ensures Get(m, room).value.local == 0 <==> MembersOf(f, room) == {}
  {
    hide RoomInv, BucketIndex, Inv;
    GetInv(m, room);
    var r := Get(m, room).value;
    RoomShape(m.loopCount, r);
    EmptyIff(m.loopCount, r);
    if r.local == 0 {
      forall t | t in f.members && t.0 == room
        ensures t.2 in Shard(m, room, t.1)
      {
        assert t == (room, t.1, t.2);
      }
    } else {
      var i :| 0 <= i < m.loopCount && r.shards[i] != map[];
      var conn :| conn in r.shards[i];
      assert conn in Shard(m, room, i);
      assert (room, i, conn) in MembersOf(f, room);
    }
  }

  // ----- what each step does to the table -------------------------------------------------------------

  lemma CreateRefines(m: Manager, f: Flat, room: int)
    requires Inv(m) && Refines(m, f)
    ensures Inv(Step(m, Create(room))) && Refines(Step(m, Create(room)), f)
  {
    hide Inv, RoomInv, BucketIndex, MembersOf;
    CreateKeepsInv(m, room);
    var m' := GetOrCreate(m, room);
    forall x
      ensures AgreesOn(m', f, x)
    {
      assert AgreesOn(m, f, x);
      assert forall loop :: Shard(m', x, loop) == Shard(m, x, loop);
    }
  }

  lemma AddEffect(m: Manager, room: int, loop: int, conn: ConnId, c: Conn)
    requires Inv(m) && ValidKey(m.loopCount, room, loop, conn)
    ensures var m' := Rooms.Add(m, room, loop, conn, Some(c));
      && Inv(m') && Get(m', room).Some? && Get(m', room).value.lastEmpty == 0
      && (forall x | x != room :: Get(m', x) == Get(m, x))
      && (forall l :: Shard(m', room, l) == if l == loop then Shard(m, room, l)[conn := c] else Shard(m, room, l))
  {
    hide Inv, BucketIndex, BitmapExact, SetBit, Sum;
    AddKeepsInv(m, room, loop, conn, Some(c));
    CreateKeepsInv(m, room);
    var r := Get(GetOrCreate(m, room), room).value;
    EmptyIff(m.loopCount, r);
    if Get(m, room).Some? {
      GetInv(m, room);
    }
    var m' := Rooms.Add(m, room, loop, conn, Some(c));
    GetInv(m', room);
    assert Get(m', room).value == AddToRoom(r, loop, conn, c);
    assert Shard(m, room, loop) == r.shards[loop];
  }

  lemma AddRefines(m: Manager, f: Flat, room: int, loop: int, conn: ConnId, c: Option<Conn>)
    requires Inv(m) && Refines(m, f)
    ensures var op := Op.Add(room, loop, conn, c);
      Inv(Step(m, op)) && Refines(Step(m, op), FlatStep(m.loopCount, f, op))
  {
    hide Inv, BucketIndex;
    if ValidKey(m.loopCount, room, loop, conn) && c.Some? {
      AddEffect(m, room, loop, conn, c.value);
      var m', g := Rooms.Add(m, room, loop, conn, c), FlatStep(m.loopCount, f, Op.Add(room, loop, conn, c));
      forall x
        ensures AgreesOn(m', g, x)
      {
        assert AgreesOn(m, f, x);
        if x != room {
          assert MembersOf(g, x) == MembersOf(f, x);
          assert forall l :: Shard(m', x, l) == Shard(m, x, l);
        }
      }
    }
  }

  lemma RemoveEffect(m: Manager, room: int, loop: int, conn: ConnId, now: int)
    requires Inv(m)
    ensures var m' := Rooms.Remove(m, room, loop, conn, now);
      && Inv(m') && (forall x | x != room :: Get(m', x) == Get(m, x))
      && (conn in Shard(m, room, loop) && ValidKey(m.loopCount, room, loop, conn) ==>
        && Get(m', room).Some?
        && (forall l :: Shard(m', room, l) == if l == loop then Shard(m, room, l) - {conn} else Shard(m, room, l))
        && Get(m', room).value.lastEmpty == if Get(m', room).value.local == 0 then now else 0)
      && (conn !in Shard(m, room, loop) || !ValidKey(m.loopCount, room, loop, conn) ==>
        forall x :: Get(m', x) == Get(m, x))
  {
    hide Inv, BucketIndex, BitmapExact, ClearBit, Sum;
    RemoveKeepsInv(m, room, loop, conn, now);
    if ValidKey(m.loopCount, room, loop, conn) && Get(m, room).Some? {
      GetInv(m, room);
      var r := Get(m, room).value;
      EmptyIff(m.loopCount, r);
      var m' := Rooms.Remove(m, room, loop, conn, now);
      GetInv(m', room);
      assert Get(m', room).value == RemoveFromRoom(r, loop, conn, now);
    }
  }

  lemma RemoveRefines(m: Manager, f: Flat, room: int, loop: int, conn: ConnId, now: int)
    requires Inv(m) && Refines(m, f)
    requires ValidMembers(m.loopCount, f)
    ensures var op := Op.Remove(room, loop, conn, now);
      Inv(Step(m, op)) && Refines(Step(m, op), FlatStep(m.loopCount, f, op))
  {
    hide Inv, BucketIndex, RoomInv;
    LoopsPositive(m);
    RemoveEffect(m, room, loop, conn, now);
    var m', g := Rooms.Remove(m, room, loop, conn, now), FlatStep(m.loopCount, f, Op.Remove(room, loop, conn, now));
    assert AgreesOn(m, f, room);
    forall x
      ensures AgreesOn(m', g, x)
    {
      assert AgreesOn(m, f, x);
      if x != room || (room, loop, conn) !in f.members {
        assert MembersOf(g, x) == MembersOf(f, x);
        assert forall l :: Shard(m', x, l) == Shard(m, x, l);
      } else {
        var h := f.(members := f.members - {(room, loop, conn)});
        assert (room, loop, conn) in MembersOf(f, room);
        assert MembersOf(g, room) == MembersOf(h, room);
        RoomEmptyIff(m', g, room);
      }
    }
  }

  lemma CleanRefines(m: Manager, f: Flat, b: nat, now: int, idle: int)
    requires Inv(m) && Refines(m, f)
    ensures var op := Op.Clean(b, now, idle);
      && Inv(Step(m, op)) && m.loopCount > 0 && Refines(Step(m, op), FlatStep(m.loopCount, f, op))
      && (forall room :: Get(m, room).Some? ==>
           (Get(Step(m, op), room).None? <==> DueFor(m.loopCount, f, room, b, now, idle)))
  {
    hide Inv, BucketIndex, RoomInv;
    LoopsPositive(m);
    if b < |m.buckets| {
      CleanKeepsInv(m, b, now, idle);
    }
    var m', g := Step(m, Op.Clean(b, now, idle)), FlatStep(m.loopCount, f, Op.Clean(b, now, idle));
    forall x
      ensures AgreesOn(m', g, x)
      ensures Get(m, x).Some? ==> (Get(m', x).None? <==> DueFor(m.loopCount, f, x, b, now, idle))
    {
      CleanAgreesOn(m, f, b, now, idle, x);
    }
  }

  lemma CleanAgreesOn(m: Manager, f: Flat, b: nat, now: int, idle: int, x: int)
    requires Inv(m) && AgreesOn(m, f, x) && m.loopCount > 0
    ensures var op := Op.Clean(b, now, idle); var m', g := Step(m, op), FlatStep(m.loopCount, f, op);
      && Inv(m') && AgreesOn(m', g, x)
      && (Get(m, x).Some? ==> (Get(m', x).None? <==> DueFor(m.loopCount, f, x, b, now, idle)))
  {
    hide Inv, BucketIndex, RoomInv;
    LoopsPositive(m);
    var m', g := Step(m, Op.Clean(b, now, idle)), FlatStep(m.loopCount, f, Op.Clean(b, now, idle));
    if b < |m.buckets| {
      CleanKeepsInv(m, b, now, idle);
    } else {
      assert BucketIndex(x, |m.buckets|) < |m.buckets|;
    }
    assert MembersOf(g, x) == MembersOf(f, x);
    if Get(m, x).Some? {
      RoomEmptyIff(m, f, x);
      if Get(m', x).None? {
        assert forall loop, conn :: (x, loop, conn) in f.members ==> (x, loop, conn) in MembersOf(f, x);
      }
    }
  }

  // ----- every run ------------------------------------------------------------------------------------

  lemma StepRefines(m: Manager, f: Flat, op: Op)
    requires Inv(m) && m.loopCount > 0 && Refines(m, f) && ValidMembers(m.loopCount, f)
    ensures Inv(Step(m, op)) && Refines(Step(m, op), FlatStep(m.loopCount, f, op))
    ensures ValidMembers(m.loopCount, FlatStep(m.loopCount, f, op))
  {
    hide Inv, Refines, Step;
    StepKeepsInv(m, op);
    match op
    case Create(room) => CreateRefines(m, f, room);
    case Add(room, loop, conn, c) => AddRefines(m, f, room, loop, conn, c);
    case Remove(room, loop, conn, now) => RemoveRefines(m, f, room, loop, conn, now);
    case Clean(b, now, idle) => CleanRefines(m, f, b, now, idle);
  }

  /** Over every run of creations, joins, leaves and cleanings, the bucketed manager with all its
      redundant fields stays in step with the flat specification. */
  lemma {:induction false} RunRefines(m: Manager, f: Flat, ops: seq<Op>)
    requires Inv(m) && m.loopCount > 0 && Refines(m, f) && ValidMembers(m.loopCount, f)
    ensures Inv(Run(m, ops)) && Refines(Run(m, ops), FlatRun(m.loopCount, f, ops))
    ensures Run(m, ops).loopCount == m.loopCount && ValidMembers(m.loopCount, FlatRun(m.loopCount, f, ops))
    decreases |ops|
  {
    hide Inv, Refines, Step, FlatStep, ValidMembers;
    if ops == [] {
    } else {
      StepKeepsInv(m, ops[0]);
      StepRefines(m, f, ops[0]);
      RunRefines(Step(m, ops[0]), FlatStep(m.loopCount, f, ops[0]), ops[1..]);
    }
  }

  lemma NewRefines(loopCount: int)
    requires New(loopCount).Some?
    ensures var m := New(loopCount).value;
      Inv(m) && m.loopCount > 0 && Refines(m, EMPTY) && ValidMembers(m.loopCount, EMPTY)
  {
    hide Inv, BucketIndex;
    NewInv(loopCount);
  }

  // ----- the queries answer from the flat state ---------------------------------------------------------

  ghost function TriplesOn(room: int, loop: int, shard: map<ConnId, Conn>): set<Member> {
    set conn | conn in shard :: (room, loop, conn)
  }

  lemma {:induction false} TripleCount(room: int, loop: int, shard: map<ConnId, Conn>)
    ensures |TriplesOn(room, loop, shard)| == |shard|
    decreases |shard|
  {
    if shard == map[] {
    } else {
      var conn :| conn in shard;
      var rest := shard - {conn};
      SizeAfterRemoval(shard, conn);
      TripleCount(room, loop, rest);
      assert TriplesOn(room, loop, shard) == TriplesOn(room, loop, rest) + {(room, loop, conn)};
    }
  }

  ghost function MembersBelow(f: Flat, room: int, loops: nat): set<Member> {
    set t | t in f.members && t.0 == room && t.1 < loops
  }

  lemma {:induction false} CountBelow(m: Manager, f: Flat, room: int, loops: nat)
    requires Inv(m) && Get(m, room).Some? && MembersAgree(m, f, room) && loops <= m.loopCount
    requires |Get(m, room).value.counts| == m.loopCount
    ensures |MembersBelow(f, room, loops)| == Sum(Get(m, room).value.counts[..loops])
  {
    hide Inv, BucketIndex, BitmapExact;
    GetInv(m, room);
    var r := Get(m, room).value;
    if loops == 0 {
      forall t | t in f.members && t.0 == room
        ensures t.1 >= 0
      {
        assert t == (room, t.1, t.2);
      }
      assert MembersBelow(f, room, 0) == {};
    } else {
      var i := loops - 1;
      CountBelow(m, f, room, i);
      TripleCount(room, i, r.shards[i]);
      assert Shard(m, room, i) == r.shards[i];
      forall t | t in f.members && t.0 == room && t.1 == i
        ensures t in TriplesOn(room, i, r.shards[i])
      {
        assert t == (room, i, t.2);
      }
      assert MembersBelow(f, room, loops) == MembersBelow(f, room, i) + TriplesOn(room, i, r.shards[i]);
      assert r.counts[..loops][..i] == r.counts[..i];
    }
  }

  /** HasLocalRoom, ConnCount and ActiveLoopBitmap are functions of the membership alone. */
  lemma QueriesAreFlat(m: Manager, f: Flat, room: int)
    requires Inv(m) && |m.buckets| > 0 && Refines(m, f)
    ensures ConnCount(m, room) == |MembersOf(f, room)|
    ensures HasLocalRoom(m, room) <==> MembersOf(f, room) != {}
    ensures forall loop: nat | loop < 64 ::
      Bit(ActiveLoopBitmap(m, room), loop) <==> exists t :: t in f.members && t.0 == room && t.1 == loop
  {
    hide Inv, BucketIndex, Bit, Sum;
    LoopsPositive(m);
    assert AgreesOn(m, f, room);
    if Get(m, room).Some? {
      GetInv(m, room);
      var r := Get(m, room).value;
      CountBelow(m, f, room, m.loopCount);
      assert r.counts[..m.loopCount] == r.counts;
      forall t | t in f.members && t.0 == room
        ensures t.2 in Shard(m, room, t.1)
      {
        assert t == (room, t.1, t.2);
      }
      assert MembersBelow(f, room, m.loopCount) == MembersOf(f, room);
      forall loop: nat | loop < 64
        ensures Bit(r.active, loop) <==> exists t :: t in f.members && t.0 == room && t.1 == loop
      {
        if loop < m.loopCount && r.shards[loop] != map[] {
          var conn :| conn in r.shards[loop];
          assert conn in Shard(m, room, loop);
          assert (room, loop, conn) in f.members;
        }
      }
    } else {
      NoMembers(m, f, room);
    }
  }

  lemma NoMembers(m: Manager, f: Flat, room: int)
    requires Inv(m) && Get(m, room).None? && MembersAgree(m, f, room)
    ensures MembersOf(f, room) == {}
    ensures forall loop: nat | loop < 64 :: !Bit(0, loop)
  {
    hide Inv, BucketIndex, Bit;
    forall t | t in f.members && t.0 == room
      ensures t.2 in Shard(m, room, t.1)
    {
      assert t == (room, t.1, t.2);
    }
    forall loop: nat | loop < 64
      ensures !Bit(0, loop)
    {
      NoBits(loop);
    }
  }

  /** Eviction is invisible: a cleaning removes exactly the rooms that have been empty for more than
      `idle` seconds, and no query on any room answers differently afterwards. */
  lemma EvictionIsInvisible(m: Manager, f: Flat, b: nat, now: int, idle: int, room: int)
    requires Inv(m) && |m.buckets| > 0 && m.loopCount > 0 && Refines(m, f)
    ensures var m' := Step(m, Clean(b, now, idle));
      && Inv(m') && |m'.buckets| > 0
      && ConnCount(m', room) == ConnCount(m, room)
      && HasLocalRoom(m', room) == HasLocalRoom(m, room)
      && (forall loop: nat | loop < 64 ::
            Bit(ActiveLoopBitmap(m', room), loop) <==> Bit(ActiveLoopBitmap(m, room), loop))
      && (Get(m, room).Some? ==> (Get(m', room).None? <==> DueFor(m.loopCount, f, room, b, now, idle)))
    ensures DueFor(m.loopCount, f, room, b, now, idle) ==> MembersOf(f, room) == {}
    ensures MembersOf(f, room) != {} ==> Get(m, room).Some? && Get(m, room).value.lastEmpty == 0
  {
    hide Inv, BucketIndex, Bit, MembersOf, ConnCount, HasLocalRoom, ActiveLoopBitmap;
    CleanRefines(m, f, b, now, idle);
    StepKeepsInv(m, Clean(b, now, idle));
    var m', g := Step(m, Clean(b, now, idle)), FlatStep(m.loopCount, f, Clean(b, now, idle));
    LoopsPositive(m');
    QueriesAreFlat(m, f, room);
    QueriesAreFlat(m', g, room);
    SameMembers(f, g, room);
    assert AgreesOn(m, f, room);
    if Get(m, room).None? {
      NoMembers(m, f, room);
    }
  }

  lemma SameMembers(f: Flat, g: Flat, room: int)
    requires f.members == g.members
    ensures MembersOf(f, room) == MembersOf(g, room)
  {
  }
}
