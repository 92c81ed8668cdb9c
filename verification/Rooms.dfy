/** internal/room/manager.go as a machine on values: buckets of rooms with per-loop shards, redundant
    counters, the bitmap of active loops and delayed eviction, refined to a flat set of memberships. */
module Rooms {
  import opened Collections
  import opened Bitmaps

  type ConnId = string

  /** A room, a loop and a connection in that shard. */
  type Member = (int, int, ConnId)

  /** A handle on a gnet.Conn. */
  datatype Conn = Conn(fd: int)

  datatype Room = Room(
    id: int,
    shards: seq<map<ConnId, Conn>>,
    counts: seq<int>,
    local: int,
    lastEmpty: int,
    active: bv64)

  datatype Manager = Manager(loopCount: nat, buckets: seq<map<int, Room>>)

  // ----- buckets ----------------------------------------------------------------------------------

  /** hash/fnv's 32-bit FNV-1a over the 8 little-endian octets of the room ID. */
  function Fnv1a(id: int, octets: nat, h: bv32): bv32
    decreases octets
  {
    if octets == 0 then h else Fnv1a(id / 256, octets - 1, (h ^ ((id % 256) as bv32)) * 16777619)
  }

  function BucketIndex(id: int, bucketNum: nat): (b: nat)
    requires bucketNum > 0
    ensures b < bucketNum
  {
    (Fnv1a(id, 8, 2166136261) as nat) % bucketNum
  }

  function BucketNum(loopCount: nat): nat {
    if loopCount * 4 < 16 then 16 else loopCount * 4
  }

  /** NewManager; None is the panic. */
  function New(loopCount: int): Option<Manager> {
    var n := if loopCount <= 0 then 1 else loopCount;
    if n > 64 then None else Some(Manager(n, seq(BucketNum(n), _ => map[])))
  }

  function Get(m: Manager, id: int): Option<Room>
    requires |m.buckets| > 0
  {
    var bucket := m.buckets[BucketIndex(id, |m.buckets|)];
    if id in bucket then Some(bucket[id]) else None
  }

  function Put(m: Manager, id: int, r: Room): Manager
    requires |m.buckets| > 0
  {
    var b := BucketIndex(id, |m.buckets|);
    m.(buckets := m.buckets[b := m.buckets[b][id := r]])
  }

  // ----- the invariant ----------------------------------------------------------------------------

  function Sum(s: seq<int>): int {
    if s == [] then 0 else Sum(s[..|s| - 1]) + s[|s| - 1]
  }

  /** Every redundant field of a room is exact. */
  ghost predicate RoomInv(loopCount: nat, r: Room) {
    && |r.shards| == |r.counts| == loopCount <= 64
    && CountsExact(r)
    && BitmapExact(r)
    && (r.local > 0 ==> r.lastEmpty == 0)
  }

  ghost predicate CountsExact(r: Room)
    requires |r.shards| == |r.counts|
  {
    && (forall i | 0 <= i < |r.counts| :: r.counts[i] == |r.shards[i]|)
    && r.local == Sum(r.counts)
  }

  ghost predicate BitmapExact(r: Room) {
    forall i: nat | i < 64 :: Bit(r.active, i) <==> i < |r.shards| && r.shards[i] != map[]
  }

  ghost predicate Inv(m: Manager) {
    && 1 <= m.loopCount <= 64
    && |m.buckets| == BucketNum(m.loopCount)
    && (forall b, id | 0 <= b < |m.buckets| && id in m.buckets[b] ::
          Placed(m, b, id))
  }

  /** The room with this ID lives only in the bucket its ID hashes to, and is exact. */
  ghost predicate Placed(m: Manager, b: nat, id: int)
    requires b < |m.buckets| && id in m.buckets[b]
  {
    b == BucketIndex(id, |m.buckets|) && m.buckets[b][id].id == id && RoomInv(m.loopCount, m.buckets[b][id])
  }

  // ----- operations -------------------------------------------------------------------------------

  function FreshRoom(id: int, loopCount: nat): Room {
    Room(id, seq(loopCount, _ => map[]), seq(loopCount, _ => 0), 0, 0, 0)
  }

  function GetOrCreate(m: Manager, id: int): Manager
    requires |m.buckets| > 0
  {
    if Get(m, id).Some? then m else Put(m, id, FreshRoom(id, m.loopCount))
  }

  predicate ValidKey(loopCount: nat, room: int, loop: int, conn: ConnId) {
    room > 0 && conn != "" && 0 <= loop < loopCount
  }

  function AddToRoom(r: Room, loop: nat, conn: ConnId, c: Conn): Room
    requires loop < |r.shards| == |r.counts| <= 64
  {
    var shards := r.shards[loop := r.shards[loop][conn := c]];
    if conn in r.shards[loop] then r.(shards := shards)
    else
      var n := r.counts[loop] + 1;
      r.(shards := shards, local := r.local + 1, counts := r.counts[loop := n],
         active := if n == 1 then SetBit(r.active, loop) else r.active, lastEmpty := 0)
  }

  function RemoveFromRoom(r: Room, loop: nat, conn: ConnId, now: int): Room
    requires loop < |r.shards| == |r.counts| <= 64
  {
    if conn !in r.shards[loop] then r
    else
      var n := r.counts[loop] - 1;
      r.(shards := r.shards[loop := r.shards[loop] - {conn}], local := r.local - 1,
         counts := r.counts[loop := n], active := if n == 0 then ClearBit(r.active, loop) else r.active,
         lastEmpty := if r.local - 1 == 0 then now else r.lastEmpty)
  }

  function Add(m: Manager, room: int, loop: int, conn: ConnId, c: Option<Conn>): Manager
    requires Inv(m)
  {
    if !ValidKey(m.loopCount, room, loop, conn) || c.None? then m
    else
      CreateKeepsInv(m, room);
      var m1 := GetOrCreate(m, room);
      Put(m1, room, AddToRoom(Get(m1, room).value, loop, conn, c.value))
  }

  function Remove(m: Manager, room: int, loop: int, conn: ConnId, now: int): Manager
    requires Inv(m)
  {
    if !ValidKey(m.loopCount, room, loop, conn) || Get(m, room).None? then m
    else
      GetInv(m, room);
      Put(m, room, RemoveFromRoom(Get(m, room).value, loop, conn, now))
  }

  predicate Evictable(r: Room, now: int, idle: int) {
    r.local == 0 && r.lastEmpty > 0 && now - r.lastEmpty > idle
  }

  function CleanBucket(m: Manager, b: nat, now: int, idle: int): Manager
    requires b < |m.buckets|
  {
    var bucket := m.buckets[b];
    m.(buckets := m.buckets[b := map id | id in bucket && !Evictable(bucket[id], now, idle) :: bucket[id]])
  }

  // ----- queries ----------------------------------------------------------------------------------

  function HasLocalRoom(m: Manager, id: int): bool
    requires |m.buckets| > 0
  {
    Get(m, id).Some? && Get(m, id).value.local > 0
  }

  function ConnCount(m: Manager, id: int): int
    requires |m.buckets| > 0
  {
    if Get(m, id).None? then 0 else Get(m, id).value.local
  }

  function ActiveLoopBitmap(m: Manager, id: int): bv64
    requires |m.buckets| > 0
  {
    if Get(m, id).None? then 0 else Get(m, id).value.active
  }

  // ----- rooms keep their invariant -----------------------------------------------------------------

  lemma {:induction false} SumUpdate(s: seq<int>, i: nat, v: int)
    requires i < |s|
    ensures Sum(s[i := v]) == Sum(s) - s[i] + v
  {
    var t := s[i := v];
    if i == |s| - 1 {
      assert t[..|t| - 1] == s[..|s| - 1];
    } else {
      SumUpdate(s[..|s| - 1], i, v);
      assert t[..|t| - 1] == s[..|s| - 1][i := v];
    }
  }

  lemma {:induction false} SumNonNegative(s: seq<int>)
    requires forall i | 0 <= i < |s| :: s[i] >= 0
    ensures Sum(s) >= 0
    ensures Sum(s) == 0 <==> forall i | 0 <= i < |s| :: s[i] == 0
  {
    if s == [] {
    } else {
      var front := s[..|s| - 1];
      SumNonNegative(front);
      assert forall i | 0 <= i < |front| :: front[i] == s[i];
    }
  }

  lemma {:induction false} SumZeros(n: nat)
    ensures Sum(seq(n, _ => 0)) == 0
  {
    if n == 0 {
    } else {
      var s: seq<int> := seq(n, _ => 0);
      var t: seq<int> := seq(n - 1, _ => 0);
      assert s[..n - 1] == t;
      SumZeros(n - 1);
    }
  }

  lemma FreshRoomInv(id: int, loopCount: nat)
    requires loopCount <= 64
    ensures RoomInv(loopCount, FreshRoom(id, loopCount))
  {
    hide Bit;
    SumZeros(loopCount);
    var r := FreshRoom(id, loopCount);
    assert r.counts == seq(loopCount, _ => 0);
    forall i: nat | i < 64
      ensures !Bit(0, i)
    {
      NoBits(i);
    }
  }

  lemma AddToRoomInv(loopCount: nat, r: Room, loop: nat, conn: ConnId, c: Conn)
    requires RoomInv(loopCount, r) && loop < loopCount
    ensures RoomInv(loopCount, AddToRoom(r, loop, conn, c))
  {
    hide BitmapExact, SetBit, Sum;
    SumUpdate(r.counts, loop, r.counts[loop] + 1);
    AddToRoomBits(r, loop, conn, c);
  }

  lemma AddToRoomBits(r: Room, loop: nat, conn: ConnId, c: Conn)
    requires loop < |r.shards| == |r.counts| <= 64 && BitmapExact(r) && r.counts[loop] == |r.shards[loop]|
    ensures BitmapExact(AddToRoom(r, loop, conn, c))
  {
    hide Bit, SetBit;
    var r' := AddToRoom(r, loop, conn, c);
    forall i: nat | i < 64
      ensures Bit(r'.active, i) <==> i < |r'.shards| && r'.shards[i] != map[]
    {
      SetBitBits(r.active, loop, i);
      assert conn in r'.shards[loop];
    }
  }

  lemma RemoveFromRoomInv(loopCount: nat, r: Room, loop: nat, conn: ConnId, now: int)
    requires RoomInv(loopCount, r) && loop < loopCount
    ensures RoomInv(loopCount, RemoveFromRoom(r, loop, conn, now))
  {
    hide BitmapExact, ClearBit, Sum;
    if conn in r.shards[loop] {
      SizeAfterRemoval(r.shards[loop], conn);
      SumUpdate(r.counts, loop, r.counts[loop] - 1);
      SumNonNegative(r.counts);
      assert r.local > 0;
    }
    RemoveFromRoomBits(r, loop, conn, now);
  }

  lemma RemoveFromRoomBits(r: Room, loop: nat, conn: ConnId, now: int)
    requires loop < |r.shards| == |r.counts| <= 64 && BitmapExact(r) && r.counts[loop] == |r.shards[loop]|
    ensures BitmapExact(RemoveFromRoom(r, loop, conn, now))
  {
    hide Bit, ClearBit;
    var r' := RemoveFromRoom(r, loop, conn, now);
    if conn in r.shards[loop] {
      SizeAfterRemoval(r.shards[loop], conn);
      forall i: nat | i < 64
        ensures Bit(r'.active, i) <==> i < |r'.shards| && r'.shards[i] != map[]
      {
        ClearBitBits(r.active, loop, i);
      }
    }
  }

  lemma SizeAfterRemoval<K, V>(m: map<K, V>, k: K)
    requires k in m
    ensures |m - {k}| == |m| - 1
    ensures m - {k} == map[] <==> |m| == 1
  {
    assert (m - {k}).Keys == m.Keys - {k};
    if |m| == 1 {
      assert |(m - {k}).Keys| == 0;
    }
  }

  // ----- the manager keeps its invariant --------------------------------------------------------------

  lemma PutKeepsInv(m: Manager, id: int, r: Room)
    requires Inv(m) && RoomInv(m.loopCount, r) && r.id == id
    ensures Inv(Put(m, id, r))
    ensures forall x :: Get(Put(m, id, r), x) == if x == id then Some(r) else Get(m, x)
  {
    hide BucketIndex, RoomInv;
    var m' := Put(m, id, r);
    forall a, x | 0 <= a < |m'.buckets| && x in m'.buckets[a]
      ensures Placed(m', a, x)
    {
      if !(x == id && a == BucketIndex(id, |m.buckets|)) {
        assert x in m.buckets[a] && Placed(m, a, x);
      }
    }
  }

  lemma GetInv(m: Manager, id: int)
    requires Inv(m) && Get(m, id).Some?
    ensures RoomInv(m.loopCount, Get(m, id).value) && Get(m, id).value.id == id
  {
    hide BucketIndex, RoomInv;
  }

  lemma CreateKeepsInv(m: Manager, id: int)
    requires Inv(m)
    ensures Inv(GetOrCreate(m, id)) && Get(GetOrCreate(m, id), id).Some?
    ensures Get(m, id).None? ==> Get(GetOrCreate(m, id), id) == Some(FreshRoom(id, m.loopCount))
    ensures Get(m, id).Some? ==> Get(GetOrCreate(m, id), id) == Get(m, id)
    ensures forall x | x != id :: Get(GetOrCreate(m, id), x) == Get(m, x)
    ensures RoomInv(m.loopCount, Get(GetOrCreate(m, id), id).value)
  {
    hide BucketIndex, RoomInv;
    if Get(m, id).None? {
      FreshRoomInv(id, m.loopCount);
      PutKeepsInv(m, id, FreshRoom(id, m.loopCount));
    } else {
      GetInv(m, id);
    }
  }

  lemma AddKeepsInv(m: Manager, room: int, loop: int, conn: ConnId, c: Option<Conn>)
    requires Inv(m)
    ensures Inv(Add(m, room, loop, conn, c))
    ensures ValidKey(m.loopCount, room, loop, conn) && c.Some? ==>
      forall x :: Get(Add(m, room, loop, conn, c), x) ==
        if x == room then Some(AddToRoom(Get(GetOrCreate(m, room), room).value, loop, conn, c.value)) else Get(m, x)
  {
    hide BucketIndex, RoomInv, AddToRoom;
    if ValidKey(m.loopCount, room, loop, conn) && c.Some? {
      CreateKeepsInv(m, room);
      var m1 := GetOrCreate(m, room);
      GetInv(m1, room);
      var r := Get(m1, room).value;
      RoomShape(m.loopCount, r);
      AddToRoomInv(m.loopCount, r, loop, conn, c.value);
      AddKeepsId(r, loop, conn, c.value);
      PutKeepsInv(m1, room, AddToRoom(r, loop, conn, c.value));
    }
  }

  lemma RoomShape(loopCount: nat, r: Room)
    requires RoomInv(loopCount, r)
    ensures |r.shards| == |r.counts| == loopCount <= 64
  {
  }

  lemma AddKeepsId(r: Room, loop: nat, conn: ConnId, c: Conn)
    requires loop < |r.shards| == |r.counts| <= 64
    ensures AddToRoom(r, loop, conn, c).id == r.id
  {
  }

  lemma RemoveKeepsInv(m: Manager, room: int, loop: int, conn: ConnId, now: int)
    requires Inv(m)
    ensures Inv(Remove(m, room, loop, conn, now))
    ensures ValidKey(m.loopCount, room, loop, conn) && Get(m, room).Some? ==>
      forall x :: Get(Remove(m, room, loop, conn, now), x) ==
        if x == room then Some(RemoveFromRoom(Get(m, room).value, loop, conn, now)) else Get(m, x)
  {
    hide BucketIndex, RoomInv;
    if ValidKey(m.loopCount, room, loop, conn) && Get(m, room).Some? {
      GetInv(m, room);
      var r := Get(m, room).value;
      RoomShape(m.loopCount, r);
      RemoveFromRoomInv(m.loopCount, r, loop, conn, now);
      PutKeepsInv(m, room, RemoveFromRoom(r, loop, conn, now));
    }
  }

  lemma CleanKeepsInv(m: Manager, b: nat, now: int, idle: int)
    requires Inv(m) && b < |m.buckets|
    ensures Inv(CleanBucket(m, b, now, idle))
    ensures forall id ::
      Get(CleanBucket(m, b, now, idle), id) ==
        if Get(m, id).Some? && BucketIndex(id, |m.buckets|) == b && Get(m, id).value.local == 0
           && Get(m, id).value.lastEmpty > 0 && now - Get(m, id).value.lastEmpty > idle
        then None else Get(m, id)
  {
    hide BucketIndex, RoomInv;
    var m' := CleanBucket(m, b, now, idle);
    forall a, x | 0 <= a < |m'.buckets| && x in m'.buckets[a]
      ensures Placed(m', a, x)
    {
      assert x in m.buckets[a] && Placed(m, a, x);
    }
  }

  lemma NewInv(loopCount: int)
    requires New(loopCount).Some?
    ensures Inv(New(loopCount).value)
    ensures forall id :: Get(New(loopCount).value, id) == None
    ensures New(loopCount).value.loopCount == if loopCount < 1 then 1 else loopCount
  {
    hide BucketIndex;
  }
}
