/** internal/room/manager.go in its own form: rooms updated in place through a table of buckets.
    Every method is proved against the machine of module Rooms. */
module RoomManager {
  import opened Collections
  import opened Bitmaps
  import R = Rooms

  class Room {
    const id: int
    var shards: seq<map<R.ConnId, R.Conn>>
    var shardConnCount: seq<int>
    var localConnCount: int
    var lastEmptyTime: int
    var activeLoops: bv64

    ghost function View(): R.Room
      reads this
    {
      R.Room(id, shards, shardConnCount, localConnCount, lastEmptyTime, activeLoops)
    }

    constructor (id: int, loopCount: nat)
      ensures View() == R.FreshRoom(id, loopCount)
    {
      this.id := id;
      shards := seq(loopCount, _ => map[]);
      shardConnCount := seq(loopCount, _ => 0);
      localConnCount, lastEmptyTime, activeLoops := 0, 0, 0;
    }

    /** The second half of AddConnInLoop. */
    method Add(loopIdx: nat, connID: R.ConnId, c: R.Conn)
      requires loopIdx < |shards| == |shardConnCount| <= 64
      modifies this
      ensures View() == R.AddToRoom(old(View()), loopIdx, connID, c)
    {
      if connID in shards[loopIdx] {
        shards := shards[loopIdx := shards[loopIdx][connID := c]];
        return;
      }
      shards := shards[loopIdx := shards[loopIdx][connID := c]];
      localConnCount := localConnCount + 1;
      var newCount := shardConnCount[loopIdx] + 1;
      shardConnCount := shardConnCount[loopIdx := newCount];
      if newCount == 1 {
        activeLoops := SetBit(activeLoops, loopIdx);
      }
      lastEmptyTime := 0;
    }

    /** The second half of RemoveConnInLoop. */
    method Remove(loopIdx: nat, connID: R.ConnId, now: int)
      requires loopIdx < |shards| == |shardConnCount| <= 64
      modifies this
      ensures View() == R.RemoveFromRoom(old(View()), loopIdx, connID, now)
    {
      if connID !in shards[loopIdx] {
        return;
      }
      shards := shards[loopIdx := shards[loopIdx] - {connID}];
      localConnCount := localConnCount - 1;
      var newCount := shardConnCount[loopIdx] - 1;
      shardConnCount := shardConnCount[loopIdx := newCount];
      if newCount == 0 {
        activeLoops := ClearBit(activeLoops, loopIdx);
      }
      if localConnCount == 0 {
        lastEmptyTime := now;
      }
    }
  }

  class Manager {
    const loopCount: nat
    var buckets: seq<map<int, Room>>
    ghost var model: R.Manager

    ghost function Rooms(): set<object>
      reads this
    {
      set b, id | 0 <= b < |buckets| && id in buckets[b] :: buckets[b][id]
    }

    ghost predicate Valid()
      reads this, Rooms()
    {
      && R.Inv(model)
      && model.loopCount == loopCount
      && |model.buckets| == |buckets|
      && (forall b | 0 <= b < |buckets| :: buckets[b].Keys == model.buckets[b].Keys)
      && (forall b, id | 0 <= b < |buckets| && id in buckets[b] :: buckets[b][id].View() == model.buckets[b][id])
    }

    constructor (loops: int)
      requires loops <= 64
      ensures Valid() && fresh(Rooms())
      ensures R.New(loops) == Some(model)
      ensures loopCount == if loops < 1 then 1 else loops
    {
      var n := if loops <= 0 then 1 else loops;
      loopCount := n;
      buckets := seq(R.BucketNum(n), _ => map[]);
      model := R.Manager(n, seq(R.BucketNum(n), _ => map[]));
      new;
      R.NewInv(loops);
    }

    /** A room object is in the table once: its ID decides key and bucket. */
    lemma RoomsAreDistinct(b: nat, id: int, b': nat, id': int)
      requires Valid() && b < |buckets| && id in buckets[b] && b' < |buckets| && id' in buckets[b']
      requires buckets[b][id] == buckets[b'][id']
      ensures b == b' && id == id'
    {
      assert R.Placed(model, b, id) && R.Placed(model, b', id');
    }

    method Get(roomID: int) returns (r: Room?)
      requires Valid()
      ensures |model.buckets| > 0
      ensures r == null <==> R.Get(model, roomID).None?
      ensures r != null ==> r in Rooms() && r.View() == R.Get(model, roomID).value
    {
      var b := R.BucketIndex(roomID, |buckets|);
      r := if roomID in buckets[b] then buckets[b][roomID] else null;
    }

    method GetOrCreate(roomID: int) returns (r: Room)
      requires Valid()
      modifies this
      ensures Valid() && fresh(Rooms() - old(Rooms()))
      ensures |old(model).buckets| > 0 && model == R.GetOrCreate(old(model), roomID)
      ensures var b := R.BucketIndex(roomID, |buckets|);
        b < |buckets| && roomID in buckets[b] && buckets[b][roomID] == r
    {
      hide R.BucketIndex;
      R.CreateKeepsInv(model, roomID);
      var b := R.BucketIndex(roomID, |buckets|);
      if roomID in buckets[b] {
        return buckets[b][roomID];
      }
      r := new Room(roomID, loopCount);
      buckets := buckets[b := buckets[b][roomID := r]];
      model := R.GetOrCreate(model, roomID);
    }

    method AddConnInLoop(roomID: int, loopIdx: int, connID: R.ConnId, c: Option<R.Conn>)
      requires Valid()
      modifies this, Rooms()
      ensures Valid() && fresh(Rooms() - old(Rooms()))
      ensures R.Inv(old(model)) && model == R.Add(old(model), roomID, loopIdx, connID, c)
    {
      hide R.BucketIndex, R.AddToRoom, R.RoomInv;
      if roomID <= 0 || connID == "" || c.None? {
        return;
      }
      if loopIdx < 0 || loopIdx >= loopCount {
        return;
      }
      var r := GetOrCreate(roomID);
      AddToRoom(roomID, r, loopIdx, connID, c.value);
    }

    /** Updating one room of the table leaves all others as they were. */
    method AddToRoom(roomID: int, r: Room, loopIdx: nat, connID: R.ConnId, c: R.Conn)
      requires Valid() && loopIdx < loopCount && |buckets| > 0
      requires var b := R.BucketIndex(roomID, |buckets|); roomID in buckets[b] && buckets[b][roomID] == r
      modifies this`model, r
      ensures Valid() && buckets == old(buckets)
      ensures |old(model).buckets| > 0 && R.Get(old(model), roomID).Some?
      ensures var room := R.Get(old(model), roomID).value;
        loopIdx < |room.shards| == |room.counts| <= 64 &&
        model == R.Put(old(model), roomID, R.AddToRoom(room, loopIdx, connID, c))
    {
      hide R.BucketIndex, R.AddToRoom, R.RoomInv;
      RoomAlone(roomID);
      R.GetInv(model, roomID);
      ghost var room := r.View();
      R.RoomShape(loopCount, room);
      R.AddToRoomInv(loopCount, room, loopIdx, connID, c);
      R.AddKeepsId(room, loopIdx, connID, c);
      R.PutKeepsInv(model, roomID, R.AddToRoom(room, loopIdx, connID, c));
      r.Add(loopIdx, connID, c);
      model := R.Put(model, roomID, R.AddToRoom(room, loopIdx, connID, c));
    }

    lemma RoomAlone(roomID: int)
      requires Valid()
      ensures |buckets| > 0
      ensures var b := R.BucketIndex(roomID, |buckets|);
        b < |buckets| &&
        (roomID in buckets[b] ==>
          forall a, id | 0 <= a < |buckets| && id in buckets[a] && buckets[a][id] == buckets[b][roomID] ::
            a == b && id == roomID)
    {
      hide R.BucketIndex, R.RoomInv;
      var b := R.BucketIndex(roomID, |buckets|);
      if roomID in buckets[b] {
        forall a, id | 0 <= a < |buckets| && id in buckets[a] && buckets[a][id] == buckets[b][roomID]
          ensures a == b && id == roomID
        {
          RoomsAreDistinct(a, id, b, roomID);
        }
      }
    }

    method RemoveConnInLoop(roomID: int, loopIdx: int, connID: R.ConnId, now: int)
      requires Valid()
      modifies this, Rooms()
      ensures Valid() && Rooms() == old(Rooms())
      ensures R.Inv(old(model)) && model == R.Remove(old(model), roomID, loopIdx, connID, now)
    {
      hide R.BucketIndex, R.RemoveFromRoom, R.RoomInv;
      if roomID <= 0 || connID == "" {
        return;
      }
      if loopIdx < 0 || loopIdx >= loopCount {
        return;
      }
      R.RemoveKeepsInv(model, roomID, loopIdx, connID, now);
      var r := Get(roomID);
      if r == null {
        return;
      }
      RoomAlone(roomID);
      R.GetInv(model, roomID);
      R.RoomShape(loopCount, r.View());
      r.Remove(loopIdx, connID, now);
      model := R.Remove(old(model), roomID, loopIdx, connID, now);
    }

    method HasLocalRoom(roomID: int) returns (has: bool)
      requires Valid()
      ensures |model.buckets| > 0 && has == R.HasLocalRoom(model, roomID)
    {
      var r := Get(roomID);
      has := r != null && r.localConnCount > 0;
    }

    method ConnCount(roomID: int) returns (n: int)
      requires Valid()
      ensures |model.buckets| > 0 && n == R.ConnCount(model, roomID)
    {
      var r := Get(roomID);
      n := if r == null then 0 else r.localConnCount;
    }

    /** Strictly ascending, and exactly the loops on which the room has a connection. */
    method ActiveLoopIndexes(roomID: int) returns (indexes: seq<nat>)
      requires Valid()
      ensures Ascending(indexes)
      ensures |model.buckets| > 0 &&
        forall i: nat :: i in indexes <==>
          && R.Get(model, roomID).Some?
          && i < |R.Get(model, roomID).value.shards| && R.Get(model, roomID).value.shards[i] != map[]
    {
      hide R.BucketIndex, Bit;
      var r := Get(roomID);
      if r == null {
        return [];
      }
      R.GetInv(model, roomID);
      indexes := SetBits(r.activeLoops);
    }

    /** cleanBucket, under the bucket's lock. */
    method CleanBucket(idx: nat, now: int, idleSeconds: int)
      requires Valid() && idx < |buckets|
      modifies this
      ensures Valid() && Rooms() <= old(Rooms())
      ensures idx < |old(model).buckets| && model == R.CleanBucket(old(model), idx, now, idleSeconds)
    {
      hide R.BucketIndex, R.RoomInv, R.Evictable, R.Get;
      var rooms := SweepRooms(buckets[idx], now, idleSeconds);
      R.CleanKeepsInv(model, idx, now, idleSeconds);
      ghost var cleaned := R.CleanBucket(model, idx, now, idleSeconds);
      forall id
        ensures id in rooms <==> id in cleaned.buckets[idx]
        ensures id in rooms ==> id in buckets[idx] && rooms[id].View() == cleaned.buckets[idx][id]
      {
        if id in buckets[idx] {
          assert buckets[idx][id].View() == model.buckets[idx][id];
        }
      }
      buckets := buckets[idx := rooms];
      model := cleaned;
    }
  }

  /** The loop of cleanBucket: the map is filtered while it is ranged over, in any order. */
  method SweepRooms(rooms: map<int, Room>, now: int, idleSeconds: int) returns (kept: map<int, Room>)
    ensures forall id :: id in kept <==> id in rooms && !R.Evictable(rooms[id].View(), now, idleSeconds)
    ensures forall id | id in kept :: kept[id] == rooms[id]
  {
    kept := rooms;
    var toVisit := rooms.Keys;
    while toVisit != {}
      invariant toVisit <= rooms.Keys && kept.Keys <= rooms.Keys
      invariant forall id | id in kept :: kept[id] == rooms[id]
      invariant forall id | id in rooms ::
        id in kept <==> id in toVisit || !R.Evictable(rooms[id].View(), now, idleSeconds)
      decreases |toVisit|
    {
      ghost var some := HasElement(toVisit);
      var roomID :| roomID in toVisit;
      toVisit := toVisit - {roomID};
      var r := rooms[roomID];
      if r.localConnCount == 0 {
        var emptyTime := r.lastEmptyTime;
        if emptyTime > 0 && now - emptyTime > idleSeconds {
          kept := kept - {roomID};
        }
      }
    }
  }
}
