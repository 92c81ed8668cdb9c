/** _deprecated/edge/broadcaster.go: messages wait in 64 sharded queues, are flushed in batches, and reach each
    session as one frame sequence without the session's own messages. */
module EdgeQueue {
  import opened Bytes
  import opened Collections
  import opened EdgeSessions
  import opened Messages
  import opened Rfc6455
  import ServerFrames
  import Broadcast

  const SHARD_COUNT := 64
  const MAX_PENDING_PER_ROOM := 1000

  type Queues = seq<map<int, seq<Danmaku>>>

  function ShardOf(room: int): (i: int)
    ensures -SHARD_COUNT < i < SHARD_COUNT && (room >= 0 ==> i >= 0)
  {
    Broadcast.GoRem(room, SHARD_COUNT)
  }

  // ----- the flat specification: one list per room -------------------------------------------------------

  /** The messages for a room among those sent since the last flush. */
  function For(sent: seq<Danmaku>, room: int): seq<Danmaku> {
    if sent == [] then []
    else
      var before, last := For(sent[..|sent| - 1], room), sent[|sent| - 1];
      if last.room == room then before + [last] else before
  }

  function Last(s: seq<Danmaku>, max: nat): seq<Danmaku> {
    if |s| <= max then s else s[|s| - max..]
  }

  /** The messages for a room, in the order in which they were sent. */
  lemma {:induction false} ForIsFilter(sent: seq<Danmaku>, room: int)
    ensures For(sent, room) == Filter(sent, (d: Danmaku) => d.room == room)
  {
    if sent == [] {
    } else {
      ForIsFilter(sent[..|sent| - 1], room);
    }
  }

  /** The newest `max` of a list, or all if there are fewer. */
  lemma LastIsNewest(s: seq<Danmaku>, max: nat)
    ensures |Last(s, max)| == (if |s| < max then |s| else max) && s[|s| - |Last(s, max)|..] == Last(s, max)
  {
  }

  /** How many messages the queues have lost: each that arrived at a full queue pushed one out. */
  function Lost(sent: seq<Danmaku>, max: nat): nat {
    if sent == [] then 0
    else
      var before, last := sent[..|sent| - 1], sent[|sent| - 1];
      Lost(before, max) + if |For(before, last.room)| >= max then 1 else 0
  }

  lemma {:induction false} ForAll(sent: seq<Danmaku>, room: int)
    requires forall i | 0 <= i < |sent| :: sent[i].room == room
    ensures For(sent, room) == sent
  {
    if sent == [] {
    } else {
      ForAll(sent[..|sent| - 1], room);
      assert sent == sent[..|sent| - 1] + [sent[|sent| - 1]];
    }
  }

  /** Within one room, Lost counts exactly the messages no flush will hand out. */
  lemma {:induction false} LostIsOverflow(sent: seq<Danmaku>, max: nat, room: int)
    requires forall i | 0 <= i < |sent| :: sent[i].room == room
    ensures Lost(sent, max) == |sent| - |Last(For(sent, room), max)|
  {
    hide For;
    ForAll(sent, room);
    if sent == [] {
    } else {
      var before := sent[..|sent| - 1];
      LostIsOverflow(before, max, room);
      ForAll(before, room);
    }
  }

  lemma ForAppend(sent: seq<Danmaku>, d: Danmaku, room: int)
    ensures For(sent + [d], room) == if d.room == room then For(sent, room) + [d] else For(sent, room)
  {
    assert (sent + [d])[..|sent + [d]| - 1] == sent;
  }

  lemma ExceptAppend(sent: seq<Danmaku>, d: Danmaku, room: int)
    ensures Except(sent + [d], room) == if d.room == room then Except(sent, room) else Except(sent, room) + [d]
  {
    assert (sent + [d])[..|sent + [d]| - 1] == sent;
  }

  lemma LostAppend(sent: seq<Danmaku>, d: Danmaku, max: nat)
    ensures Lost(sent + [d], max) == Lost(sent, max) + if |For(sent, d.room)| >= max then 1 else 0
  {
    assert (sent + [d])[..|sent + [d]| - 1] == sent;
  }

  /** Loss adds up over rooms: setting one room aside splits the count. */
  lemma {:induction false} LostSplits(sent: seq<Danmaku>, max: nat, room: int)
    ensures Lost(sent, max) == Lost(For(sent, room), max) + Lost(Except(sent, room), max)
  {
    if sent == [] {
    } else {
      hide For, Except, Lost;
      var before, last := sent[..|sent| - 1], sent[|sent| - 1];
      assert sent == before + [last];
      LostSplits(before, max, room);
      LostAppend(before, last, max);
      ForAppend(before, last, room);
      ExceptAppend(before, last, room);
      if last.room == room {
        ForIsFor(before, room);
        LostAppend(For(before, room), last, max);
      } else {
        ExceptKeepsFor(before, room, last.room);
        LostAppend(Except(before, room), last, max);
      }
    }
  }

  /** So the drop counter is, summed over the rooms, what was sent to a room and is not waiting for it. */
  lemma LossByRoom(sent: seq<Danmaku>, max: nat, room: int)
    ensures Lost(sent, max)
         == |For(sent, room)| - |Last(For(sent, room), max)| + Lost(Except(sent, room), max)
  {
    hide For, Lost;
    LostSplits(sent, max, room);
    ForMembers(sent, room);
    ForIsFor(sent, room);
    LostIsOverflow(For(sent, room), max, room);
  }

  lemma {:induction false} ForMembers(sent: seq<Danmaku>, room: int)
    ensures forall d :: d in For(sent, room) <==> d in sent && d.room == room
  {
    if sent == [] {
    } else {
      ForMembers(sent[..|sent| - 1], room);
      assert sent == sent[..|sent| - 1] + [sent[|sent| - 1]];
    }
  }

  function Except(sent: seq<Danmaku>, room: int): seq<Danmaku> {
    if sent == [] then []
    else
      var before, last := Except(sent[..|sent| - 1], room), sent[|sent| - 1];
      if last.room == room then before else before + [last]
  }

  lemma {:induction false} ForIsFor(sent: seq<Danmaku>, room: int)
    ensures For(For(sent, room), room) == For(sent, room)
  {
    if sent == [] {
    } else {
      var before := sent[..|sent| - 1];
      ForIsFor(before, room);
      if sent[|sent| - 1].room == room {
        assert For(sent, room)[..|For(sent, room)| - 1] == For(before, room);
      }
    }
  }

  lemma {:induction false} ExceptKeepsFor(sent: seq<Danmaku>, room: int, other: int)
    requires other != room
    ensures For(Except(sent, room), other) == For(sent, other)
  {
    if sent == [] {
    } else {
      var before := sent[..|sent| - 1];
      ExceptKeepsFor(before, room, other);
      if sent[|sent| - 1].room != room {
        assert Except(sent, room)[..|Except(sent, room)| - 1] == Except(before, room);
      }
    }
  }

  // ----- one shard's part of the messages --------------------------------------------------------------------

  /** The messages for rooms of shard i, or for all others. */
  function Part(sent: seq<Danmaku>, i: int, inside: bool): (r: seq<Danmaku>)
    ensures forall d | d in r :: d in sent
  {
    if sent == [] then []
    else
      var before, last := Part(sent[..|sent| - 1], i, inside), sent[|sent| - 1];
      if (ShardOf(last.room) == i) == inside then before + [last] else before
  }

  lemma PartAppend(sent: seq<Danmaku>, d: Danmaku, i: int, inside: bool)
    ensures Part(sent + [d], i, inside)
         == if (ShardOf(d.room) == i) == inside then Part(sent, i, inside) + [d] else Part(sent, i, inside)
  {
    assert (sent + [d])[..|sent + [d]| - 1] == sent;
  }

  lemma {:induction false} ForPart(sent: seq<Danmaku>, i: int, inside: bool, room: int)
    ensures For(Part(sent, i, inside), room) == if (ShardOf(room) == i) == inside then For(sent, room) else []
  {
    hide ShardOf, Part, For;
    if sent == [] {
      NoParts(i, inside, room);
    } else {
      var before, last := sent[..|sent| - 1], sent[|sent| - 1];
      assert sent == before + [last];
      ForPart(before, i, inside, room);
      PartAppend(before, last, i, inside);
      ForAppend(before, last, room);
      ForAppend(Part(before, i, inside), last, room);
    }
  }

  lemma NoParts(i: int, inside: bool, room: int)
    ensures Part([], i, inside) == [] && For([], room) == []
  {
  }

  /** Loss adds up over the shards as over the rooms. */
  lemma {:induction false} LostSplitsByShard(sent: seq<Danmaku>, max: nat, i: int)
    ensures Lost(sent, max) == Lost(Part(sent, i, true), max) + Lost(Part(sent, i, false), max)
  {
    if sent == [] {
    } else {
      hide For, Part, Lost, ShardOf;
      var before, last := sent[..|sent| - 1], sent[|sent| - 1];
      assert sent == before + [last];
      var inside := ShardOf(last.room) == i;
      LostSplitsByShard(before, max, i);
      LostAppend(before, last, max);
      PartAppend(before, last, i, true);
      PartAppend(before, last, i, false);
      LostAppend(Part(before, i, inside), last, max);
      ForPart(before, i, inside, last.room);
    }
  }

  lemma {:induction false} ForConcat(a: seq<Danmaku>, b: seq<Danmaku>, room: int)
    ensures For(a + b, room) == For(a, room) + For(b, room)
  {
    if b == [] {
      assert a + b == a;
    } else {
      hide For;
      var front, last := b[..|b| - 1], b[|b| - 1];
      assert a + b == a + front + [last] && b == front + [last];
      ForConcat(a, front, room);
      ForAppend(a + front, last, room);
      ForAppend(front, last, room);
    }
  }

  // ----- the sharded queues --------------------------------------------------------------------------------

  function Waiting(q: Queues, room: int): seq<Danmaku>
    requires |q| == SHARD_COUNT && ShardOf(room) >= 0
  {
    var shard := q[ShardOf(room)];
    if room in shard then shard[room] else []
  }

  /** Each room waits in its own shard only, and there waits what the flat list prescribes. */
  ghost predicate Refines(q: Queues, sent: seq<Danmaku>, max: nat) {
    && |q| == SHARD_COUNT
    && (forall i, room | 0 <= i < |q| && room in q[i] :: i == ShardOf(room) && q[i][room] != [])
    && (forall room | ShardOf(room) >= 0 :: Waiting(q, room) == Last(For(sent, room), max))
  }

  function Enqueue(q: Queues, d: Danmaku, max: nat): (q': Queues)
    requires |q| == SHARD_COUNT && ShardOf(d.room) >= 0
    ensures |q'| == SHARD_COUNT
  {
    var i := ShardOf(d.room);
    q[i := q[i][d.room := Last(Waiting(q, d.room) + [d], max)]]
  }

  /** The truncation in the code is the one Enqueue prescribes. */
  lemma EnqueueTruncates(q: Queues, d: Danmaku, max: nat, pending: seq<Danmaku>)
    requires |q| == SHARD_COUNT && ShardOf(d.room) >= 0 && pending == Waiting(q, d.room) + [d]
    ensures var kept := if |pending| > max then pending[|pending| - max..] else pending;
      && Enqueue(q, d, max) == q[ShardOf(d.room) := q[ShardOf(d.room)][d.room := kept]]
      && Waiting(Enqueue(q, d, max), d.room) == kept
  {
    hide ShardOf;
  }

  lemma LastIsEmptyOnlyOfEmpty(s: seq<Danmaku>, max: nat)
    requires max >= 1
    ensures Last(s, max) == [] <==> s == []
  {
  }

  lemma LastOfLast(s: seq<Danmaku>, d: Danmaku, max: nat)
    ensures Last(Last(s, max) + [d], max) == Last(s + [d], max)
    ensures |Last(s, max) + [d]| - |Last(s + [d], max)| == if |s| >= max then 1 else 0
  {
  }

  lemma EnqueueTouchesOneRoom(q: Queues, d: Danmaku, max: nat, room: int)
    requires |q| == SHARD_COUNT && ShardOf(d.room) >= 0 && ShardOf(room) >= 0
    ensures Waiting(Enqueue(q, d, max), room)
         == if room == d.room then Last(Waiting(q, room) + [d], max) else Waiting(q, room)
  {
    hide ShardOf, Last;
  }

  /** The sharded queues refine one queue per room, dropping the oldest beyond the limit. */
  lemma EnqueueRefines(q: Queues, sent: seq<Danmaku>, d: Danmaku, max: nat)
    requires Refines(q, sent, max) && ShardOf(d.room) >= 0 && max >= 1
    ensures Refines(Enqueue(q, d, max), sent + [d], max)
    ensures Lost(sent + [d], max)
         == Lost(sent, max) + |Waiting(q, d.room) + [d]| - |Waiting(Enqueue(q, d, max), d.room)|
  {
    hide For, Lost, ShardOf, Waiting, Last;
    var q' := Enqueue(q, d, max);
    LastIsEmptyOnlyOfEmpty(Waiting(q, d.room) + [d], max);
    forall i, room | 0 <= i < |q'| && room in q'[i]
      ensures i == ShardOf(room) && q'[i][room] != []
    {
      assert room in q[i] || (i == ShardOf(d.room) && room == d.room);
    }
    LostAppend(sent, d, max);
    forall room | ShardOf(room) >= 0
      ensures Waiting(q', room) == Last(For(sent + [d], room), max)
    {
      EnqueueTouchesOneRoom(q, d, max, room);
      ForAppend(sent, d, room);
      LastOfLast(For(sent, room), d, max);
    }
    EnqueueTouchesOneRoom(q, d, max, d.room);
    assert Waiting(q, d.room) == Last(For(sent, d.room), max);
    LastOfLast(For(sent, d.room), d, max);
  }

  /** Emptying one shard leaves the other shards' part. */
  lemma ShardEmptied(q: Queues, sent: seq<Danmaku>, max: nat, i: int)
    requires Refines(q, sent, max) && 0 <= i < SHARD_COUNT
    ensures Refines(q[i := map[]], Part(sent, i, false), max)
  {
    hide For, ShardOf, Part, Last;
    var q' := q[i := map[]];
    forall j, room | 0 <= j < |q'| && room in q'[j]
      ensures j == ShardOf(room) && q'[j][room] != []
    {
      assert room in q[j];
    }
    forall room | ShardOf(room) >= 0
      ensures Waiting(q', room) == Last(For(Part(sent, i, false), room), max)
    {
      ForPart(sent, i, false, room);
      assert Waiting(q, room) == Last(For(sent, room), max);
      LastOfNothing(max);
    }
  }

  lemma LastOfNothing(max: nat)
    ensures Last([], max) == []
  {
  }

  lemma WaitingRooms(q: Queues, sent: seq<Danmaku>, max: nat, room: int)
    requires Refines(q, sent, max) && ShardOf(room) >= 0 && max >= 1
    ensures room in q[ShardOf(room)] <==> For(sent, room) != []
    ensures room in q[ShardOf(room)] ==> q[ShardOf(room)][room] == Last(For(sent, room), max)
  {
    hide For, ShardOf;
    assert Waiting(q, room) == Last(For(sent, room), max);
  }

  // ----- what a session receives ------------------------------------------------------------------------------

  predicate Own(d: Danmaku, connId: string) {
    d.sender != "" && d.sender == connId
  }

  function Others(batch: seq<Danmaku>, connId: string): seq<Danmaku> {
    if batch == [] then []
    else (if Own(batch[0], connId) then [] else [batch[0]]) + Others(batch[1..], connId)
  }

  function FramesOf(batch: seq<Danmaku>): (fs: seq<Frame>) {
    seq(|batch|, i requires 0 <= i < |batch| => Frame(OP_BINARY, batch[i].payload))
  }

  ghost predicate Printable(batch: seq<Danmaku>) {
    forall d | d in batch :: ServerFrames.Printable(Frame(OP_BINARY, d.payload))
  }

  lemma FramesPrintable(batch: seq<Danmaku>)
    requires Printable(batch)
    ensures forall f | f in FramesOf(batch) :: ServerFrames.Printable(f)
  {
  }

  ghost function Octets(batch: seq<Danmaku>): seq<byte>
    requires Printable(batch)
  {
    FramesPrintable(batch);
    ServerFrames.PrintAll(FramesOf(batch))
  }

  lemma {:induction false} OthersMembers(batch: seq<Danmaku>, connId: string)
    ensures forall d :: d in Others(batch, connId) <==> d in batch && (d.sender == "" || d.sender != connId)
  {
    if batch == [] {
    } else {
      OthersMembers(batch[1..], connId);
      assert batch == [batch[0]] + batch[1..];
    }
  }

  lemma {:induction false} NothingOwn(batch: seq<Danmaku>, connId: string)
    requires forall i | 0 <= i < |batch| :: !Own(batch[i], connId)
    ensures Others(batch, connId) == batch
  {
    hide Own;
    if batch == [] {
    } else {
      NothingOwn(batch[1..], connId);
      assert batch == [batch[0]] + batch[1..];
    }
  }

  lemma OthersArePrintable(batch: seq<Danmaku>, connId: string)
    requires Printable(batch)
    ensures Printable(Others(batch, connId))
  {
    hide ServerFrames.Printable, Others;
    OthersMembers(batch, connId);
  }

  lemma {:induction false} OthersAppend(batch: seq<Danmaku>, d: Danmaku, connId: string)
    ensures Others(batch + [d], connId) == Others(batch, connId) + if Own(d, connId) then [] else [d]
  {
    hide Own;
    if batch == [] {
      assert batch + [d] == [d];
      assert [d][1..] == [];
    } else {
      assert (batch + [d])[1..] == batch[1..] + [d];
      OthersAppend(batch[1..], d, connId);
      Associative(if Own(batch[0], connId) then [] else [batch[0]], Others(batch[1..], connId),
                  if Own(d, connId) then [] else [d]);
    }
  }

  /** The binary frames that a session ought to get of a batch: those of the messages that its connection did not
      send, in order. */
  function Delivery(batch: seq<Danmaku>, connId: string): seq<Frame> {
    if batch == [] then []
    else
      var front, last := Delivery(batch[..|batch| - 1], connId), batch[|batch| - 1];
      if last.sender == "" || last.sender != connId then front + [Frame(0x2, last.payload)] else front
  }

  lemma {:induction false} OthersAreDelivered(batch: seq<Danmaku>, connId: string)
    ensures FramesOf(Others(batch, connId)) == Delivery(batch, connId)
  {
    if batch == [] {
    } else {
      var front, last := batch[..|batch| - 1], batch[|batch| - 1];
      assert batch == front + [last];
      OthersAreDelivered(front, connId);
      OthersAppend(front, last, connId);
    }
  }

  /** On the shared fast path and on the personal slow path alike, a session reads precisely the batch
      without its own messages, in order. */
  lemma SessionReadsBatch(batch: seq<Danmaku>, connId: string)
    requires Printable(batch)
    ensures Printable(Others(batch, connId))
    ensures ServerFrames.ReadAll(Octets(Others(batch, connId))) == Some(Delivery(batch, connId))
  {
    OthersArePrintable(batch, connId);
    OthersAreDelivered(batch, connId);
    FramesPrintable(Others(batch, connId));
    ServerFrames.StreamIsReadBack(FramesOf(Others(batch, connId)));
  }

  lemma OctetsAppend(batch: seq<Danmaku>, d: Danmaku)
    requires Printable(batch) && Printable([d])
    ensures Printable(batch + [d])
    ensures ServerFrames.Printable(Frame(OP_BINARY, d.payload))
    ensures Octets(batch + [d]) == Octets(batch) + ServerFrames.Print(Frame(OP_BINARY, d.payload))
  {
    hide ServerFrames.Printable, ServerFrames.Print;
    assert d in [d];
    FramesPrintable(batch);
    FramesPrintable(batch + [d]);
    var f := Frame(OP_BINARY, d.payload);
    assert FramesOf(batch + [d]) == FramesOf(batch) + [f];
    ServerFrames.PrintAllAppend(FramesOf(batch), [f]);
    assert [f][1..] == [];
    assert ServerFrames.PrintAll([f]) == ServerFrames.Print(f) + ServerFrames.PrintAll([]);
  }

  // ----- the imperative code -------------------------------------------------------------------------------------

  /** The octets written to one session. */
  datatype Write = Write(session: Session, octets: seq<byte>)

  /** Every listed session was written the batch without its own messages, in list order. */
  ghost predicate Reaches(writes: seq<Write>, sessions: seq<Session>, batch: seq<Danmaku>) {
    && |writes| == |sessions|
    && forall i | 0 <= i < |writes| ::
      && writes[i].session == sessions[i]
      && Printable(Others(batch, sessions[i].connId))
      && writes[i].octets == Octets(Others(batch, sessions[i].connId))
  }

  /** So each session reads the messages that its connection did not send. */
  lemma EachReadsTheOthers(writes: seq<Write>, sessions: seq<Session>, batch: seq<Danmaku>)
    requires Printable(batch) && Reaches(writes, sessions, batch)
    ensures |writes| == |sessions|
    ensures forall i | 0 <= i < |writes| ::
      && writes[i].session == sessions[i]
      && ServerFrames.ReadAll(writes[i].octets) == Some(Delivery(batch, sessions[i].connId))
  {
    hide Printable, Others, Octets, ServerFrames.ReadAll, Delivery;
    forall i | 0 <= i < |writes|
      ensures ServerFrames.ReadAll(writes[i].octets) == Some(Delivery(batch, sessions[i].connId))
    {
      SessionReadsBatch(batch, sessions[i].connId);
    }
  }

  lemma QueuesArePrintable(q: Queues, sent: seq<Danmaku>, max: nat)
    requires Refines(q, sent, max) && Printable(sent)
    ensures |q| == SHARD_COUNT
    ensures forall i, room | 0 <= i < |q| && room in q[i] :: i == ShardOf(room)
    ensures forall i, room | 0 <= i < |q| && room in q[i] :: |q[i][room]| > 0 && Printable(q[i][room])
  {
    hide For, ServerFrames.Printable;
    forall i, room | 0 <= i < |q| && room in q[i]
      ensures |q[i][room]| > 0 && Printable(q[i][room])
    {
      ForMembers(sent, room);
      assert Waiting(q, room) == Last(For(sent, room), max);
    }
  }

  lemma PartIsPrintable(sent: seq<Danmaku>, i: int)
    requires Printable(sent)
    ensures Printable(Part(sent, i, false))
  {
    hide Part, ServerFrames.Printable;
  }

  // ----- a flush during which messages arrive ------------------------------------------------------------------

  /** What is queued for a room when flushAll has locked i shards, if its own is not among them. */
  ghost function Before(sent: seq<Danmaku>, between: seq<seq<Danmaku>>, i: int, room: int): seq<Danmaku>
    requires 0 <= i <= |between|
  {
    For(sent + Flatten(between[..i]), room)
  }

  /** What is queued for a room when flushAll locks the room's shard. */
  ghost function Due(sent: seq<Danmaku>, between: seq<seq<Danmaku>>, room: int): seq<Danmaku>
    requires ShardOf(room) < |between|
  {
    if ShardOf(room) < 0 then [] else Before(sent, between, ShardOf(room) + 1, room)
  }

  /** What has arrived for a room since flushAll locked its shard, up to the locking of i shards. */
  ghost function After(between: seq<seq<Danmaku>>, i: int, room: int): seq<Danmaku>
    requires i <= |between|
  {
    if 0 <= ShardOf(room) < i then For(Flatten(between[ShardOf(room) + 1..i]), room) else []
  }

  lemma Start(sent: seq<Danmaku>, between: seq<seq<Danmaku>>)
    ensures forall room :: Before(sent, between, 0, room) == For(sent, room)
  {
    assert between[..0] == [] && sent + [] == sent;
  }

  lemma FlattenSnoc(between: seq<seq<Danmaku>>, lo: int, i: int)
    requires 0 <= lo <= i < |between|
    ensures Flatten(between[lo..i + 1]) == Flatten(between[lo..i]) + between[i]
  {
    assert between[lo..i + 1] == between[lo..i] + [between[i]];
    FlattenAppend(between[lo..i], [between[i]]);
    assert [between[i]][1..] == [];
  }

  lemma OneMoreShard(sent: seq<Danmaku>, between: seq<seq<Danmaku>>, i: nat, room: int, now: seq<Danmaku>)
    requires |between| == SHARD_COUNT && i < SHARD_COUNT && ShardOf(room) >= 0
    requires For(now, room) == if ShardOf(room) < i then After(between, i, room) else Before(sent, between, i, room)
    ensures ShardOf(room) == i ==> For(now + between[i], room) == Due(sent, between, room)
    ensures ShardOf(room) != i ==>
      For(now + between[i], room) ==
        if ShardOf(room) < i + 1 then After(between, i + 1, room) else Before(sent, between, i + 1, room)
    ensures ShardOf(room) == i ==> After(between, i + 1, room) == []
  {
    hide For, ShardOf, Flatten;
    ForConcat(now, between[i], room);
    var k := ShardOf(room);
    if k < i {
      FlattenSnoc(between, k + 1, i);
      ForConcat(Flatten(between[k + 1..i]), between[i], room);
    } else {
      FlattenSnoc(between, 0, i);
      assert between[0..i] == between[..i] && between[0..i + 1] == between[..i + 1];
      assert sent + Flatten(between[..i + 1]) == sent + Flatten(between[..i]) + between[i];
      ForConcat(sent + Flatten(between[..i]), between[i], room);
      assert between[i + 1..i + 1] == [];
      NothingFlattened(room);
    }
  }

  lemma NothingFlattened(room: int)
    ensures Flatten<Danmaku>([]) == [] && For([], room) == []
  {
  }

  /** When nothing arrives during the flush, every room is due what had been queued, and nothing is left. */
  lemma QuietFlush(sent: seq<Danmaku>, between: seq<seq<Danmaku>>, room: int)
    requires |between| == SHARD_COUNT && ShardOf(room) >= 0 && forall i | 0 <= i < |between| :: between[i] == []
    ensures Due(sent, between, room) == For(sent, room) && After(between, SHARD_COUNT, room) == []
  {
    var k := ShardOf(room);
    NothingArrives(between[..k + 1]);
    NothingArrives(between[k + 1..SHARD_COUNT]);
    assert sent + [] == sent;
  }

  lemma {:induction false} NothingArrives(between: seq<seq<Danmaku>>)
    requires forall i | 0 <= i < |between| :: between[i] == []
    ensures Flatten(between) == []
  {
    if between == [] {
    } else {
      NothingArrives(between[1..]);
    }
  }

  class EdgeBroadcaster {
    const sessionManager: SessionManager
    const batchInterval: int
    const maxPendingPerRoom: nat
    var shards: Queues
    var slowConnSkipCount: int
    /** The messages queued for each room since the last flush of its shard, and the loss before that. */
    ghost var sent: seq<Danmaku>
    ghost var skippedBefore: int

    ghost predicate Valid()
      reads this, sessionManager
    {
      && maxPendingPerRoom >= 1
      && sessionManager.Valid()
      && Printable(sent)
      && |shards| == SHARD_COUNT
      && Refines(shards, sent, maxPendingPerRoom)
      && slowConnSkipCount == skippedBefore + Lost(sent, maxPendingPerRoom)
    }

    constructor (sessionManager: SessionManager, batchInterval: int, maxPendingPerRoom: int)
      requires sessionManager.Valid()
      ensures Valid() && this.sessionManager == sessionManager && sent == [] && slowConnSkipCount == 0
      ensures this.batchInterval == batchInterval
      ensures this.maxPendingPerRoom == if maxPendingPerRoom <= 0 then 1000 else maxPendingPerRoom
    {
      this.sessionManager, this.batchInterval := sessionManager, batchInterval;
      this.maxPendingPerRoom := if maxPendingPerRoom <= 0 then MAX_PENDING_PER_ROOM else maxPendingPerRoom;
      shards := seq(SHARD_COUNT, _ => map[]);
      slowConnSkipCount, sent, skippedBefore := 0, [], 0;
    }

    /** BroadcastLocal. Without a batch interval it calls broadcastNow, which goes through the room's sessions and
        writes nothing yet. A room ID with a negative remainder has no shard. */
    method BroadcastLocal(danmaku: Option<Danmaku>)
      requires Valid()
      requires danmaku.Some? && batchInterval > 0 ==> ShardOf(danmaku.value.room) >= 0 && Printable([danmaku.value])
      modifies this
      ensures Valid() && skippedBefore == old(skippedBefore)
      ensures sent == if danmaku.Some? && batchInterval > 0 then old(sent) + [danmaku.value] else old(sent)
    {
      hide For, Lost, Refines, Enqueue, ShardOf, ServerFrames.Printable;
      if danmaku.None? || batchInterval <= 0 {
        return;
      }
      var d := danmaku.value;
      EnqueueRefines(shards, sent, d, maxPendingPerRoom);
      var shardIdx := ShardOf(d.room);
      var pending := (if d.room in shards[shardIdx] then shards[shardIdx][d.room] else []) + [d];
      EnqueueTruncates(shards, d, maxPendingPerRoom, pending);
      if |pending| > maxPendingPerRoom {
        var dropped := |pending| - maxPendingPerRoom;
        pending := pending[dropped..];
        slowConnSkipCount := slowConnSkipCount + dropped;
      }
      shards := shards[shardIdx := shards[shardIdx][d.room := pending]];
      sent := sent + [d];
    }

    /** Messages that arrive while no shard is locked. */
    method QueueAll(arriving: seq<Danmaku>)
      requires Valid() && batchInterval > 0 && Printable(arriving)
      requires forall d | d in arriving :: ShardOf(d.room) >= 0
      modifies this
      ensures Valid() && sent == old(sent) + arriving && skippedBefore == old(skippedBefore)
    {
      hide Valid, ServerFrames.Printable;
      for i := 0 to |arriving|
        invariant Valid() && sent == old(sent) + arriving[..i] && skippedBefore == old(skippedBefore)
      {
        assert arriving[i] in arriving;
        BroadcastLocal(Some(arriving[i]));
        assert arriving[..i + 1] == arriving[..i] + [arriving[i]];
      }
      assert arriving[..|arriving|] == arriving;
    }

    /** The body of flushAll's loop: shard i is emptied, and each of its rooms gets the last messages queued. */
    method FlushShard(i: nat) returns (out: map<int, seq<Write>>)
      requires Valid() && i < SHARD_COUNT
      modifies this
      ensures Valid() && sent == Part(old(sent), i, false)
      ensures slowConnSkipCount == old(slowConnSkipCount)
      ensures skippedBefore == old(skippedBefore) + Lost(Part(old(sent), i, true), maxPendingPerRoom)
      ensures forall room :: room in out <==> ShardOf(room) == i && For(old(sent), room) != []
      ensures forall room | room in out ::
        Reaches(out[room], Listed(sessionManager.roomSessions, room),
                Last(For(old(sent), room), maxPendingPerRoom))
    {
      hide For, Lost, Last, Waiting, ShardOf, Refines, Reaches, Printable, Part;
      QueuesArePrintable(shards, sent, maxPendingPerRoom);
      ShardEmptied(shards, sent, maxPendingPerRoom, i);
      LostSplitsByShard(sent, maxPendingPerRoom, i);
      PartIsPrintable(sent, i);
      var flushMap := shards[i];
      forall room
        ensures room in flushMap <==> ShardOf(room) == i && For(sent, room) != []
        ensures room in flushMap ==> |flushMap[room]| > 0 && Printable(flushMap[room])
        ensures room in flushMap ==> flushMap[room] == Last(For(sent, room), maxPendingPerRoom)
      {
        if ShardOf(room) == i {
          WaitingRooms(shards, sent, maxPendingPerRoom, room);
        }
        assert room in flushMap ==> room in shards[i] && shards[i][room] == flushMap[room];
      }
      shards := shards[i := map[]];
      skippedBefore := skippedBefore + Lost(Part(sent, i, true), maxPendingPerRoom);
      sent := Part(sent, i, false);
      out := BroadcastShard(flushMap);
    }

    /** flushAll: it locks one shard at a time, and `between[i]` is what is queued just before it locks shard i. */
    method FlushAll(between: seq<seq<Danmaku>>) returns (out: map<int, seq<Write>>)
      requires Valid() && batchInterval > 0 && |between| == SHARD_COUNT
      requires forall b | b in between :: Printable(b) && forall d | d in b :: ShardOf(d.room) >= 0
      modifies this
      ensures Valid()
      ensures forall room :: room in out <==> ShardOf(room) >= 0 && Due(old(sent), between, room) != []
      ensures forall room | room in out ::
        Reaches(out[room], Listed(sessionManager.roomSessions, room),
                Last(Due(old(sent), between, room), maxPendingPerRoom))
      ensures forall room | ShardOf(room) >= 0 :: For(sent, room) == After(between, SHARD_COUNT, room)
    {
      hide Valid, For, Lost, Last, Reaches, Part, Due, After, Before, ShardOf, Printable, Listed, Flatten;
      out := map[];
      Start(sent, between);
      for i := 0 to SHARD_COUNT
        invariant Valid()
        invariant forall room | ShardOf(room) >= 0 ::
          For(sent, room) == if ShardOf(room) < i then After(between, i, room) else Before(old(sent), between, i, room)
        invariant forall room :: room in out <==> 0 <= ShardOf(room) < i && Due(old(sent), between, room) != []
        invariant forall room | room in out ::
          Reaches(out[room], Listed(sessionManager.roomSessions, room),
                  Last(Due(old(sent), between, room), maxPendingPerRoom))
      {
        ghost var before := sent;
        assert between[i] in between;
        QueueAll(between[i]);
        ghost var queued := sent;
        var written := FlushShard(i);
        forall room | ShardOf(room) >= 0
          ensures ShardOf(room) == i ==> For(queued, room) == Due(old(sent), between, room)
          ensures For(sent, room) ==
            if ShardOf(room) < i + 1 then After(between, i + 1, room) else Before(old(sent), between, i + 1, room)
        {
          OneMoreShard(old(sent), between, i, room, before);
          ForPart(queued, i, false, room);
        }
        out := out + written;
      }
    }

    /** The inner loop of flushAll, over the rooms of one shard in any order. */
    method BroadcastShard(flushMap: map<int, seq<Danmaku>>) returns (out: map<int, seq<Write>>)
      requires sessionManager.Valid()
      requires forall room | room in flushMap :: |flushMap[room]| > 0 && Printable(flushMap[room])
      ensures out.Keys == flushMap.Keys
      ensures forall room | room in out ::
        Reaches(out[room], Listed(sessionManager.roomSessions, room), flushMap[room])
    {
      hide Printable, Reaches;
      out := map[];
      var rooms := flushMap.Keys;
      while rooms != {}
        invariant rooms <= flushMap.Keys && out.Keys == flushMap.Keys - rooms
        invariant forall room | room in out ::
          Reaches(out[room], Listed(sessionManager.roomSessions, room), flushMap[room])
      {
        ghost var some := HasElement(rooms);
        var roomId :| roomId in rooms;
        var writes := BroadcastBatch(roomId, flushMap[roomId]);
        out := out[roomId := writes];
        rooms := rooms - {roomId};
      }
    }

    /** broadcastBatch: one write for each session of the room. */
    method BroadcastBatch(roomId: int, danmakus: seq<Danmaku>) returns (writes: seq<Write>)
      requires sessionManager.Valid() && Printable(danmakus)
      ensures danmakus != [] ==> Reaches(writes, Listed(sessionManager.roomSessions, roomId), danmakus)
      ensures danmakus == [] ==> writes == []
    {
      hide Octets;
      writes := [];
      if |danmakus| == 0 {
        return;
      }
      var sessions := sessionManager.GetRoomSessions(roomId);
      if |sessions| == 0 {
        return;
      }
      var megaFrame := Concatenate(danmakus, None);
      for i := 0 to |sessions|
        invariant Reaches(writes, sessions[..i], danmakus)
      {
        var octets := SendToSession(sessions[i].connId, danmakus, megaFrame);
        writes := writes + [Write(sessions[i], octets)];
      }
      assert sessions[..|sessions|] == sessions;
    }

    /** sendToSession: the frame the commented-out AsyncWrite would send; empty when there is none. */
    method SendToSession(connId: string, danmakus: seq<Danmaku>, megaFrame: seq<byte>) returns (written: seq<byte>)
      requires Printable(danmakus) && megaFrame == Octets(danmakus)
      ensures Printable(Others(danmakus, connId)) && written == Octets(Others(danmakus, connId))
    {
      hide Octets, Own, Printable;
      OthersArePrintable(danmakus, connId);
      var hasEcho := false;
      for i := 0 to |danmakus|
        invariant hasEcho <==> exists j | 0 <= j < i :: Own(danmakus[j], connId)
      {
        if Own(danmakus[i], connId) {
          hasEcho := true;
          break;
        }
      }
      if !hasEcho {
        NothingOwn(danmakus, connId);
        return megaFrame;
      }
      written := Concatenate(danmakus, Some(connId));
    }

    /** The two loops that concatenate frames: of all messages, or of those not sent by one connection. */
    method Concatenate(danmakus: seq<Danmaku>, except: Option<string>) returns (octets: seq<byte>)
      requires Printable(danmakus)
      ensures except.None? ==> octets == Octets(danmakus)
      ensures except.Some? ==>
        Printable(Others(danmakus, except.value)) && octets == Octets(Others(danmakus, except.value))
    {
      hide Octets, Own, ServerFrames.Printable, ServerFrames.Print;
      octets := [];
      ghost var done: seq<Danmaku> := [];
      NoOctets();
      for i := 0 to |danmakus|
        invariant done == if except.None? then danmakus[..i] else Others(danmakus[..i], except.value)
        invariant Printable(done) && octets == Octets(done)
      {
        var d := danmakus[i];
        assert danmakus[..i + 1] == danmakus[..i] + [d];
        if except.Some? {
          OthersAppend(danmakus[..i], d, except.value);
        }
        if except.None? || !Own(d, except.value) {
          assert d in danmakus;
          OctetsAppend(done, d);
          var frame := ServerFrames.BuildBinaryFrame(d.payload);
          octets := octets + frame;
          done := done + [d];
        }
      }
      assert danmakus[..|danmakus|] == danmakus;
    }
  }

  lemma NoOctets()
    ensures Printable([]) && Octets([]) == []
  {
  }
}
