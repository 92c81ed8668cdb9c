/** internal/broadcast/broadcaster.go: delivering one message to every connection of a room, with the tiers
    for slow connections and echo suppression. */
module Broadcast {
  import opened Bytes
  import opened Collections
  import Bitmaps
  import opened Rfc6455
  import R = Rooms
  import F = RoomsFlat
  import ServerFrames

  const FORCE_CLOSE := 4 * 1024 * 1024
  const PREMIUM_SKIP := 1536 * 1024
  const SKIP := 512 * 1024
  const SAMPLE := 256 * 1024

  /** What a connection looks like to the broadcaster: its context, if any, the octets waiting to be sent,
      the frames handed to AsyncWrite, and whether Close was called. */
  datatype ConnView = ConnView(
    connId: Option<R.ConnId>, premium: bool, outbound: int, inbox: seq<seq<byte>>, closed: bool)

  /** An empty sender suppresses nothing. */
  datatype Message = Message(room: int, sender: R.ConnId, timestamp: int, payload: seq<byte>)

  datatype Outcome = Ignored | ForceClosed | Skipped | Suppressed | Written

  /** Go's %, which takes the sign of the dividend. */
  function GoRem(a: int, b: nat): int
    requires b > 0
  {
    if a >= 0 then a % b else -((-a) % b)
  }

  /** The branches of sendToConn, in order. */
  function Decide(v: ConnView, msg: Message): Outcome {
    if v.connId.None? then Ignored
    else if v.outbound > FORCE_CLOSE then ForceClosed
    else if v.premium && v.outbound > PREMIUM_SKIP then Skipped
    else if v.outbound > SKIP then Skipped
    else if v.outbound > SAMPLE && GoRem(msg.timestamp, 2) == 1 then Skipped
    else if msg.sender != "" && v.connId.value == msg.sender then Suppressed
    else Written
  }

  function Sent(v: ConnView, msg: Message, frame: seq<byte>): ConnView {
    match Decide(v, msg)
    case ForceClosed => v.(closed := true)
    case Written => v.(inbox := v.inbox + [frame])
    case _ => v
  }

  function SentIf(hit: bool, v: ConnView, msg: Message, frame: seq<byte>): ConnView {
    if hit then Sent(v, msg, frame) else v
  }

  /** The decision, tier by tier; the premium flag has no part in it, because the limit for everybody is
      below the one for premium users. */
  lemma DecisionTiers(v: ConnView, msg: Message)
    ensures Decide(v, msg) == Ignored <==> v.connId.None?
    ensures v.connId.Some? ==>
      && Decide(v, msg) == Decide(v.(premium := !v.premium), msg)
      && (Decide(v, msg) == ForceClosed <==> v.outbound > 4194304)
      && (Decide(v, msg) == Skipped <==>
           524288 < v.outbound <= 4194304
           || (262144 < v.outbound <= 524288 && msg.timestamp > 0 && msg.timestamp % 2 == 1))
      && (Decide(v, msg) in {Suppressed, Written} <==>
           v.outbound <= 524288 && (v.outbound > 262144 && msg.timestamp > 0 ==> msg.timestamp % 2 == 0))
      && (Decide(v, msg) == Suppressed <==>
           Decide(v, msg) in {Suppressed, Written} && msg.sender != "" && v.connId.value == msg.sender)
  {
  }

  /** The connection gets the message: it has a context and at most 512KB waiting, is not among those sampled out
      between 256KB and 512KB, and is not the sender. */
  predicate Hears(v: ConnView, msg: Message) {
    && v.connId.Some? && v.outbound <= 524288
    && !(v.outbound > 262144 && msg.timestamp > 0 && msg.timestamp % 2 == 1)
    && (msg.sender == "" || v.connId.value != msg.sender)
  }

  /** The connection is given up: it has a context and more than 4MB waiting. */
  predicate GivenUp(v: ConnView) {
    v.connId.Some? && v.outbound > 4194304
  }

  /** What a broadcast does to a connection: the frame goes to its inbox if and only if it gets the message, it is
      closed if and only if it is given up, and nothing else of it changes. */
  ghost predicate Treated(before: ConnView, after: ConnView, msg: Message, frame: seq<byte>) {
    && after.connId == before.connId && after.premium == before.premium && after.outbound == before.outbound
    && after.inbox == (if Hears(before, msg) then before.inbox + [frame] else before.inbox)
    && after.closed == (before.closed || GivenUp(before))
  }

  lemma SentIsTreated(v: ConnView, msg: Message, frame: seq<byte>)
    ensures Treated(v, Sent(v, msg, frame), msg, frame)
    ensures v.connId.Some? && msg.sender != "" && v.connId.value == msg.sender ==>
      Sent(v, msg, frame).inbox == v.inbox
  {
    hide Decide;
    DecisionTiers(v, msg);
  }

  // ----- the connections of a room ---------------------------------------------------------------------

  ghost function OnLoop(r: R.Room, loop: nat): set<R.Conn> {
    if loop < |r.shards| then r.shards[loop].Values else {}
  }

  ghost function Below(r: R.Room, loops: nat): set<R.Conn> {
    set loop: nat, c | loop < loops && c in OnLoop(r, loop) :: c
  }

  ghost function Reached(r: R.Room): set<R.Conn> {
    Below(r, |r.shards|)
  }

  /** A connection sits in one shard, under one key: its own ID on its own loop. */
  ghost predicate OneShardEach(r: R.Room) {
    && (forall i, j, c | 0 <= i < j < |r.shards| && c in OnLoop(r, i) :: c !in OnLoop(r, j))
    && (forall i, a, b | 0 <= i < |r.shards| && a in r.shards[i] && b in r.shards[i] && a != b ::
          r.shards[i][a] != r.shards[i][b])
  }

  // ----- why every connection is in one shard -----------------------------------------------------------------------

  /** Where each connection is at home: the stable index of its event loop, and its own handle. */
  datatype Home = Home(loopOf: R.ConnId -> int, handleOf: R.ConnId -> R.Conn)

  ghost predicate AtHome(home: Home, r: R.Room) {
    forall i, conn | 0 <= i < |r.shards| && conn in r.shards[i] ::
      i == home.loopOf(conn) && r.shards[i][conn] == home.handleOf(conn)
  }

  ghost predicate AllAtHome(home: Home, m: R.Manager) {
    |m.buckets| > 0 && forall id :: R.Get(m, id).Some? ==> AtHome(home, R.Get(m, id).value)
  }

  /** A join names the connection's own loop index and handle, as handleJoinRoom does. */
  predicate JoinsAtHome(home: Home, op: F.Op) {
    op.Add? && op.c.Some? ==> op.loop == home.loopOf(op.conn) && op.c.value == home.handleOf(op.conn)
  }

  lemma AddStaysAtHome(home: Home, r: R.Room, loop: nat, conn: R.ConnId)
    requires loop < |r.shards| == |r.counts| <= 64 && AtHome(home, r) && loop == home.loopOf(conn)
    ensures AtHome(home, R.AddToRoom(r, loop, conn, home.handleOf(conn)))
  {
    hide Bitmaps.SetBit;
  }

  lemma RemoveStaysAtHome(home: Home, r: R.Room, loop: nat, conn: R.ConnId, now: int)
    requires loop < |r.shards| == |r.counts| <= 64 && AtHome(home, r)
    ensures AtHome(home, R.RemoveFromRoom(r, loop, conn, now))
  {
    hide Bitmaps.ClearBit;
  }

  lemma StepStaysAtHome(home: Home, m: R.Manager, op: F.Op)
    requires R.Inv(m) && AllAtHome(home, m) && JoinsAtHome(home, op)
    ensures R.Inv(F.Step(m, op)) && AllAtHome(home, F.Step(m, op))
  {
    hide R.Inv, R.Get, R.AddToRoom, R.RemoveFromRoom, R.BucketIndex, R.RoomInv, AtHome;
    F.StepKeepsInv(m, op);
    var t := F.Step(m, op);
    F.LoopsPositive(t);
    FreshIsAtHome(home, m.loopCount);
    match op
    case Create(room) => R.CreateKeepsInv(m, room);
    case Add(room, loop, conn, c) =>
      R.AddKeepsInv(m, room, loop, conn, c);
      if R.ValidKey(m.loopCount, room, loop, conn) && c.Some? {
        R.CreateKeepsInv(m, room);
        R.RoomShape(m.loopCount, R.Get(R.GetOrCreate(m, room), room).value);
        AddStaysAtHome(home, R.Get(R.GetOrCreate(m, room), room).value, loop, conn);
      }
    case Remove(room, loop, conn, now) =>
      R.RemoveKeepsInv(m, room, loop, conn, now);
      if R.ValidKey(m.loopCount, room, loop, conn) && R.Get(m, room).Some? {
        R.GetInv(m, room);
        R.RoomShape(m.loopCount, R.Get(m, room).value);
        RemoveStaysAtHome(home, R.Get(m, room).value, loop, conn, now);
      }
    case Clean(b, now, idle) =>
      if b < |m.buckets| {
        R.CleanKeepsInv(m, b, now, idle);
      }
  }

  lemma FreshIsAtHome(home: Home, loopCount: nat)
    ensures forall id :: AtHome(home, R.FreshRoom(id, loopCount))
  {
  }

  lemma {:induction false} RunStaysAtHome(home: Home, m: R.Manager, ops: seq<F.Op>)
    requires R.Inv(m) && AllAtHome(home, m) && forall k | 0 <= k < |ops| :: JoinsAtHome(home, ops[k])
    ensures AllAtHome(home, F.Run(m, ops))
    decreases |ops|
  {
    hide R.Inv, AllAtHome, F.Step;
    if ops == [] {
    } else {
      StepStaysAtHome(home, m, ops[0]);
      RunStaysAtHome(home, F.Step(m, ops[0]), ops[1..]);
    }
  }

  lemma HomesAreSeparate(home: Home, r: R.Room)
    requires AtHome(home, r) && forall a, b | a != b :: home.handleOf(a) != home.handleOf(b)
    ensures OneShardEach(r)
  {
    forall i, j, c | 0 <= i < j < |r.shards| && c in OnLoop(r, i)
      ensures c !in OnLoop(r, j)
    {
      var a :| a in r.shards[i] && r.shards[i][a] == c;
      assert home.loopOf(a) == i && home.handleOf(a) == c;
      forall b | b in r.shards[j]
        ensures r.shards[j][b] != c
      {
        assert home.loopOf(b) == j && r.shards[j][b] == home.handleOf(b);
      }
    }
    forall i, a, b | 0 <= i < |r.shards| && a in r.shards[i] && b in r.shards[i] && a != b
      ensures r.shards[i][a] != r.shards[i][b]
    {
      assert r.shards[i][a] == home.handleOf(a) && r.shards[i][b] == home.handleOf(b);
    }
  }

  /** Over every run of joins, leaves, creations and cleanings in which each connection joins under its own stable
      loop index and its own handle, every room has each connection in one shard under one key. */
  lemma JoinsKeepOneShardEach(home: Home, loopCount: int, ops: seq<F.Op>, room: int)
    requires R.New(loopCount).Some? && forall a, b | a != b :: home.handleOf(a) != home.handleOf(b)
    requires forall k | 0 <= k < |ops| :: JoinsAtHome(home, ops[k])
    ensures R.Inv(R.New(loopCount).value)
    ensures var m := F.Run(R.New(loopCount).value, ops);
      |m.buckets| > 0 && (R.Get(m, room).Some? ==> OneShardEach(R.Get(m, room).value))
  {
    hide R.Inv, R.Get, OneShardEach, AtHome;
    R.NewInv(loopCount);
    RunStaysAtHome(home, R.New(loopCount).value, ops);
    var m := F.Run(R.New(loopCount).value, ops);
    if R.Get(m, room).Some? {
      HomesAreSeparate(home, R.Get(m, room).value);
    }
  }

  lemma {:induction false} InjectiveValues(m: map<R.ConnId, R.Conn>)
    requires forall a, b | a in m && b in m && a != b :: m[a] != m[b]
    ensures |m.Values| == |m|
    decreases |m|
  {
    if m == map[] {
    } else {
      var a :| a in m;
      var rest := m - {a};
      R.SizeAfterRemoval(m, a);
      InjectiveValues(rest);
      forall c | c in m.Values
        ensures c in rest.Values + {m[a]}
      {
        var k :| k in m && m[k] == c;
        assert k != a ==> k in rest && rest[k] == c;
      }
      forall c | c in rest.Values
        ensures c in m.Values && c != m[a]
      {
        var k :| k in rest && rest[k] == c;
        assert k in m && m[k] == c;
      }
      assert m.Values == rest.Values + {m[a]};
    }
  }

  lemma BelowNext(r: R.Room, loop: nat)
    requires loop < |r.shards| && OneShardEach(r)
    ensures Below(r, loop + 1) == Below(r, loop) + OnLoop(r, loop)
    ensures Below(r, loop) !! OnLoop(r, loop)
  {
    forall c | c in Below(r, loop + 1)
      ensures c in Below(r, loop) + OnLoop(r, loop)
    {
      var i: nat :| i < loop + 1 && c in OnLoop(r, i);
    }
  }

  lemma NoneBelow(r: R.Room)
    ensures Below(r, 0) == {}
  {
  }

  lemma {:induction false} ReachedCount(r: R.Room, loops: nat)
    requires loops <= |r.shards| == |r.counts| && R.CountsExact(r) && OneShardEach(r)
    ensures |Below(r, loops)| == R.Sum(r.counts[..loops])
  {
    hide Below;
    if loops == 0 {
      NoneBelow(r);
    } else {
      ReachedCount(r, loops - 1);
      InjectiveValues(r.shards[loops - 1]);
      BelowNext(r, loops - 1);
      assert r.counts[..loops][..loops - 1] == r.counts[..loops - 1];
    }
  }

  ghost function WithOutcome(conns: set<R.Conn>, views: map<R.Conn, ConnView>, msg: Message, o: Outcome): set<R.Conn>
    requires conns <= views.Keys
  {
    set c | c in conns && Decide(views[c], msg) == o
  }

  /** One broadcast treats every connection of the room in exactly one way, and the sizes of the classes
      add up to the room's connection count. */
  lemma BroadcastPartitions(loopCount: nat, r: R.Room, views: map<R.Conn, ConnView>, msg: Message)
    requires R.RoomInv(loopCount, r) && OneShardEach(r) && Reached(r) <= views.Keys
    ensures var all := Reached(r);
      |WithOutcome(all, views, msg, Written)| + |WithOutcome(all, views, msg, Skipped)|
      + |WithOutcome(all, views, msg, ForceClosed)| + |WithOutcome(all, views, msg, Suppressed)|
      + |WithOutcome(all, views, msg, Ignored)| == r.local
    ensures forall c, o | c in Reached(r) ::
      c in WithOutcome(Reached(r), views, msg, o) <==> o == Decide(views[c], msg)
  {
    hide Decide, R.BitmapExact;
    ReachedCount(r, |r.shards|);
    assert r.counts[..|r.shards|] == r.counts;
    PartitionSize(Reached(r), views, msg);
  }

  lemma PartitionSize(all: set<R.Conn>, views: map<R.Conn, ConnView>, msg: Message)
    requires all <= views.Keys
    ensures |WithOutcome(all, views, msg, Written)| + |WithOutcome(all, views, msg, Skipped)|
      + |WithOutcome(all, views, msg, ForceClosed)| + |WithOutcome(all, views, msg, Suppressed)|
      + |WithOutcome(all, views, msg, Ignored)| == |all|
  {
    hide Decide;
    var notWritten := Others(all, views, msg, Written);
    var rest := Others(notWritten, views, msg, Skipped);
    var rest' := Others(rest, views, msg, ForceClosed);
    var rest'' := Others(rest', views, msg, Suppressed);
    assert WithOutcome(all, views, msg, Skipped) == WithOutcome(notWritten, views, msg, Skipped);
    assert WithOutcome(all, views, msg, ForceClosed) == WithOutcome(rest, views, msg, ForceClosed);
    assert WithOutcome(all, views, msg, Suppressed) == WithOutcome(rest', views, msg, Suppressed);
    assert WithOutcome(all, views, msg, Ignored) == rest'';
  }

  lemma Others(all: set<R.Conn>, views: map<R.Conn, ConnView>, msg: Message, o: Outcome) returns (rest: set<R.Conn>)
    requires all <= views.Keys
    ensures rest == set c | c in all && Decide(views[c], msg) != o
    ensures |all| == |WithOutcome(all, views, msg, o)| + |rest|
  {
    hide Decide;
    rest := set c | c in all && Decide(views[c], msg) != o;
    assert all == WithOutcome(all, views, msg, o) + rest;
  }

  /** Visiting only the loops whose bit is set reaches the same connections. */
  lemma ActiveLoopsSuffice(loopCount: nat, r: R.Room)
    requires R.RoomInv(loopCount, r)
    ensures Reached(r) == set loop: nat, c | loop < 64 && Bitmaps.Bit(r.active, loop) && c in OnLoop(r, loop) :: c
  {
    hide Bitmaps.Bit;
    forall loop: nat, c | c in OnLoop(r, loop)
      ensures loop < 64 && Bitmaps.Bit(r.active, loop)
    {
    }
  }

  // ----- the imperative code ------------------------------------------------------------------------------

  class Connection {
    const connId: Option<R.ConnId>
    const premium: bool
    var outbound: int
    var inbox: seq<seq<byte>>
    var closed: bool

    ghost function View(): ConnView
      reads this
    {
      ConnView(connId, premium, outbound, inbox, closed)
    }

    constructor (connId: Option<R.ConnId>, premium: bool)
      ensures View() == ConnView(connId, premium, 0, [], false)
    {
      this.connId, this.premium := connId, premium;
      outbound, inbox, closed := 0, [], false;
    }
  }

  class Broadcaster {
    var slowConnSkipCount: int
    var broadcastDispatchCount: int

    constructor ()
      ensures slowConnSkipCount == 0 && broadcastDispatchCount == 0
    {
      slowConnSkipCount, broadcastDispatchCount := 0, 0;
    }

    method SendToConn(c: Connection, msg: Message, megaFrame: seq<byte>)
      modifies `slowConnSkipCount, c
      ensures c.View() == Sent(old(c.View()), msg, megaFrame)
      ensures Treated(old(c.View()), c.View(), msg, megaFrame)
      ensures c.inbox == (if Hears(old(c.View()), msg) then old(c.inbox) + [megaFrame] else old(c.inbox))
      ensures c.closed <==> old(c.closed) || (c.connId.Some? && old(c.outbound) > 4194304)
      ensures c.connId == Some(msg.sender) && msg.sender != "" ==> c.inbox == old(c.inbox)
      ensures slowConnSkipCount == old(slowConnSkipCount) + if Decide(old(c.View()), msg) == Skipped then 1 else 0
    {
      SentIsTreated(c.View(), msg, megaFrame);
      if c.connId.None? {
        return;
      }
      var outbound := c.outbound;
      if outbound > FORCE_CLOSE {
        c.closed := true;
        return;
      }
      if c.premium && outbound > PREMIUM_SKIP {
        slowConnSkipCount := slowConnSkipCount + 1;
        return;
      }
      if outbound > SKIP {
        slowConnSkipCount := slowConnSkipCount + 1;
        return;
      }
      if outbound > SAMPLE {
        if GoRem(msg.timestamp, 2) == 1 {
          slowConnSkipCount := slowConnSkipCount + 1;
          return;
        }
      }
      if msg.sender != "" && msg.sender == c.connId.value {
        return;
      }
      c.inbox := c.inbox + [megaFrame];
    }

    /** The connections in `done`, and no others, have been treated since `before`, when the skip counter
        stood at `base`. */
    ghost predicate Progress(net: map<R.Conn, Connection>, before: map<R.Conn, ConnView>, base: int,
                             done: set<R.Conn>, msg: Message, frame: seq<byte>)
      requires done <= before.Keys
      reads this, net.Values
    {
      && net.Keys == before.Keys
      && (forall a, b | a in net && b in net && a != b :: net[a] != net[b])
      && (forall c | c in net :: net[c].View() == SentIf(c in done, before[c], msg, frame))
      && slowConnSkipCount == base + |WithOutcome(done, before, msg, Skipped)|
    }

    /** BroadcastLocal on the room looked up, each shard as it is when its loop is visited; `net` resolves handles to
        connections. */
    method BroadcastLocal(room: Option<R.Room>, net: map<R.Conn, Connection>, msg: Message,
                          ghost before: map<R.Conn, ConnView>)
      requires room.Some? ==> OneShardEach(room.value) && Reached(room.value) <= net.Keys
      requires ServerFrames.Printable(Frame(OP_BINARY, msg.payload))
      requires Progress(net, before, slowConnSkipCount, {}, msg, ServerFrames.Print(Frame(OP_BINARY, msg.payload)))
      modifies this, net.Values
      ensures Progress(net, before, old(slowConnSkipCount), if room.Some? then Reached(room.value) else {}, msg,
                       ServerFrames.Print(Frame(OP_BINARY, msg.payload)))
      ensures broadcastDispatchCount == old(broadcastDispatchCount) + if room.Some? then 1 else 0
      ensures var frame := ServerFrames.Print(Frame(OP_BINARY, msg.payload));
        && ServerFrames.ReadFrame(frame) == ServerFrames.Reading(Frame(0x2, msg.payload), |frame|)
        && forall c | c in net ::
             if room.Some? && c in Reached(room.value) then Treated(old(net[c].View()), net[c].View(), msg, frame)
             else net[c].View() == old(net[c].View())
    {
      hide SentIf, WithOutcome, ServerFrames.Print, ServerFrames.Printable, ServerFrames.ReadFrame, Treated;
      FrameReadsBack(msg.payload);
      assert forall c | c in net :: net[c].View() == before[c] by {
        AllTreated(before, {}, msg, ServerFrames.Print(Frame(OP_BINARY, msg.payload)));
      }
      if room.None? {
        AllTreated(before, {}, msg, ServerFrames.Print(Frame(OP_BINARY, msg.payload)));
        return;
      }
      var r := room.value;
      var megaFrame := ServerFrames.BuildBinaryFrame(msg.payload);
      ghost var base := slowConnSkipCount;
      assert Below(r, 0) == {};
      for loopIdx := 0 to |r.shards|
        invariant Progress(net, before, base, Below(r, loopIdx), msg, megaFrame)
        invariant broadcastDispatchCount == old(broadcastDispatchCount)
      {
        BelowNext(r, loopIdx);
        RangeLoopConns(r.shards[loopIdx], net, msg, megaFrame, before, base, Below(r, loopIdx));
      }
      broadcastDispatchCount := broadcastDispatchCount + 1;
      AllTreated(before, Below(r, |r.shards|), msg, megaFrame);
    }

    method SendOne(c: R.Conn, net: map<R.Conn, Connection>, msg: Message, megaFrame: seq<byte>,
                   ghost before: map<R.Conn, ConnView>, ghost base: int, ghost done: set<R.Conn>)
      requires done <= before.Keys && c in before && c !in done
      requires Progress(net, before, base, done, msg, megaFrame)
      modifies `slowConnSkipCount, net.Values
      ensures Progress(net, before, base, done + {c}, msg, megaFrame)
    {
      hide Sent, Decide, WithOutcome;
      OneMore(done, c, before, msg);
      SendToConn(net[c], msg, megaFrame);
    }

    /** The callback over one shard; Go ranges over the map in any order. */
    method RangeLoopConns(shard: map<R.ConnId, R.Conn>, net: map<R.Conn, Connection>, msg: Message,
                          megaFrame: seq<byte>, ghost before: map<R.Conn, ConnView>, ghost base: int,
                          ghost done: set<R.Conn>)
      requires done <= before.Keys && shard.Values <= before.Keys && shard.Values !! done
      requires forall a, b | a in shard && b in shard && a != b :: shard[a] != shard[b]
      requires Progress(net, before, base, done, msg, megaFrame)
      modifies `slowConnSkipCount, net.Values
      ensures Progress(net, before, base, done + shard.Values, msg, megaFrame)
    {
      hide Progress;
      var toVisit := shard.Keys;
      ghost var now := done;
      while toVisit != {}
        invariant toVisit <= shard.Keys && done <= now <= done + shard.Values
        invariant forall id | id in shard :: id in toVisit <==> shard[id] !in now
        invariant Progress(net, before, base, now, msg, megaFrame)
        decreases |toVisit|
      {
        ghost var some := HasElement(toVisit);
        var id :| id in toVisit;
        toVisit := toVisit - {id};
        var c := shard[id];
        SendOne(c, net, msg, megaFrame, before, base, now);
        now := now + {c};
      }
      assert now == done + shard.Values;
    }
  }

  lemma AllTreated(before: map<R.Conn, ConnView>, done: set<R.Conn>, msg: Message, frame: seq<byte>)
    ensures forall c | c in before ::
      if c in done then Treated(before[c], SentIf(c in done, before[c], msg, frame), msg, frame)
      else SentIf(c in done, before[c], msg, frame) == before[c]
  {
    hide Sent, Treated;
    forall c | c in before
      ensures Treated(before[c], Sent(before[c], msg, frame), msg, frame)
    {
      SentIsTreated(before[c], msg, frame);
    }
  }

  lemma FrameReadsBack(payload: seq<byte>)
    requires ServerFrames.Printable(Frame(OP_BINARY, payload))
    ensures var frame := ServerFrames.Print(Frame(OP_BINARY, payload));
      ServerFrames.ReadFrame(frame) == ServerFrames.Reading(Frame(0x2, payload), |frame|)
  {
    hide ServerFrames.Print, ServerFrames.ReadFrame;
    var frame := ServerFrames.Print(Frame(OP_BINARY, payload));
    ServerFrames.ReadsWhatWasPrinted(Frame(OP_BINARY, payload), []);
    assert frame + [] == frame;
  }

  lemma OneMore(done: set<R.Conn>, c: R.Conn, views: map<R.Conn, ConnView>, msg: Message)
    requires done <= views.Keys && c in views && c !in done
    ensures |WithOutcome(done + {c}, views, msg, Skipped)|
      == |WithOutcome(done, views, msg, Skipped)| + if Decide(views[c], msg) == Skipped then 1 else 0
  {
    hide Decide;
    assert WithOutcome(done + {c}, views, msg, Skipped)
      == WithOutcome(done, views, msg, Skipped) + if Decide(views[c], msg) == Skipped then {c} else {};
  }
}
