/** internal/room/manager.go: which connections the cleaner can lose to an Add that already holds the room. */
module RoomEviction {
  import opened Bitmaps
  import R = Rooms
  import opened RoomAlone
  import opened RoomIdle
  import opened RoomSteps

  /** An Add that the connection count does not show: it has fetched the room, or written its connection. */
  predicate Unseen(p: Pc, h: Handle) {
    On(p, h) && (p.AddFetched? || p.AddInserted?)
  }

  predicate Adding(p: Pc, h: Handle) {
    On(p, h) && (p.AddFetched? || Written(p))
  }

  // ----- no unseen Add when the count is loaded -----------------------------------------------------------------

  /** The object holds nothing, and nobody is about to write to it. */
  ghost predicate Quiet(s: State, h: Handle) {
    && h in s.objects
    && (forall j :: !Holds(s, h, j))
    && (forall i | 0 <= i < |s.pcs| :: !Adding(s.pcs[i], h))
  }

  /** No lookup can reach the object: the cleaner holds its bucket, or the table has dropped it. */
  ghost predicate Shut(s: State, h: Handle) {
    forall room | room in s.table && s.table[room] == h :: Cleaning(s, room)
  }

  lemma QuietStays(s: State, e: Event, h: Handle)
    requires Inv(s) && Enabled(s, e) && Quiet(s, h) && Shut(s, h)
    ensures Quiet(Step(s, e), h)
  {
    hide ObjectExact, SetBit, ClearBit;
    var s' := Step(s, e);
    if e.Advance? {
      AdvanceFrame(s.objects[s.pcs[e.loop].h], s.pcs[e.loop], e.loop, e.now);
      assert !Adding(s.pcs[e.loop], h);
    }
    forall j
      ensures !Holds(s', h, j)
    {
      assert !Holds(s, h, j);
    }
    forall i | 0 <= i < |s'.pcs|
      ensures !Adding(s'.pcs[i], h)
    {
      assert !Adding(s.pcs[i], h);
    }
  }

  ghost predicate Dropped(s: State, h: Handle) {
    forall room | room in s.table :: s.table[room] != h
  }

  /** The object stays shut while the cleaner holds on to its room. */
  lemma ShutStays(s: State, e: Event, h: Handle)
    requires Inv(s) && Enabled(s, e) && h in s.objects && Shut(s, h)
    requires !s.cleaner.Waiting? && !Step(s, e).cleaner.Waiting?
    ensures Shut(Step(s, e), h)
  {
    hide ObjectExact, AdvanceOn;
  }

  lemma DeletedIsDropped(s: State, h: Handle)
    requires Inv(s) && Enabled(s, CleanDelete) && Shut(s, h)
    ensures Dropped(Step(s, CleanDelete), h)
  {
    hide ObjectExact;
  }

  /** A count of 0 without an unseen Add leaves the object quiet. */
  lemma ZeroIsQuiet(s: State, h: Handle)
    requires Inv(s) && AddsHold(s) && h in s.objects && s.objects[h].local == 0
    requires forall i | 0 <= i < |s.pcs| :: !Unseen(s.pcs[i], h)
    ensures Quiet(s, h)
  {
    hide ObjectExact;
    forall j
      ensures !Holds(s, h, j)
    {
      if 0 <= j < |s.pcs| {
        ZeroHidesOnlyUncounted(s, h, j);
      }
    }
    forall i | 0 <= i < |s.pcs|
      ensures !Adding(s.pcs[i], h)
    {
      assert !Holds(s, h, i);
    }
  }

  /** The cleaning that starts with the first event of a run deletes the room at event b. */
  ghost predicate Evicts(states: seq<State>, events: seq<Event>, room: int, b: int) {
    && IsRun(states, events) && 0 < b < |events|
    && events[0] == CleanLoad(room) && room in states[0].table
    && events[b].CleanDelete? && forall m | 0 < m < b :: !events[m].CleanLoad?
  }

  /** The cleaner holds on to the room from its load to its deletion. */
  lemma {:induction false} CleanerIsBusy(states: seq<State>, events: seq<Event>, room: int, b: int, m: int)
    requires Evicts(states, events, room, b) && 0 < m <= b
    ensures !states[m].cleaner.Waiting?
    decreases b - m
  {
    hide Shaped, AdvanceOn;
    if m == b {
    } else {
      CleanerIsBusy(states, events, room, b, m + 1);
    }
  }

  lemma {:induction false} QuietUntil(states: seq<State>, events: seq<Event>, room: int, b: int, k: int, h: Handle)
    requires Evicts(states, events, room, b) && 0 < k <= |events| && h == states[0].table[room]
    requires Inv(states[0]) && AddsHold(states[0]) && states[0].cleaner.Waiting?
    requires forall i | 0 <= i < |states[0].pcs| :: !Unseen(states[0].pcs[i], h)
    ensures Inv(states[k]) && Quiet(states[k], h)
    ensures if k <= b then Shut(states[k], h) else Dropped(states[k], h)
  {
    hide Inv, Quiet, Shut, Dropped, Step, Enabled;
    var s, e := states[k - 1], events[k - 1];
    RunKeepsInv(states, events, k - 1);
    StepKeepsInv(s, e);
    if k <= b {
      CleanerIsBusy(states, events, room, b, k);
    }
    if k == 1 {
      LoadIsQuiet(s, room);
    } else {
      QuietUntil(states, events, room, b, k - 1, h);
      QuietHasObject(s, h);
      DroppedIsShut(s, h);
      QuietStays(s, e, h);
      if k <= b {
        CleanerIsBusy(states, events, room, b, k - 1);
        ShutStays(s, e, h);
      } else if k == b + 1 {
        DeletedIsDropped(s, h);
      } else {
        DroppedStays(s, e, h);
      }
    }
  }

  lemma LoadIsQuiet(s: State, room: int)
    requires Inv(s) && AddsHold(s) && Enabled(s, CleanLoad(room)) && !Step(s, CleanLoad(room)).cleaner.Waiting?
    requires forall i | 0 <= i < |s.pcs| :: !Unseen(s.pcs[i], s.table[room])
    ensures var s', h := Step(s, CleanLoad(room)), s.table[room]; Quiet(s', h) && Shut(s', h)
  {
    hide ObjectExact;
    ZeroIsQuiet(s, s.table[room]);
    forall j
      ensures !Holds(Step(s, CleanLoad(room)), s.table[room], j)
    {
      assert !Holds(s, s.table[room], j);
    }
    forall other | other in s.table && s.table[other] == s.table[room]
      ensures other == room
    {
      assert s.objects[s.table[other]].id == other && s.objects[s.table[room]].id == room;
    }
  }

  lemma QuietHasObject(s: State, h: Handle)
    requires Quiet(s, h)
    ensures h in s.objects
  {
  }

  lemma DroppedIsShut(s: State, h: Handle)
    ensures Dropped(s, h) ==> Shut(s, h)
  {
  }

  lemma DroppedStays(s: State, e: Event, h: Handle)
    requires Inv(s) && Enabled(s, e) && h in s.objects && Dropped(s, h)
    ensures Dropped(Step(s, e), h)
  {
    hide ObjectExact, AdvanceOn;
    DetachedStays(s, e, h);
  }

  /** If no unseen Add holds the room when the cleaner loads its count, then from the load on, and for ever
      after the deletion, the object has no connection and no Add in hand. */
  lemma EvictionIsSafe(states: seq<State>, events: seq<Event>, room: int, b: int, k: int)
    requires Evicts(states, events, room, b) && 0 < k <= |events|
    requires Inv(states[0]) && AddsHold(states[0]) && states[0].cleaner.Waiting?
    requires forall i | 0 <= i < |states[0].pcs| :: !Unseen(states[0].pcs[i], states[0].table[room])
    ensures Quiet(states[k], states[0].table[room])
    ensures b < k ==> Dropped(states[k], states[0].table[room])
  {
    hide Inv, Quiet, Shut, Dropped, Step, Enabled;
    QuietUntil(states, events, room, b, k, states[0].table[room]);
  }

  // ----- an unseen Add when the count is loaded -----------------------------------------------------------------

  /** The cleaner deletes the room, and later its dropped object holds the connection of a finished Add. */
  ghost predicate Loses(states: seq<State>, events: seq<Event>, room: int) {
    exists b, i :: LosesAt(states, events, room, b, i)
  }

  ghost predicate LosesAt(states: seq<State>, events: seq<Event>, room: int, b: int, i: int) {
    && Evicts(states, events, room, b)
    && var s, h := states[|events|], states[0].table[room];
    && Dropped(s, h) && Holds(s, h, i) && i < |s.pcs| && s.pcs[i].Idle?
  }

  /** However its Add goes on, a connection about to be written, or written, ends up in the object. */
  lemma FinishedAddHolds(r: R.Room, p: Pc, h: Handle, i: nat, now: int)
    requires i < |r.shards| == |r.counts| <= 64 && Unseen(p, h) && (p.AddInserted? ==> r.shards[i] != map[])
    ensures var (r', p') := Advances(r, p, i, now, 5); p' == Idle && r'.shards[i] != map[]
  {
    if p.AddFetched? {
      SoloAdd(r, h, p.conn, p.c, i, now);
      assert p.conn in R.AddToRoom(r, i, p.conn, p.c).shards[i];
    } else {
      InsertedAddHolds(r, h, i, now);
    }
  }

  lemma InsertedAddHolds(r: R.Room, h: Handle, i: nat, now: int)
    requires i < |r.shards| == |r.counts| <= 64
    ensures var (r', p') := Advances(r, AddInserted(h), i, now, 5); p' == Idle && r'.shards == r.shards
  {
    hide Advances;
    AdvancesUnfolds(r, AddInserted(h), i, now, 5);
    var (r1, p1) := AdvanceOn(r, AddInserted(h), i, now);
    AdvancesUnfolds(r1, p1, i, now, 4);
    var (r2, p2) := AdvanceOn(r1, p1, i, now);
    AdvancesUnfolds(r2, p2, i, now, 3);
    var (r3, p3) := AdvanceOn(r2, p2, i, now);
    AdvancesUnfolds(r3, p3, i, now, 2);
    AdvancesAtRest(AdvanceOn(r3, p3, i, now).0, i, now, 1);
  }

  /** Load, date and deletion in a row. */
  lemma CleanAtOnce(s: State, room: int, now: int, idle: int) returns (t: State)
    requires Inv(s) && s.cleaner.Waiting? && room in s.table
    requires s.table[room] in s.objects && R.Evictable(s.objects[s.table[room]], now, idle)
    ensures Inv(t) && t == s.(table := s.table - {room}) && Dropped(t, s.table[room])
    ensures exists s1, s2 ::
      IsRun([s, s1, s2, t], [CleanLoad(room), CleanDate(now, idle), CleanDelete])
  {
    hide ObjectExact;
    var s1 := Step(s, CleanLoad(room));
    StepKeepsInv(s, CleanLoad(room));
    var s2 := Step(s1, CleanDate(now, idle));
    StepKeepsInv(s1, CleanDate(now, idle));
    t := Step(s2, CleanDelete);
    StepKeepsInv(s2, CleanDelete);
    assert IsRun([s, s1, s2, t], [CleanLoad(room), CleanDate(now, idle), CleanDelete]);
  }

  /** After the deletion the Add finishes alone, on the dropped object. */
  lemma FinishLater(t: State, h: Handle, i: nat, now: int) returns (u: State)
    requires Inv(t) && Dropped(t, h) && h in t.objects && i < |t.pcs| && Unseen(t.pcs[i], h)
    requires t.objects[h].local == 0
    ensures Reaches(t, u) && Dropped(u, h) && Holds(u, h, i) && i < |u.pcs| && u.pcs[i].Idle?
  {
    hide ObjectExact, Advances, Inv, Reaches;
    InvShape(t, h);
    ReachesItself(t);
    if t.pcs[i].AddInserted? {
      ZeroHidesOnlyUncounted(t, h, i);
    }
    FinishedAddHolds(t.objects[h], t.pcs[i], h, i, now);
    u := GoodAdvances(t, t, i, now, 5);
  }

  lemma UnseenAddIsLost(s: State, room: int, now: int, idle: int, i: nat)
    requires Inv(s) && s.cleaner.Waiting? && room in s.table && i < |s.pcs|
    requires s.table[room] in s.objects && R.Evictable(s.objects[s.table[room]], now, idle)
    requires Unseen(s.pcs[i], s.table[room])
    ensures exists states, events :: IsRun(states, events) && states[0] == s && Loses(states, events, room)
  {
    hide Inv, Dropped, Step, Enabled, Shaped, Unseen;
    var t := CleanAtOnce(s, room, now, idle);
    var u := FinishLater(t, s.table[room], i, now);
    hide IsRun;
    var clean := [CleanLoad(room), CleanDate(now, idle), CleanDelete];
    var s1, s2 :| IsRun([s, s1, s2, t], clean);
    var more, es :| IsRun(more, es) && more[0] == t && more[|es|] == u;
    var states, events := [s, s1, s2, t][..3] + more, clean + es;
    RunLength(more, es);
    RunsConcatenate([s, s1, s2, t], clean, more, es);
    assert states[0] == s && states[|events|] == more[|es|];
    assert events[0] == CleanLoad(room) && events[1] == CleanDate(now, idle) && events[2] == CleanDelete;
    assert Evicts(states, events, room, 2);
    assert LosesAt(states, events, room, 2, i);
  }

  lemma RunLength(states: seq<State>, events: seq<Event>)
    requires IsRun(states, events)
    ensures |states| == |events| + 1
  {
  }

  lemma InvShape(s: State, h: Handle)
    requires Inv(s)
    ensures |s.pcs| == s.loopCount <= 64
    ensures h in s.objects ==> |s.objects[h].shards| == |s.objects[h].counts| == |s.pcs|
  {
  }

  lemma RunsConcatenate(a: seq<State>, x: seq<Event>, b: seq<State>, y: seq<Event>)
    requires IsRun(a, x) && IsRun(b, y) && a[|x|] == b[0]
    ensures IsRun(a[..|x|] + b, x + y)
  {
    hide Step, Enabled, Shaped;
    var states, events := a[..|x|] + b, x + y;
    forall k | 0 <= k < |events|
      ensures Shaped(states[k]) && Enabled(states[k], events[k]) && states[k + 1] == Step(states[k], events[k])
    {
      if k < |x| {
        assert states[k] == a[k] && states[k + 1] == a[k + 1] && events[k] == x[k];
      } else {
        assert states[k] == b[k - |x|] && states[k + 1] == b[k + 1 - |x|] && events[k] == y[k - |x|];
      }
    }
  }

  // ----- the line between the two ---------------------------------------------------------------------------------

  /** A room due for eviction can lose a connection to the cleaner if and only if, when its count is loaded, some
      loop's Add has fetched the room, or written its connection, and not yet counted it. */
  lemma CanLoseIff(s: State, room: int, now: int, idle: int)
    requires Inv(s) && AddsHold(s) && s.cleaner.Waiting? && room in s.table
    requires s.table[room] in s.objects && R.Evictable(s.objects[s.table[room]], now, idle)
    ensures (exists states, events :: IsRun(states, events) && states[0] == s && Loses(states, events, room))
      <==> exists i | 0 <= i < |s.pcs| :: Unseen(s.pcs[i], s.table[room])
  {
    hide Inv, AddsHold, Quiet, Dropped;
    if i :| 0 <= i < |s.pcs| && Unseen(s.pcs[i], s.table[room]) {
      UnseenAddIsLost(s, room, now, idle, i);
    } else if states, events :| IsRun(states, events) && states[0] == s && Loses(states, events, room) {
      var b, j :| LosesAt(states, events, room, b, j);
      EvictionIsSafe(states, events, room, b, |events|);
      QuietHoldsNothing(states[|events|], s.table[room], j);
    }
  }

  lemma QuietHoldsNothing(s: State, h: Handle, j: int)
    requires Quiet(s, h)
    ensures !Holds(s, h, j)
  {
  }

  /** Both losing situations are reachable, with one loop: a connection comes and goes, and after the idle time
      another one is being added when the cleaner arrives. */
  lemma LosingIsReachable(idle: nat)
    ensures exists s :: Losing(s, idle) && s.pcs[0].AddFetched?
    ensures exists s :: Losing(s, idle) && s.pcs[0].AddInserted?
  {
    hide ObjectExact, Reaches, Advances, SetBit, ClearBit;
    var start := Init(1);
    InitInv(1);
    ReachesItself(start);
    var a := R.Conn.Conn(0);
    var s1 := AddAlone(start, start, 0, 1, "a", a, 0, 1);
    assert s1.objects[0].local == 1 && "a" in s1.objects[0].shards[0] && s1.table[1] == 0;
    var s2 := RemoveAlone(start, s1, 0, 1, "a", 1);
    assert s2.objects[0].local == 0 && s2.objects[0].lastEmpty == 1 && s2.table[1] == 0;
    assert s2.objects[0].shards[0] == map[];
    var add := StartAdd(0, 1, "b", a, 1);
    GoodStep(start, s2, add);
    var s3 := Step(s2, add);
    assert Losing(s3, idle);
    GoodStep(start, s3, Advance(0, 1));
    var s4 := Step(s3, Advance(0, 1));
    assert Losing(s4, idle);
  }

  /** Room 1 is due at time idle + 2, and the only loop has an unseen Add on it. */
  ghost predicate Losing(s: State, idle: int) {
    && Reaches(Init(1), s) && Inv(s) && s.cleaner.Waiting?
    && |s.pcs| == 1 && 1 in s.table && s.table[1] in s.objects
    && R.Evictable(s.objects[s.table[1]], idle + 2, idle) && Unseen(s.pcs[0], s.table[1])
  }
}
