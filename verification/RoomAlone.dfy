/** internal/room/manager.go: what the atomic steps of one operation add up to when nobody interrupts it. */
module RoomAlone {
  import opened Bitmaps
  import R = Rooms
  import opened RoomSteps

  // ----- an operation that nobody interrupts ---------------------------------------------------------------

  /** Up to n steps of loop i on room object r. */
  function Advances(r: R.Room, p: Pc, i: nat, now: int, n: nat): (res: (R.Room, Pc))
    requires i < |r.shards| == |r.counts| <= 64
    ensures |res.0.shards| == |res.0.counts| == |r.shards|
    decreases n
  {
    if n == 0 || p.Idle? then (r, p)
    else
      AdvanceFrame(r, p, i, now);
      var (r', p') := AdvanceOn(r, p, i, now);
      Advances(r', p', i, now, n - 1)
  }

  lemma AdvancesUnfolds(r: R.Room, p: Pc, i: nat, now: int, n: nat)
    requires i < |r.shards| == |r.counts| <= 64 && n > 0 && !p.Idle?
    ensures var (r', p') := AdvanceOn(r, p, i, now);
      |r'.shards| == |r'.counts| == |r.shards| && Advances(r, p, i, now, n) == Advances(r', p', i, now, n - 1)
  {
    hide AdvanceOn;
    AdvanceFrame(r, p, i, now);
  }

  /** The atomic steps of an uninterrupted Add amount to the sequential operation. */
  lemma SoloAdd(r: R.Room, h: Handle, conn: R.ConnId, c: R.Conn, i: nat, now: int)
    requires i < |r.shards| == |r.counts| <= 64
    ensures Advances(r, AddFetched(h, conn, c), i, now, 5) == (R.AddToRoom(r, i, conn, c), Idle)
  {
    hide Advances, SetBit, ClearBit;
    AdvancesUnfolds(r, AddFetched(h, conn, c), i, now, 5);
    var (r1, p1) := AdvanceOn(r, AddFetched(h, conn, c), i, now);
    if conn in r.shards[i] {
      AdvancesAtRest(r1, i, now, 4);
    } else {
      AdvancesUnfolds(r1, p1, i, now, 4);
      var (r2, p2) := AdvanceOn(r1, p1, i, now);
      AdvancesUnfolds(r2, p2, i, now, 3);
      var (r3, p3) := AdvanceOn(r2, p2, i, now);
      AdvancesUnfolds(r3, p3, i, now, 2);
      var (r4, p4) := AdvanceOn(r3, p3, i, now);
      AdvancesUnfolds(r4, p4, i, now, 1);
      AdvancesAtRest(AdvanceOn(r4, p4, i, now).0, i, now, 0);
    }
  }

  /** Likewise an uninterrupted Remove. */
  lemma SoloRemove(r: R.Room, h: Handle, conn: R.ConnId, i: nat, now: int)
    requires i < |r.shards| == |r.counts| <= 64
    ensures Advances(r, RemFetched(h, conn), i, now, 6) == (R.RemoveFromRoom(r, i, conn, now), Idle)
  {
    hide Advances, SetBit, ClearBit;
    AdvancesUnfolds(r, RemFetched(h, conn), i, now, 6);
    var (r1, p1) := AdvanceOn(r, RemFetched(h, conn), i, now);
    if conn !in r.shards[i] {
      AdvancesAtRest(r1, i, now, 5);
    } else {
      AdvancesUnfolds(r1, p1, i, now, 5);
      var (r2, p2) := AdvanceOn(r1, p1, i, now);
      AdvancesUnfolds(r2, p2, i, now, 4);
      var (r3, p3) := AdvanceOn(r2, p2, i, now);
      AdvancesUnfolds(r3, p3, i, now, 3);
      var (r4, p4) := AdvanceOn(r3, p3, i, now);
      AdvancesUnfolds(r4, p4, i, now, 2);
      var (r5, p5) := AdvanceOn(r4, p4, i, now);
      if p5.Idle? {
        AdvancesAtRest(r5, i, now, 1);
      } else {
        AdvancesUnfolds(r5, p5, i, now, 1);
        AdvancesAtRest(AdvanceOn(r5, p5, i, now).0, i, now, 0);
      }
    }
  }

  lemma AdvancesAtRest(r: R.Room, i: nat, now: int, n: nat)
    requires i < |r.shards| == |r.counts| <= 64
    ensures Advances(r, Idle, i, now, n) == (r, Idle)
  {
  }

  lemma NoAdvance(r: R.Room, p: Pc, i: nat, now: int)
    requires i < |r.shards| == |r.counts| <= 64
    ensures Advances(r, p, i, now, 0) == (r, p)
  {
  }

  // ----- the same within a run ---------------------------------------------------------------------------------

  /** Some run leads from one state to the other. */
  ghost predicate Reaches(start: State, s: State) {
    exists states, events :: IsRun(states, events) && states[0] == start && states[|events|] == s
  }

  lemma ReachesItself(s: State)
    ensures Reaches(s, s)
  {
    assert IsRun([s], []);
  }

  lemma ReachStep(start: State, s: State, e: Event)
    requires Reaches(start, s) && Shaped(s) && Enabled(s, e)
    ensures Reaches(start, Step(s, e))
  {
    hide Step, Enabled, Shaped;
    var states, events :| IsRun(states, events) && states[0] == start && states[|events|] == s;
    var states', events' := states + [Step(s, e)], events + [e];
    forall k | 0 <= k < |events'|
      ensures Shaped(states'[k]) && Enabled(states'[k], events'[k]) && states'[k + 1] == Step(states'[k], events'[k])
    {
      if k < |events| {
        assert events'[k] == events[k] && states'[k] == states[k] && states'[k + 1] == states[k + 1];
      }
    }
    assert IsRun(states', events');
  }

  ghost predicate Good(start: State, s: State) {
    Reaches(start, s) && Inv(s)
  }

  lemma GoodStep(start: State, s: State, e: Event)
    requires Good(start, s) && Enabled(s, e)
    ensures Good(start, Step(s, e))
  {
    hide ObjectExact, Step, Enabled, Reaches;
    StepKeepsInv(s, e);
    ReachStep(start, s, e);
  }

  /** Steps of one loop alone, seen from the room object it works on. */
  lemma {:induction false} GoodAdvances(start: State, s: State, i: nat, now: int, n: nat) returns (t: State)
    requires Good(start, s) && i < |s.pcs| && !s.pcs[i].Idle?
    ensures Shaped(s) && Good(start, t)
    ensures var (h, a) := (s.pcs[i].h, Advances(s.objects[s.pcs[i].h], s.pcs[i], i, now, n));
      t == s.(objects := s.objects[h := a.0], pcs := s.pcs[i := a.1])
    decreases n
  {
    hide ObjectExact, Reaches, AdvanceOn;
    var h := s.pcs[i].h;
    var r := s.objects[h];
    if n == 0 {
      t := s;
      assert s.objects[h := r] == s.objects && s.pcs[i := s.pcs[i]] == s.pcs;
    } else {
      AdvancesUnfolds(r, s.pcs[i], i, now, n);
      var s' := Step(s, Advance(i, now));
      GoodStep(start, s, Advance(i, now));
      AdvanceFrame(r, s.pcs[i], i, now);
      if s'.pcs[i].Idle? {
        t := s';
        AdvancesAtRest(s'.objects[h], i, now, n - 1);
      } else {
        t := GoodAdvances(start, s', i, now, n - 1);
        assert s'.objects[h := t.objects[h]] == s.objects[h := t.objects[h]];
        assert s'.pcs[i := t.pcs[i]] == s.pcs[i := t.pcs[i]];
      }
    }
  }

  /** From any reachable state, an Add that runs alone does to its room what the sequential operation does, and
      nothing else. */
  lemma AddAlone(start: State, s: State, i: nat, room: int, conn: R.ConnId, c: R.Conn, created: Handle, now: int)
    returns (t: State)
    requires Good(start, s) && Enabled(s, StartAdd(i, room, conn, c, created))
    ensures Good(start, t) && i < s.loopCount <= 64
    ensures var h := if room in s.table then s.table[room] else created;
      && (room in s.table ==> h in s.objects)
      && var r := if room in s.table then s.objects[h] else R.FreshRoom(room, s.loopCount);
      && i < |r.shards| == |r.counts| <= 64
      && t == s.(objects := s.objects[h := R.AddToRoom(r, i, conn, c)], table := s.table[room := h])
  {
    hide ObjectExact, Reaches, Advances, R.AddToRoom;
    var e := StartAdd(i, room, conn, c, created);
    GoodStep(start, s, e);
    var s1 := Step(s, e);
    var h := s1.pcs[i].h;
    SoloAdd(s1.objects[h], h, conn, c, i, now);
    t := GoodAdvances(start, s1, i, now, 5);
    assert t.pcs == s.pcs;
    assert s.table[room := h] == s1.table;
    assert s1.objects[h := t.objects[h]] == s.objects[h := t.objects[h]];
  }

  /** So does a Remove. */
  lemma RemoveAlone(start: State, s: State, i: nat, room: int, conn: R.ConnId, now: int) returns (t: State)
    requires Good(start, s) && Enabled(s, StartRemove(i, room, conn))
    ensures Good(start, t) && i < s.loopCount <= 64
    ensures room !in s.table ==> t == s
    ensures room in s.table ==>
      var h := s.table[room];
      && h in s.objects && i < |s.objects[h].shards| == |s.objects[h].counts|
      && t == s.(objects := s.objects[h := R.RemoveFromRoom(s.objects[h], i, conn, now)])
  {
    hide ObjectExact, Reaches, Advances, R.RemoveFromRoom;
    GoodStep(start, s, StartRemove(i, room, conn));
    t := Step(s, StartRemove(i, room, conn));
    if room in s.table {
      var h := s.table[room];
      assert t.pcs[i] == RemFetched(h, conn);
      SoloRemove(s.objects[h], h, conn, i, now);
      t := GoodAdvances(start, t, i, now, 6);
      assert t.pcs == s.pcs;
    }
  }

  /** A cleaner that nobody interrupts removes the room if and only if it counts no connection and its positive date is
      more than `idle` seconds ago, and changes nothing else. */
  lemma CleanAlone(start: State, s: State, room: int, now: int, idle: int) returns (t: State)
    requires Good(start, s) && s.cleaner == Waiting && room in s.table
    ensures Good(start, t) && s.table[room] in s.objects
    ensures var r := s.objects[s.table[room]];
      t == if r.local == 0 && r.lastEmpty > 0 && now - r.lastEmpty > idle then s.(table := s.table - {room}) else s
  {
    hide ObjectExact, Reaches;
    GoodStep(start, s, CleanLoad(room));
    t := Step(s, CleanLoad(room));
    if t.cleaner.SawZero? {
      GoodStep(start, t, CleanDate(now, idle));
      t := Step(t, CleanDate(now, idle));
      if t.cleaner.SawDate? {
        GoodStep(start, t, CleanDelete);
        t := Step(t, CleanDelete);
      }
    }
  }
}
