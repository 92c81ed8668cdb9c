/** internal/room/manager.go: when a write can miscount because somebody has overtaken it since its lookup, and what
    holds of the counts, the bitmap and the date as long as nobody does. */
module RaceSlips {
  import opened Bitmaps
  import R = Rooms
  import B = RaceBitmap
  import D = RaceDates
  import opened RoomAlone
  import opened RoomRaces
  import opened RoomSteps

  // ----- which operations can overtake each other ------------------------------------------------------------------

  /** Worker w has looked its connection up and has yet to write. */
  predicate HasLooked(s: Race, w: int) {
    0 <= w < |s.workers| && Fetched(s.workers[w].pc) && !s.workers[w].look.Unlooked?
  }

  /** Both have looked one connection up on one loop, and at least one of them is about to put it in or take it out. */
  predicate Conflict(s: Race, v: int, w: int) {
    && v != w && HasLooked(s, v) && HasLooked(s, w)
    && var (a, b) := (s.workers[v], s.workers[w]);
    && a.loop == b.loop && a.pc.conn == b.pc.conn
    && !(a.pc.AddFetched? && a.look.Present? && b.pc.AddFetched? && b.look.Present?)
  }

  ghost predicate NoConflict(s: Race) {
    forall v, w :: !Conflict(s, v, w)
  }

  /** What w has found still holds. */
  predicate StillTrue(s: Race, w: int)
    requires Fits(s) && HasLooked(s, w)
  {
    var Worker(i, look, pc) := s.workers[w];
    look.Present? <==> pc.conn in s.r.shards[i]
  }

  ghost predicate AllTrue(s: Race)
    requires Fits(s)
  {
    forall w | HasLooked(s, w) :: StillTrue(s, w)
  }

  lemma TrueLooksDoNotSlip(s: Race, m: Move)
    requires Fits(s) && Possible(s, m) && AllTrue(s)
    ensures Slip(s, m) == 0
  {
    if Writes(s, m) {
      assert HasLooked(s, m.w);
    }
  }

  /** Without a conflict a step leaves every lookup true. */
  lemma PlayKeepsTrue(s: Race, m: Move)
    requires Fits(s) && Possible(s, m) && AllTrue(s) && NoConflict(s)
    ensures Fits(Play(s, m)) && AllTrue(Play(s, m))
  {
    hide WorkOn;
    PlayKeepsShape(s, m);
    var t := Play(s, m);
    forall w | HasLooked(t, w)
      ensures StillTrue(t, w)
    {
      if m.Go? {
        if w == m.w {
          OwnLookIsTrue(s, m.w, m.now);
        } else {
          assert t.workers[w] == s.workers[w] && StillTrue(s, w);
          OthersStayTrue(s, m.w, m.now, w);
        }
      } else {
        assert t.workers[w] == s.workers[w] && StillTrue(s, w);
      }
    }
  }

  lemma OwnLookIsTrue(s: Race, v: nat, now: int)
    requires Fits(s) && Possible(s, Go(v, now)) && HasLooked(Play(s, Go(v, now)), v)
    ensures Fits(Play(s, Go(v, now))) && StillTrue(Play(s, Go(v, now)), v)
  {
    PlayKeepsShape(s, Go(v, now));
  }

  lemma OthersStayTrue(s: Race, v: nat, now: int, w: nat)
    requires Fits(s) && Possible(s, Go(v, now)) && v != w && HasLooked(s, w) && StillTrue(s, w)
    requires !Conflict(s, v, w) && (HasLooked(s, v) ==> StillTrue(s, v))
    ensures Fits(Play(s, Go(v, now))) && HasLooked(Play(s, Go(v, now)), w) && StillTrue(Play(s, Go(v, now)), w)
  {
    PlayKeepsShape(s, Go(v, now));
    if !Writes(s, Go(v, now)) {
      assert Play(s, Go(v, now)).r.shards == s.r.shards;
    } else {
      hide AdvanceOn;
      assert HasLooked(s, v);
    }
  }

  /** The converse: from any state with a conflict a slip is at most two steps away. */
  lemma ConflictCanSlip(s: Race, v: nat, w: nat, now: int)
    requires Fits(s) && Conflict(s, v, w)
    ensures exists a, b ::
      && {a, b} == {v, w} && Possible(s, Go(a, now)) && Fits(Play(s, Go(a, now)))
      && Possible(Play(s, Go(a, now)), Go(b, now))
      && (Slip(s, Go(a, now)) != 0 || Slip(Play(s, Go(a, now)), Go(b, now)) != 0)
  {
    hide AdvanceOn;
    var first := s.workers[v].look.Absent? || s.workers[v].pc.RemFetched?;
    var a, b := if first then v else w, if first then w else v;
    PlayKeepsShape(s, Go(a, now));
    PlayKeepsShape(s, Go(b, now));
    assert {a, b} == {v, w};
    if Slip(s, Go(a, now)) == 0 && Slip(s, Go(b, now)) == 0 {
      SecondSlips(s, a, b, now);
    } else if Slip(s, Go(a, now)) == 0 {
      assert {b, a} == {v, w};
      assert Possible(s, Go(b, now)) && Possible(Play(s, Go(b, now)), Go(a, now));
    }
  }

  lemma SecondSlips(s: Race, a: nat, b: nat, now: int)
    requires Fits(s) && Conflict(s, a, b) && (s.workers[a].look.Absent? || s.workers[a].pc.RemFetched?)
    requires Slip(s, Go(a, now)) == 0 && Slip(s, Go(b, now)) == 0
    ensures var t := Play(s, Go(a, now)); Fits(t) && Possible(t, Go(b, now)) && Slip(t, Go(b, now)) != 0
  {
    hide AdvanceOn;
    PlayKeepsShape(s, Go(a, now));
  }

  // ----- whole runs without a conflict -----------------------------------------------------------------------------

  ghost predicate NeverConflict(s: Race, moves: seq<Move>)
    requires Fits(s) && AllPossible(s, moves)
    decreases |moves|
  {
    NoConflict(s) &&
    (moves == [] || (PlayKeepsShape(s, moves[0]); NeverConflict(Play(s, moves[0]), moves[1..])))
  }

  /** As long as nobody writes between the lookup and the write of another operation on the same connection, nothing
      slips. */
  lemma {:induction false} NothingSlips(s: Race, moves: seq<Move>, excess: seq<int>)
    requires Fits(s) && AllPossible(s, moves) && NeverConflict(s, moves) && AllTrue(s) && |excess| == |s.r.shards|
    ensures LastExcess(s, moves, excess) == excess && AllTrue(PlayAll(s, moves))
    ensures R.Sum(excess) == 0 ==> D.AllEven(s, moves, excess)
    decreases |moves|
  {
    hide Play, AllTrue, NoConflict, Slip, R.Sum;
    if moves == [] {
    } else {
      PlayKeepsShape(s, moves[0]);
      PlayKeepsTrue(s, moves[0]);
      TrueLooksDoNotSlip(s, moves[0]);
      assert ExcessAfter(s, moves[0], excess) == excess;
      NothingSlips(Play(s, moves[0]), moves[1..], excess);
    }
  }

  /** In every run without a conflict all counts are exact at rest, and a loop's bit is right if and only if the last
      update of it was not stale. */
  lemma WithoutConflict(id: int, loopCount: nat, moves: seq<Move>)
    requires loopCount <= 64 && AllPossible(Empty(id, loopCount), moves) && NeverConflict(Empty(id, loopCount), moves)
    ensures var s, wrong := PlayAll(Empty(id, loopCount), moves), B.LastStale(Empty(id, loopCount), moves, {});
      AtRest(s) ==>
        && R.CountsExact(s.r)
        && (forall i | 0 <= i < loopCount :: (Bit(s.r.active, i) <==> s.r.shards[i] != map[]) <==> i !in wrong)
        && (R.BitmapExact(s.r) <==> forall i | 0 <= i < loopCount :: i !in wrong)
  {
    hide Bit, R.BitmapExact, R.CountsExact;
    NothingSlips(Empty(id, loopCount), moves, NoExcess(loopCount));
    CountsExactIffSlipsCancel(id, loopCount, moves);
    B.BitmapExactIff(id, loopCount, moves);
  }

  /** And in every such run in which no Remove deletes a connection whose Add is still at work, with positive clock
      readings, an emptied room at rest carries a date. */
  lemma EmptiedRoomIsDatedWithoutConflict(id: int, loopCount: nat, before: seq<Move>, after: seq<Move>)
    requires loopCount <= 64 && AllPossible(Empty(id, loopCount), before)
    requires NeverConflict(Empty(id, loopCount), before) && Occupied(PlayAll(Empty(id, loopCount), before).r)
    requires AllPossible(PlayAll(Empty(id, loopCount), before), after)
    requires NeverConflict(PlayAll(Empty(id, loopCount), before), after)
    requires D.AllBacked(PlayAll(Empty(id, loopCount), before), after)
    requires D.AllTimed(before) && D.AllTimed(after)
    ensures var t := PlayAll(PlayAll(Empty(id, loopCount), before), after);
      AtRest(t) && !Occupied(t.r) ==> t.r.lastEmpty > 0
  {
    hide Occupied, Play, R.Sum, NoConflict;
    var start, none := Empty(id, loopCount), NoExcess(loopCount);
    R.SumZeros(loopCount);
    NothingSlips(start, before, none);
    NothingSlips(PlayAll(start, before), after, none);
    D.EmptiedRoomIsDated(id, loopCount, before, after);
  }

  // ----- two runs that slip ----------------------------------------------------------------------------------------

  /** What an Add has left to do once it has written its connection. */
  lemma AddFromWrite(r: R.Room, h: Handle, i: nat, now: int)
    requires i < |r.shards| == |r.counts| <= 64
    ensures Advances(r, AddInserted(h), i, now, 4) ==
      (r.(local := r.local + 1, counts := r.counts[i := r.counts[i] + 1],
          active := if r.counts[i] == 0 then SetBit(r.active, i) else r.active, lastEmpty := 0), Idle)
  {
    hide Advances, SetBit, ClearBit;
    AdvancesUnfolds(r, AddInserted(h), i, now, 4);
    var (r1, p1) := AdvanceOn(r, AddInserted(h), i, now);
    AdvancesUnfolds(r1, p1, i, now, 3);
    var (r2, p2) := AdvanceOn(r1, p1, i, now);
    AdvancesUnfolds(r2, p2, i, now, 2);
    var (r3, p3) := AdvanceOn(r2, p2, i, now);
    AdvancesUnfolds(r3, p3, i, now, 1);
    AdvancesAtRest(AdvanceOn(r3, p3, i, now).0, i, now, 0);
  }

  const START := Empty(1, 1)
  const CONN := R.Conn.Conn(0)
  const ADD := AddFetched(HERE, "a", CONN)
  const REMOVE := RemFetched(HERE, "a")

  lemma Joins(s: Race, pc: Pc) returns (t: Race)
    requires Leads(START, s) && Fetched(pc)
    ensures Leads(START, t) && t == s.(workers := s.workers + [Worker(0, Unlooked, pc)])
  {
    hide Leads;
    LeadsKeepsShape(START, s);
    LeadsKeepLoops(s);
    LeadsOn(START, s, Begin(0, pc));
    t := Play(s, Begin(0, pc));
  }

  lemma LeadsKeepLoops(s: Race)
    requires Leads(START, s)
    ensures |s.r.shards| == |s.r.counts| == 1
  {
  }

  lemma Steps(s: Race, w: nat, now: int) returns (t: Race)
    requires Leads(START, s) && w < |s.workers| && !s.workers[w].pc.Idle?
    ensures Leads(START, t) && Fits(s) && Possible(s, Go(w, now)) && t == Play(s, Go(w, now))
  {
    hide Leads, Play;
    LeadsKeepsShape(START, s);
    LeadsOn(START, s, Go(w, now));
    t := Play(s, Go(w, now));
  }

  /** Two Adds have seen the same connection absent, and both have written it. */
  lemma TwoAddsWrite() returns (s: Race)
    ensures Leads(START, s) && s.r == START.r.(shards := [map["a" := CONN]])
    ensures s.workers == [Worker(0, Unlooked, AddInserted(HERE)), Worker(0, Unlooked, AddInserted(HERE))]
  {
    hide Leads, AdvanceOn;
    LeadsItself(START);
    s := Joins(START, ADD);
    s := Joins(s, ADD);
    s := Steps(s, 0, 1);
    assert s.workers[0] == Worker(0, Absent, ADD);
    s := Steps(s, 1, 1);
    assert s.workers == [Worker(0, Absent, ADD), Worker(0, Absent, ADD)] && s.r == START.r;
    s := Steps(s, 0, 1);
    assert s.r.shards == [map["a" := CONN]];
    s := Steps(s, 1, 1);
    assert map["a" := CONN]["a" := CONN] == map["a" := CONN];
    assert s.r.shards == [map["a" := CONN]];
  }

  /** One connection joins twice at once and then leaves. At rest the room is empty, is counted as holding one, has
      its bit set and no date: it is never evicted. */
  lemma TwoAddsOverCount()
    ensures exists s ::
      && Leads(START, s) && AtRest(s) && s.r.shards == [map[]]
      && s.r.local == 1 && s.r.counts == [1] && Bit(s.r.active, 0) && s.r.lastEmpty == 0
  {
    hide Leads, Advances, SetBit, ClearBit, Bit, AdvanceOn;
    var s := TwoAddsWrite();
    AddFromWrite(s.r, HERE, 0, 1);
    s := GoAlone(START, s, 0, 1, 4);
    AddFromWrite(s.r, HERE, 0, 1);
    s := GoAlone(START, s, 1, 1, 4);
    assert s.r.counts == [2] && s.r.local == 2 && s.r.active == SetBit(0, 0);
    s := Joins(s, REMOVE);
    SoloRemove(s.r, HERE, "a", 0, 1);
    s := GoAlone(START, s, 2, 1, 6);
    SetBitBits(0, 0, 0);
    assert s.r.shards == [map[]] && s.r.counts == [1];
  }

  /** A connection is in the room; a second Add has found it there, and a Remove takes it out. */
  lemma RemovedAfterLookup() returns (s: Race)
    ensures Leads(START, s) && s.r.shards == [map[]] && s.r.local == 0 && s.r.counts == [0] && s.r.lastEmpty == 1
    ensures s.workers == [Worker(0, Unlooked, Idle), Worker(0, Present, ADD), Worker(0, Unlooked, Idle)]
  {
    hide Leads, Advances, SetBit, ClearBit, AdvanceOn;
    LeadsItself(START);
    s := Joins(START, ADD);
    SoloAdd(s.r, HERE, "a", CONN, 0, 1);
    s := GoAlone(START, s, 0, 1, 5);
    assert s.r.shards == [map["a" := CONN]] && s.r.counts == [1] && s.r.local == 1;
    s := Joins(s, ADD);
    s := Steps(s, 1, 1);
    assert s.workers[1] == Worker(0, Present, ADD);
    s := Joins(s, REMOVE);
    SoloRemove(s.r, HERE, "a", 0, 1);
    s := GoAlone(START, s, 2, 1, 6);
    assert s.r.shards == [map[]];
  }

  /** The second Add writes the connection back. At rest the room holds it under a count of 0 and a date, so that the
      cleaner drops it. */
  lemma WriteBackIsNotCounted()
    ensures exists s ::
      && Leads(START, s) && AtRest(s) && s.r.shards == [map["a" := CONN]]
      && s.r.local == 0 && s.r.counts == [0] && s.r.lastEmpty == 1
  {
    hide Leads, AdvanceOn;
    var s := RemovedAfterLookup();
    s := Steps(s, 1, 1);
    assert s.workers == [Worker(0, Unlooked, Idle), Worker(0, Unlooked, Idle), Worker(0, Unlooked, Idle)];
    assert s.r.shards == [map["a" := CONN]];
  }
}
