/** internal/room/manager.go: LastEmptyTime, by which the cleaner finds an emptied room, when several operations are
    at work on one loop index: the worker pool's Adds and the event loop's Remove of the same connection. */
module RaceDates {
  import R = Rooms
  import I = RoomIdle
  import opened RoomAlone
  import opened RoomRaces
  import opened RoomSteps

  /** Worker w is a Remove that has deleted its connection and may still store a date. */
  predicate Leaves(s: Race, w: int) {
    0 <= w < |s.workers| && I.Leaving(s.workers[w].pc, HERE)
  }

  /** The room has a date, or a connection, or somebody who may still date it. */
  ghost predicate Tended(s: Race) {
    s.r.lastEmpty > 0 || Occupied(s.r) || exists w :: Leaves(s, w)
  }

  /** Clock readings are positive. */
  predicate Timed(m: Move) {
    m.Go? ==> m.now > 0
  }

  ghost predicate Clocked(s: Race) {
    forall w | 0 <= w < |s.workers| && s.workers[w].pc.RemStoring? :: s.workers[w].pc.now > 0
  }

  // ----- one step --------------------------------------------------------------------------------------------------

  /** With no connection left and nobody else about to date the room, an Add clears the date, or a Remove sees a
      count other than 0 and stores none. */
  ghost predicate Forgets(s: Race, m: Move)
    requires Possible(s, m)
  {
    && m.Go? && !Occupied(s.r)
    && (forall w | w != m.w :: !Leaves(s, w))
    && var pc := s.workers[m.w].pc;
    pc.AddMarked? || (pc.RemMarked? && s.r.local != 0 && s.r.lastEmpty <= 0)
  }

  lemma PlayKeepsClocks(s: Race, m: Move)
    requires Fits(s) && Possible(s, m) && Clocked(s) && Timed(m)
    ensures Clocked(Play(s, m))
  {
  }

  /** A step leaves the room untended exactly when it forgets it, and only a write to a shard tends it again: an Add's,
      because there is a connection, or a Remove's, because it will look at the count. */
  lemma TendedAfter(s: Race, m: Move)
    requires Fits(s) && Possible(s, m) && Clocked(s) && Timed(m)
    ensures Tended(Play(s, m)) <==> if Tended(s) then !Forgets(s, m) else Writes(s, m)
  {
    var t := Play(s, m);
    match m
    case Begin(_, _) =>
      forall w
        ensures Leaves(t, w) <==> Leaves(s, w)
      {
      }
    case Go(v, now) =>
      var p, i := s.workers[v].pc, s.workers[v].loop;
      OthersLeave(s, m);
      if Writes(s, m) {
        WriteTends(s, v, now);
      } else {
        assert t.r.shards == s.r.shards;
        assert Occupied(t.r) <==> Occupied(s.r) by {
          assert forall j :: Occupies(t.r, j) <==> Occupies(s.r, j);
        }
        UncheckedStep(s, v, now);
      }
  }

  lemma OthersLeave(s: Race, m: Move)
    requires Fits(s) && Possible(s, m) && m.Go?
    ensures forall w | w != m.w :: Leaves(Play(s, m), w) <==> Leaves(s, w)
  {
    hide WorkOn;
  }

  /** An Add's write leaves a connection; a Remove's write leaves its worker about to look at the count. */
  lemma WriteTends(s: Race, v: nat, now: int)
    requires Fits(s) && Possible(s, Go(v, now)) && Writes(s, Go(v, now))
    ensures Tended(Play(s, Go(v, now))) && !Forgets(s, Go(v, now))
  {
    hide AdvanceOn;
    var t, w := Play(s, Go(v, now)), s.workers[v];
    if w.pc.AddFetched? {
      assert w.pc.conn in t.r.shards[w.loop] && Occupies(t.r, w.loop);
    } else {
      assert Leaves(t, v);
    }
  }

  lemma UncheckedStep(s: Race, v: nat, now: int)
    requires Fits(s) && Possible(s, Go(v, now)) && Clocked(s) && now > 0 && !Writes(s, Go(v, now))
    requires Occupied(Play(s, Go(v, now)).r) <==> Occupied(s.r)
    requires forall w | w != v :: Leaves(Play(s, Go(v, now)), w) <==> Leaves(s, w)
    ensures Tended(Play(s, Go(v, now))) <==> Tended(s) && !Forgets(s, Go(v, now))
  {
    hide Occupied;
    var t, p := Play(s, Go(v, now)), s.workers[v].pc;
    assert Leaves(s, v) <==> I.Leaving(p, HERE);
    assert Leaves(t, v) <==> I.Leaving(t.workers[v].pc, HERE);
    if w :| w != v && Leaves(s, w) {
      assert Leaves(t, w);
    }
    if w :| w != v && Leaves(t, w) {
      assert Leaves(s, w);
    }
  }

  // ----- whole runs ------------------------------------------------------------------------------------------------

  predicate AllTimed(moves: seq<Move>) {
    forall k | 0 <= k < |moves| :: Timed(moves[k])
  }

  /** A shard of the room was written, or the room was tended to begin with, and no step has forgotten the room
      since. */
  ghost predicate Remembered(s: Race, moves: seq<Move>, tended: bool)
    requires Fits(s) && AllPossible(s, moves)
    decreases |moves|
  {
    if moves == [] then tended
    else
      PlayKeepsShape(s, moves[0]);
      Remembered(Play(s, moves[0]), moves[1..], if tended then !Forgets(s, moves[0]) else Writes(s, moves[0]))
  }

  lemma {:induction false} RunTends(s: Race, moves: seq<Move>)
    requires Fits(s) && AllPossible(s, moves) && AllTimed(moves) && Clocked(s)
    ensures Clocked(PlayAll(s, moves)) && (Tended(PlayAll(s, moves)) <==> Remembered(s, moves, Tended(s)))
    decreases |moves|
  {
    hide Tended, Forgets, Writes, Clocked, Play;
    if moves == [] {
    } else {
      assert Timed(moves[0]);
      PlayKeepsShape(s, moves[0]);
      PlayKeepsClocks(s, moves[0]);
      TendedAfter(s, moves[0]);
      RunTends(Play(s, moves[0]), moves[1..]);
    }
  }

  /** After every run with positive clock readings, a room at rest without a connection carries a date if and only
      if some shard of it was written and no step has forgotten it since. */
  lemma EmptyRoomIsDatedIff(id: int, loopCount: nat, moves: seq<Move>)
    requires loopCount <= 64 && AllPossible(Empty(id, loopCount), moves)
    requires AllTimed(moves)
    ensures var s := PlayAll(Empty(id, loopCount), moves);
      AtRest(s) && !Occupied(s.r) ==> (s.r.lastEmpty > 0 <==> Remembered(Empty(id, loopCount), moves, false))
  {
    hide Occupied;
    var start := Empty(id, loopCount);
    RunTends(start, moves);
    EmptyIsUntended(id, loopCount);
    var s := PlayAll(start, moves);
    if AtRest(s) {
      forall w
        ensures !Leaves(s, w)
      {
      }
    }
  }

  lemma EmptyIsUntended(id: int, loopCount: nat)
    requires loopCount <= 64
    ensures !Tended(Empty(id, loopCount)) && Clocked(Empty(id, loopCount))
  {
  }

  // ----- when nothing is forgotten --------------------------------------------------------------------------------

  /** The Adds on loop i that have written their connection and are still at work. */
  function WrittenOn(workers: seq<Worker>, i: int): nat {
    if workers == [] then 0
    else
      var last := workers[|workers| - 1];
      WrittenOn(workers[..|workers| - 1], i) + if last.loop == i && I.Written(last.pc) then 1 else 0
  }

  /** No Remove has deleted the connection of an Add still at work: each shard keeps at least as many. */
  ghost predicate Backed(s: Race) {
    forall i | 0 <= i < |s.r.shards| :: WrittenOn(s.workers, i) <= |s.r.shards[i]|
  }

  lemma {:induction false} WrittenCounts(workers: seq<Worker>, w: nat)
    requires w < |workers| && I.Written(workers[w].pc)
    ensures WrittenOn(workers, workers[w].loop) > 0
    decreases |workers|
  {
    if w == |workers| - 1 {
    } else {
      WrittenCounts(workers[..|workers| - 1], w);
    }
  }

  lemma BackedAddsOccupy(s: Race, w: nat)
    requires Fits(s) && Backed(s) && w < |s.workers| && I.Written(s.workers[w].pc)
    ensures Occupied(s.r)
  {
    WrittenCounts(s.workers, w);
    assert Occupies(s.r, s.workers[w].loop);
  }

  lemma BackedIsNotForgotten(s: Race, excess: seq<int>, m: Move)
    requires Balanced(s, excess) && Backed(s) && R.Sum(excess) == 0 && Possible(s, m)
    ensures !Forgets(s, m)
  {
    hide LocalLags, ShardLags, Sizes, Occupied, R.Sum;
    if Forgets(s, m) {
      if s.workers[m.w].pc.AddMarked? {
        BackedAddsOccupy(s, m.w);
      } else {
        forall w | 0 <= w < |s.workers|
          ensures !s.workers[w].pc.AddInserted? && !s.workers[w].pc.RemDeleted?
        {
          if I.Written(s.workers[w].pc) {
            BackedAddsOccupy(s, w);
          }
          assert w != m.w ==> !Leaves(s, w);
        }
        NoInsertionsLag(s.workers);
        NoSizes(s.r, |s.r.shards|);
      }
    }
  }

  ghost predicate AllBacked(s: Race, moves: seq<Move>)
    requires Fits(s) && AllPossible(s, moves)
    decreases |moves|
  {
    Backed(s) &&
    (moves == [] || (PlayKeepsShape(s, moves[0]); AllBacked(Play(s, moves[0]), moves[1..])))
  }

  /** In every state the slips have cancelled out. */
  predicate AllEven(s: Race, moves: seq<Move>, excess: seq<int>)
    requires Fits(s) && AllPossible(s, moves) && |excess| == |s.r.shards|
    decreases |moves|
  {
    R.Sum(excess) == 0 &&
    (moves == [] ||
     (PlayKeepsShape(s, moves[0]); AllEven(Play(s, moves[0]), moves[1..], ExcessAfter(s, moves[0], excess))))
  }

  lemma {:induction false} BackedRunsRemember(s: Race, moves: seq<Move>, excess: seq<int>)
    requires Balanced(s, excess) && AllPossible(s, moves) && AllBacked(s, moves) && AllEven(s, moves, excess)
    ensures Remembered(s, moves, true)
    decreases |moves|
  {
    hide Forgets, Writes, Play, Backed, ExcessAfter, LocalLags, ShardLags, Sizes, R.Sum;
    if moves == [] {
    } else {
      PlayKeepsCounts(s, moves[0], excess);
      BackedIsNotForgotten(s, excess, moves[0]);
      BackedRunsRemember(Play(s, moves[0]), moves[1..], ExcessAfter(s, moves[0], excess));
    }
  }

  /** In every run in which no Remove deletes a connection whose Add is still at work, and the slips have cancelled
      out whenever somebody takes a step, with positive clock readings: a room that had a connection, has none and is at
      rest carries a date. */
  lemma EmptiedRoomIsDated(id: int, loopCount: nat, before: seq<Move>, after: seq<Move>)
    requires loopCount <= 64 && AllPossible(Empty(id, loopCount), before)
    requires Occupied(PlayAll(Empty(id, loopCount), before).r)
    requires AllPossible(PlayAll(Empty(id, loopCount), before), after)
    requires AllBacked(PlayAll(Empty(id, loopCount), before), after)
    requires AllEven(PlayAll(Empty(id, loopCount), before), after,
                     LastExcess(Empty(id, loopCount), before, NoExcess(loopCount)))
    requires AllTimed(before) && AllTimed(after)
    ensures var t := PlayAll(PlayAll(Empty(id, loopCount), before), after);
      AtRest(t) && !Occupied(t.r) ==> t.r.lastEmpty > 0
  {
    hide Occupied, Play, LocalLags, ShardLags, Sizes, R.Sum;
    EmptyIsUntended(id, loopCount);
    EmptyIsBalanced(id, loopCount);
    var start := Empty(id, loopCount);
    RunTends(start, before);
    RunKeepsCounts(start, before, NoExcess(loopCount));
    var s := PlayAll(start, before);
    RunTends(s, after);
    BackedRunsRemember(s, after, LastExcess(start, before, NoExcess(loopCount)));
    var t := PlayAll(s, after);
    if AtRest(t) {
      forall w
        ensures !Leaves(t, w)
      {
      }
    }
  }

  // ----- how a room is forgotten ----------------------------------------------------------------------------------

  /** The steps an Add that has written its connection has left. */
  function Left(pc: Pc): nat {
    match pc
    case AddInserted(_) => 4
    case AddCounted(_) => 3
    case AddShardCounted(_, _) => 2
    case AddMarked(_) => 1
    case _ => 0
  }

  /** Alone, it ends by clearing the date. */
  lemma {:induction false} AddFinishes(r: R.Room, p: Pc, i: nat, now: int, n: nat)
    requires i < |r.shards| == |r.counts| <= 64 && I.Written(p) && n >= Left(p)
    ensures var (r', p') := Advances(r, p, i, now, n); p' == Idle && r'.shards == r.shards && r'.lastEmpty == 0
    decreases n
  {
    hide Advances;
    AdvancesUnfolds(r, p, i, now, n);
    var (r', p') := AdvanceOn(r, p, i, now);
    if p.AddMarked? {
      AdvancesAtRest(r', i, now, n - 1);
    } else {
      AddFinishes(r', p', i, now, n - 1);
    }
  }

  function Remaining(pc: Pc): nat {
    match pc
    case RemDeleted(_) => 5
    case RemCounted(_) => 4
    case RemShardCounted(_, _) => 3
    case RemMarked(_) => 2
    case RemStoring(_, _) => 1
    case _ => 0
  }

  lemma {:induction false} RemoveFinishes(r: R.Room, p: Pc, i: nat, now: int, n: nat)
    requires i < |r.shards| == |r.counts| <= 64 && Remaining(p) > 0 && n >= Remaining(p)
    ensures var (r', p') := Advances(r, p, i, now, n); p' == Idle && r'.shards == r.shards
    decreases n
  {
    hide Advances;
    AdvancesUnfolds(r, p, i, now, n);
    var (r', p') := AdvanceOn(r, p, i, now);
    if p'.Idle? {
      AdvancesAtRest(r', i, now, n - 1);
    } else {
      RemoveFinishes(r', p', i, now, n - 1);
    }
  }

  /** The converse: wherever a Remove has deleted the last connection while its Add is written and unfinished, and
      nobody else is at work, some continuation ends at rest with the room empty and undated. */
  lemma DeletedUnderItsAddCanBeForgotten(start: Race, s: Race, a: nat, d: nat, now: int) returns (t: Race)
    requires Leads(start, s) && a < |s.workers| && d < |s.workers|
    requires I.Written(s.workers[a].pc) && Remaining(s.workers[d].pc) > 0 && !Occupied(s.r)
    requires forall w | 0 <= w < |s.workers| && w != a && w != d :: s.workers[w].pc.Idle?
    ensures Leads(start, t) && AtRest(t) && !Occupied(t.r) && t.r.lastEmpty == 0
  {
    hide Leads, Advances, Occupied;
    LeadsKeepsShape(start, s);
    RemoveFinishes(s.r, s.workers[d].pc, s.workers[d].loop, now, 5);
    var u := GoAlone(start, s, d, now, 5);
    LeadsKeepsShape(start, u);
    AddFinishes(u.r, u.workers[a].pc, u.workers[a].loop, now, 4);
    t := GoAlone(start, u, a, now, 4);
    SameShards(s.r, t.r);
  }

  lemma SameShards(r: R.Room, r': R.Room)
    requires r'.shards == r.shards && !Occupied(r)
    ensures !Occupied(r')
  {
    forall i
      ensures !Occupies(r', i)
    {
      assert !Occupies(r, i);
    }
  }

  /** Such a state is reachable with one loop: the worker pool has written a connection, and OnClose deletes it. */
  lemma EmptiedRoomCanBeForgotten()
    ensures exists s, t ::
      && Leads(Empty(1, 1), s) && Occupied(s.r)
      && Leads(s, t) && AtRest(t) && !Occupied(t.r) && t.r.lastEmpty == 0
  {
    hide Leads, Advances;
    var s := ConnectionWritten();
    LeadsKeepsShape(Empty(1, 1), s);
    LeadsItself(s);
    var u := DeletedUnderItsAdd(s);
    var t := DeletedUnderItsAddCanBeForgotten(s, u, 0, 1, 1);
  }

  lemma ConnectionWritten() returns (s: Race)
    ensures Leads(Empty(1, 1), s) && Occupied(s.r)
    ensures s.r.shards == [map["a" := R.Conn.Conn(0)]] && s.workers == [Worker(0, Unlooked, AddInserted(HERE))]
  {
    hide Leads, Advances, AdvanceOn;
    var start, c := Empty(1, 1), R.Conn.Conn(0);
    LeadsItself(start);
    LeadsOn(start, start, Begin(0, AddFetched(HERE, "a", c)));
    var s1 := Play(start, Begin(0, AddFetched(HERE, "a", c)));
    LeadsOn(start, s1, Go(0, 1));
    var s2 := Play(s1, Go(0, 1));
    LeadsOn(start, s2, Go(0, 1));
    s := Play(s2, Go(0, 1));
    assert "a" in s.r.shards[0] && Occupies(s.r, 0);
  }

  lemma DeletedUnderItsAdd(s: Race) returns (t: Race)
    requires Fits(s) && Leads(s, s)
    requires s.r.shards == [map["a" := R.Conn.Conn(0)]] && s.workers == [Worker(0, Unlooked, AddInserted(HERE))]
    ensures Leads(s, t) && !Occupied(t.r)
    ensures t.workers == [Worker(0, Unlooked, AddInserted(HERE)), Worker(0, Unlooked, RemDeleted(HERE))]
  {
    hide Leads, Advances, AdvanceOn;
    LeadsOn(s, s, Begin(0, RemFetched(HERE, "a")));
    var s1 := Play(s, Begin(0, RemFetched(HERE, "a")));
    LeadsOn(s, s1, Go(1, 1));
    var s2 := Play(s1, Go(1, 1));
    LeadsOn(s, s2, Go(1, 1));
    t := Play(s2, Go(1, 1));
    assert t.r.shards == [map[]];
  }

  // ----- the date of a room with a connection ----------------------------------------------------------------------

  /** The Removes that may be about to store a date wrongly: an Add has overtaken them since they saw a count of 0, or
      they saw it after more had slipped out of the count than into it. And whether the date is the store of one, or an
      Add has written a connection back since. */
  datatype Track = Track(late: set<int>, wrong: bool)

  const FRESH := Track({}, false)

  function Storing(s: Race): set<int> {
    set w | 0 <= w < |s.workers| && s.workers[w].pc.RemStoring?
  }

  /** An Add that had found its connection puts it back after a Remove. */
  predicate WritesBack(s: Race, m: Move)
    requires Fits(s) && Possible(s, m)
  {
    m.Go? && s.workers[m.w].pc.AddFetched? && Slip(s, m) < 0
  }

  function TrackAfter(s: Race, m: Move, k: Track, excess: seq<int>): Track
    requires Fits(s) && Possible(s, m)
  {
    if m.Begin? then k
    else
      match s.workers[m.w].pc
      case AddFetched(_, _, _) => if WritesBack(s, m) then Track(k.late + Storing(s), s.r.lastEmpty != 0) else k
      case AddMarked(_) => Track(k.late + Storing(s), false)
      case RemMarked(_) => k.(late := if R.Sum(excess) < 0 then k.late + {m.w} else k.late - {m.w})
      case RemStoring(_, _) => Track(k.late - {m.w}, m.w in k.late)
      case _ => k
  }

  predicate IsWritten(s: Race, w: int) {
    0 <= w < |s.workers| && I.Written(s.workers[w].pc)
  }

  /** If the room has a connection, some Add has yet to clear the date. */
  ghost predicate WillClear(s: Race) {
    Occupied(s.r) ==> exists w :: IsWritten(s, w)
  }

  ghost predicate Tracked(s: Race, k: Track) {
    && (Storing(s) <= k.late || WillClear(s))
    && (s.r.lastEmpty != 0 && !k.wrong ==> WillClear(s))
    && (k.wrong ==> s.r.lastEmpty != 0)
  }

  /** A step that neither clears the date nor writes a connection back keeps somebody who will clear it. */
  lemma PlayKeepsWillClear(s: Race, m: Move)
    requires Fits(s) && Possible(s, m) && WillClear(s) && !WritesBack(s, m)
    requires m.Go? ==> !s.workers[m.w].pc.AddMarked?
    ensures WillClear(Play(s, m))
  {
    hide WorkOn, Slip;
    var t := Play(s, m);
    if i :| Occupies(t.r, i) {
      if m.Go? {
        StillOccupied(s, m.w, m.now, i);
      } else {
        assert Occupies(s.r, i);
      }
      if m.Go? && t.workers[m.w].pc.AddInserted? {
        assert IsWritten(t, m.w);
      } else {
        var w :| IsWritten(s, w);
        StaysWritten(s, m, w);
      }
    }
  }

  lemma StaysWritten(s: Race, m: Move, w: int)
    requires Fits(s) && Possible(s, m) && IsWritten(s, w) && (m.Go? ==> !s.workers[m.w].pc.AddMarked?)
    ensures IsWritten(Play(s, m), w)
  {
  }

  lemma StillOccupied(s: Race, v: nat, now: int, i: int)
    requires Fits(s) && Possible(s, Go(v, now)) && Occupies(Play(s, Go(v, now)).r, i) && !WritesBack(s, Go(v, now))
    ensures Occupied(s.r) || Play(s, Go(v, now)).workers[v].pc.AddInserted?
  {
    var r, w := s.r, s.workers[v];
    if !Fetched(w.pc) {
      assert Play(s, Go(v, now)).r.shards == r.shards;
      assert Occupies(r, i);
    } else if w.pc.AddFetched? && w.look.Present? {
      assert Occupies(r, w.loop);
    } else if !w.pc.AddFetched? || w.look.Unlooked? {
      assert Occupies(r, i);
    }
  }

  /** A count of 0 means that the room is empty, that some Add has not counted its connection yet, or that more
      connections have slipped out of the count than into it. */
  lemma ZeroWillClear(s: Race, excess: seq<int>)
    requires Balanced(s, excess) && s.r.local == 0 && R.Sum(excess) >= 0
    ensures WillClear(s)
  {
    hide LocalLags, ShardLags, Sizes, R.Sum, Occupied;
    ZeroHidesOnly(s, excess);
    if Occupied(s.r) {
      var w :| 0 <= w < |s.workers| && s.workers[w].pc.AddInserted?;
      assert IsWritten(s, w);
    }
  }

  lemma PlayKeepsTracked(s: Race, m: Move, k: Track, excess: seq<int>)
    requires Balanced(s, excess) && Possible(s, m) && Clocked(s) && Tracked(s, k)
    ensures Tracked(Play(s, m), TrackAfter(s, m, k, excess))
  {
    hide LocalLags, ShardLags, Sizes, R.Sum, WillClear, Balanced, Play, Slip;
    assert Fits(s) by {
      BalancedFits(s, excess);
    }
    DateAfter(s, m);
    StoringAfter(s, m);
    if !WritesBack(s, m) && !(m.Go? && s.workers[m.w].pc.AddMarked?) {
      if WillClear(s) {
        PlayKeepsWillClear(s, m);
      }
      if m.Go? && s.workers[m.w].pc.RemMarked? && s.r.local == 0 && R.Sum(excess) >= 0 {
        ZeroWillClear(s, excess);
        PlayKeepsWillClear(s, m);
      }
    }
  }

  lemma BalancedFits(s: Race, excess: seq<int>)
    requires Balanced(s, excess)
    ensures Fits(s)
  {
  }

  lemma DateAfter(s: Race, m: Move)
    requires Fits(s) && Possible(s, m)
    ensures Play(s, m).r.lastEmpty ==
      if m.Begin? then s.r.lastEmpty
      else if s.workers[m.w].pc.AddMarked? then 0
      else if s.workers[m.w].pc.RemStoring? then s.workers[m.w].pc.now
      else s.r.lastEmpty
  {
  }

  /** Only a Remove that sees a count of 0 goes on to store a date. */
  lemma StoringAfter(s: Race, m: Move)
    requires Fits(s) && Possible(s, m)
    ensures Storing(Play(s, m)) ==
      if m.Begin? then Storing(s)
      else Storing(s) - {m.w} + if s.workers[m.w].pc.RemMarked? && s.r.local == 0 then {m.w} else {}
  {
    var t := Play(s, m);
    forall w | m.Begin? || w != m.w
      ensures w in Storing(t) <==> w in Storing(s)
    {
    }
  }

  function LastTrack(s: Race, moves: seq<Move>, k: Track, excess: seq<int>): Track
    requires Fits(s) && AllPossible(s, moves) && |excess| == |s.r.shards|
    decreases |moves|
  {
    if moves == [] then k
    else
      PlayKeepsShape(s, moves[0]);
      LastTrack(
        Play(s, moves[0]), moves[1..], TrackAfter(s, moves[0], k, excess), ExcessAfter(s, moves[0], excess))
  }

  lemma {:induction false} RunKeepsTracked(s: Race, moves: seq<Move>, k: Track, excess: seq<int>)
    requires Balanced(s, excess) && AllPossible(s, moves) && AllTimed(moves) && Clocked(s) && Tracked(s, k)
    ensures Tracked(PlayAll(s, moves), LastTrack(s, moves, k, excess))
    decreases |moves|
  {
    hide Tracked, TrackAfter, ExcessAfter, Clocked, Play, LocalLags, ShardLags, Sizes, R.Sum;
    if moves == [] {
    } else {
      assert Timed(moves[0]);
      PlayKeepsCounts(s, moves[0], excess);
      PlayKeepsClocks(s, moves[0]);
      PlayKeepsTracked(s, moves[0], k, excess);
      RunKeepsTracked(
        Play(s, moves[0]), moves[1..], TrackAfter(s, moves[0], k, excess), ExcessAfter(s, moves[0], excess));
    }
  }

  /** After every run with positive clock readings, a room at rest with a connection carries a date if and only if its
      last date was stored by a Remove that an Add had overtaken, or that saw a count of 0 after more had slipped out of
      the count than into it, or an Add has written a connection back since. */
  lemma ConnectedRoomIsDatedIff(id: int, loopCount: nat, moves: seq<Move>)
    requires loopCount <= 64 && AllPossible(Empty(id, loopCount), moves)
    requires AllTimed(moves)
    ensures var s := PlayAll(Empty(id, loopCount), moves);
      AtRest(s) && Occupied(s.r) ==>
        (s.r.lastEmpty != 0 <==> LastTrack(Empty(id, loopCount), moves, FRESH, NoExcess(loopCount)).wrong)
  {
    hide Occupied, LocalLags, ShardLags, Sizes, R.Sum, Play;
    var start := Empty(id, loopCount);
    EmptyIsUntended(id, loopCount);
    EmptyIsBalanced(id, loopCount);
    assert Tracked(start, FRESH);
    RunKeepsTracked(start, moves, FRESH, NoExcess(loopCount));
    var s := PlayAll(start, moves);
    if AtRest(s) {
      forall w
        ensures !IsWritten(s, w)
      {
      }
    }
  }

  // ----- what a dropped room can still hold --------------------------------------------------------------------------

  predicate NoNewAdds(moves: seq<Move>) {
    forall k | 0 <= k < |moves| && moves[k].Begin? :: !moves[k].pc.AddFetched?
  }

  /** Nobody holds the room for an Add that has yet to write. */
  predicate NoFetchedAdd(s: Race) {
    forall w | 0 <= w < |s.workers| :: !s.workers[w].pc.AddFetched?
  }

  lemma {:induction false} EmptyStaysEmpty(s: Race, moves: seq<Move>)
    requires Fits(s) && AllPossible(s, moves) && NoNewAdds(moves) && NoFetchedAdd(s) && !Occupied(s.r)
    ensures !Occupied(PlayAll(s, moves).r)
    decreases |moves|
  {
    hide Occupied;
    if moves == [] {
    } else {
      var m := moves[0];
      PlayKeepsShape(s, m);
      OneStepEmpty(s, m);
      EmptyStaysEmpty(Play(s, m), moves[1..]);
    }
  }

  lemma OneStepEmpty(s: Race, m: Move)
    requires Fits(s) && Possible(s, m) && NoFetchedAdd(s) && !Occupied(s.r)
    requires m.Begin? ==> !m.pc.AddFetched?
    ensures NoFetchedAdd(Play(s, m)) && !Occupied(Play(s, m).r)
  {
    var t := Play(s, m);
    forall i
      ensures !Occupies(t.r, i)
    {
      assert !Occupies(s.r, i);
    }
  }

  /** What the cleaner relies on, without the contract. Once no lookup reaches the room any more, it can come to hold a
      connection if and only if it holds one already or an Add has fetched it; and with a count of at most 0 it holds
      one only while some Add has written and not counted, or after more have slipped out of the count than into it. */
  lemma ShutRoomFillsIff(s: Race, excess: seq<int>)
    requires Balanced(s, excess)
    ensures (exists moves :: FillsBy(s, moves)) <==> Occupied(s.r) || !NoFetchedAdd(s)
    ensures s.r.local <= 0 && Occupied(s.r) ==>
      (exists w | 0 <= w < |s.workers| :: s.workers[w].pc.AddInserted?) || R.Sum(excess) < 0
  {
    hide LocalLags, ShardLags, Sizes, Occupied, R.Sum;
    ZeroHidesOnly(s, excess);
    if Occupied(s.r) {
      assert FillsBy(s, []);
    } else if w :| 0 <= w < |s.workers| && s.workers[w].pc.AddFetched? {
      FetchedAddFills(s, w);
    } else if moves :| FillsBy(s, moves) {
      EmptyStaysEmpty(s, moves);
    }
  }

  ghost predicate FillsBy(s: Race, moves: seq<Move>)
    requires Fits(s)
  {
    AllPossible(s, moves) && NoNewAdds(moves) && Occupied(PlayAll(s, moves).r)
  }

  lemma FetchedAddFills(s: Race, w: nat)
    requires Fits(s) && w < |s.workers| && s.workers[w].pc.AddFetched?
    ensures exists moves :: FillsBy(s, moves)
  {
    hide Play;
    var m := Go(w, 0);
    PlayKeepsShape(s, m);
    var t := Play(s, m);
    if Writes(s, m) {
      WrittenAddFills(s, w);
    } else {
      LookKeepsAdd(s, w);
      WrittenAddFills(t, w);
      assert [m, m][1..] == [m];
      assert PlayAll(s, [m, m]) == PlayAll(t, [m]);
      assert FillsBy(s, [m, m]);
    }
  }

  lemma LookKeepsAdd(s: Race, w: nat)
    requires Fits(s) && w < |s.workers| && s.workers[w].pc.AddFetched? && s.workers[w].look.Unlooked?
    ensures var t := Play(s, Go(w, 0));
      w < |t.workers| && t.workers[w].pc == s.workers[w].pc && !t.workers[w].look.Unlooked?
  {
  }

  lemma WrittenAddFills(s: Race, w: nat)
    requires Fits(s) && w < |s.workers| && s.workers[w].pc.AddFetched? && !s.workers[w].look.Unlooked?
    ensures FillsBy(s, [Go(w, 0)])
  {
    var m := Go(w, 0);
    PlayKeepsShape(s, m);
    assert [m][1..] == [];
    var t, i := Play(s, m), s.workers[w].loop;
    assert s.workers[w].pc.conn in t.r.shards[i] && Occupies(t.r, i);
    assert PlayAll(s, [m]) == PlayAll(t, []);
  }
}
