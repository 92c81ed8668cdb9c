/** internal/room/manager.go: the ActiveLoops bitmap when several operations are at work on one loop index. */
module RaceBitmap {
  import opened Bitmaps
  import opened Collections
  import R = Rooms
  import opened RoomAlone
  import opened RoomRaces
  import opened RoomSteps

  // ----- one step --------------------------------------------------------------------------------------------------

  /** The step updates the bitmap although the count has crossed zero since the worker counted. */
  predicate Stale(s: Race, m: Move)
    requires Fits(s) && Possible(s, m)
  {
    m.Go? &&
    var Worker(i, _, pc) := s.workers[m.w];
    (pc.AddShardCounted? && pc.n == 1 && s.r.counts[i] <= 0) || (pc.RemShardCounted? && pc.n == 0 && s.r.counts[i] > 0)
  }

  /** Worker w is about to give loop i the bit its count calls for. */
  predicate Pending(s: Race, w: int, i: int)
    requires 0 <= i < |s.r.counts|
  {
    && 0 <= w < |s.workers| && s.workers[w].loop == i
    && var pc := s.workers[w].pc;
    if s.r.counts[i] > 0 then pc.AddShardCounted? && pc.n == 1 else pc.RemShardCounted? && pc.n == 0
  }

  ghost predicate BitRight(r: R.Room, i: int)
    requires 0 <= i < |r.counts| <= 64
  {
    Bit(r.active, i) <==> r.counts[i] > 0
  }

  /** The step updates the bit of loop i. */
  predicate Updates(s: Race, m: Move, i: int)
    requires Possible(s, m)
  {
    m.Go? &&
    var Worker(loop, _, pc) := s.workers[m.w];
    loop == i && ((pc.AddShardCounted? && pc.n == 1) || (pc.RemShardCounted? && pc.n == 0))
  }

  /** The loops whose last bitmap update was stale: a stale update adds its loop, any other takes it away. */
  function WrongAfter(s: Race, m: Move, wrong: set<int>): set<int>
    requires Fits(s) && Possible(s, m)
  {
    if m.Begin? then wrong
    else
      var i := s.workers[m.w].loop;
      if !Updates(s, m, i) then wrong else if Stale(s, m) then wrong + {i} else wrong - {i}
  }

  /** Either somebody is about to give loop i its bit, or the bit is right unless the last update was stale. */
  ghost predicate Explained(s: Race, i: int, wrong: set<int>)
    requires 0 <= i < |s.r.counts| <= 64
  {
    (exists w :: Pending(s, w, i)) || (BitRight(s.r, i) <==> i !in wrong)
  }

  ghost predicate BitsExplained(s: Race, wrong: set<int>) {
    && |s.r.counts| <= 64
    && (forall i | 0 <= i < |s.r.counts| :: Explained(s, i, wrong))
    && (forall i: nat | |s.r.counts| <= i < 64 :: !Bit(s.r.active, i))
    && (forall i | i in wrong :: 0 <= i < |s.r.counts|)
  }

  lemma PlayKeepsBits(s: Race, m: Move, wrong: set<int>)
    requires Fits(s) && Possible(s, m) && BitsExplained(s, wrong)
    ensures BitsExplained(Play(s, m), WrongAfter(s, m, wrong))
  {
    hide Bit, SetBit, ClearBit, Explained;
    var t := Play(s, m);
    if m.Go? {
      WorkFrame(s.r, s.workers[m.w], m.now);
    }
    forall i | 0 <= i < |t.r.counts|
      ensures Explained(t, i, WrongAfter(s, m, wrong))
    {
      if m.Go? && s.workers[m.w].loop == i {
        OwnBit(s, m.w, m.now, wrong);
      } else {
        OtherBit(s, m, i, wrong);
      }
    }
    forall i: nat | |t.r.counts| <= i < 64
      ensures !Bit(t.r.active, i)
    {
      if m.Go? {
        SameBit(s, m.w, m.now, i);
      }
    }
  }

  /** A step of one worker leaves the bits of the other loops alone. */
  lemma SameBit(s: Race, v: nat, now: int, i: nat)
    requires Fits(s) && Possible(s, Go(v, now)) && i < 64 && i != s.workers[v].loop
    ensures Bit(Play(s, Go(v, now)).r.active, i) <==> Bit(s.r.active, i)
  {
    hide AdvanceOn, Bit, LookAt;
    var w := s.workers[v];
    if !Fetched(w.pc) {
      AdvanceOtherBits(s.r, w.pc, w.loop, now, i);
    }
  }

  lemma OtherBit(s: Race, m: Move, i: nat, wrong: set<int>)
    requires Fits(s) && Possible(s, m) && i < |s.r.counts| && Explained(s, i, wrong)
    requires m.Go? ==> s.workers[m.w].loop != i
    ensures |Play(s, m).r.counts| == |s.r.counts| && Explained(Play(s, m), i, WrongAfter(s, m, wrong))
  {
    hide Bit, SetBit, ClearBit, AdvanceOn;
    var t := Play(s, m);
    if m.Go? {
      WorkFrame(s.r, s.workers[m.w], m.now);
      SameBit(s, m.w, m.now, i);
    }
    if w :| Pending(s, w, i) {
      assert Pending(t, w, i);
    }
  }

  lemma OwnBit(s: Race, v: nat, now: int, wrong: set<int>)
    requires Fits(s) && v < |s.workers| && !s.workers[v].pc.Idle? && Explained(s, s.workers[v].loop, wrong)
    ensures var t, i := Play(s, Go(v, now)), s.workers[v].loop;
      |t.r.counts| == |s.r.counts| && Explained(t, i, WrongAfter(s, Go(v, now), wrong))
  {
    hide Bit, SetBit, ClearBit;
    var t, i := Play(s, Go(v, now)), s.workers[v].loop;
    SetBitBits(s.r.active, i, i);
    ClearBitBits(s.r.active, i, i);
    if !Updates(s, Go(v, now), i) {
      if (s.r.counts[i] > 0) != (t.r.counts[i] > 0) {
        assert Pending(t, v, i);
      } else if w :| Pending(s, w, i) {
        assert w != v;
        assert Pending(t, w, i);
      }
    }
  }

  /** Right after a stale step the bit is wrong. */
  lemma StaleStepBreaksTheBit(s: Race, m: Move)
    requires Fits(s) && Possible(s, m) && Stale(s, m)
    ensures var t := Play(s, m); |t.r.counts| == |s.r.counts| <= 64 && !BitRight(t.r, s.workers[m.w].loop)
    ensures Play(s, m).r.shards == s.r.shards
  {
    hide Bit, SetBit, ClearBit;
    var i := s.workers[m.w].loop;
    SetBitBits(s.r.active, i, i);
    ClearBitBits(s.r.active, i, i);
  }

  // ----- whole runs ------------------------------------------------------------------------------------------------

  /** The loops whose last bitmap update in the run was stale. */
  function LastStale(s: Race, moves: seq<Move>, wrong: set<int>): set<int>
    requires Fits(s) && AllPossible(s, moves)
    decreases |moves|
  {
    if moves == [] then wrong
    else
      PlayKeepsShape(s, moves[0]);
      LastStale(Play(s, moves[0]), moves[1..], WrongAfter(s, moves[0], wrong))
  }

  lemma {:induction false} RunKeepsBits(s: Race, moves: seq<Move>, wrong: set<int>)
    requires Fits(s) && AllPossible(s, moves) && BitsExplained(s, wrong)
    ensures BitsExplained(PlayAll(s, moves), LastStale(s, moves, wrong))
    decreases |moves|
  {
    hide BitsExplained, Play, WrongAfter;
    if moves == [] {
    } else {
      PlayKeepsShape(s, moves[0]);
      PlayKeepsBits(s, moves[0], wrong);
      RunKeepsBits(Play(s, moves[0]), moves[1..], WrongAfter(s, moves[0], wrong));
    }
  }

  lemma NothingPending(s: Race, i: nat)
    requires AtRest(s) && i < |s.r.counts|
    ensures !exists w :: Pending(s, w, i)
  {
  }

  lemma EmptyBits(id: int, loopCount: nat)
    requires loopCount <= 64
    ensures BitsExplained(Empty(id, loopCount), {})
  {
    hide Bit;
    forall i: nat | i < 64
      ensures !Bit(0, i)
    {
      NoBits(i);
    }
  }

  /** With this excess the count of a shard says the wrong thing about whether it holds a connection. */
  predicate Misleads(size: nat, excess: int) {
    if size > 0 then size + excess <= 0 else excess > 0
  }

  /** After every run, at rest, the bit of a loop is right if and only if the last update of it was not stale and the
      slips do not mislead the loop's count, or it was stale and they do; the bitmap is exact if and only if that holds
      of every loop. */
  lemma BitmapExactIff(id: int, loopCount: nat, moves: seq<Move>)
    requires loopCount <= 64 && AllPossible(Empty(id, loopCount), moves)
    ensures var s, wrong := PlayAll(Empty(id, loopCount), moves), LastStale(Empty(id, loopCount), moves, {});
      var excess := LastExcess(Empty(id, loopCount), moves, NoExcess(loopCount));
      AtRest(s) ==>
        && (forall i | 0 <= i < loopCount ::
              (Bit(s.r.active, i) <==> s.r.shards[i] != map[]) <==>
              (i in wrong <==> Misleads(|s.r.shards[i]|, excess[i])))
        && (R.BitmapExact(s.r) <==>
              forall i | 0 <= i < loopCount :: i in wrong <==> Misleads(|s.r.shards[i]|, excess[i]))
  {
    hide Bit;
    var start := Empty(id, loopCount);
    EmptyBits(id, loopCount);
    RunKeepsBits(start, moves, {});
    var s, wrong := PlayAll(start, moves), LastStale(start, moves, {});
    var excess := LastExcess(start, moves, NoExcess(loopCount));
    if AtRest(s) {
      CountsExactIffSlipsCancel(id, loopCount, moves);
      forall i | 0 <= i < loopCount
        ensures (Bit(s.r.active, i) <==> s.r.shards[i] != map[]) <==>
          (i in wrong <==> Misleads(|s.r.shards[i]|, excess[i]))
      {
        NothingPending(s, i);
        assert Explained(s, i, wrong) && s.r.counts[i] == |s.r.shards[i]| + excess[i];
      }
    }
  }

  predicate AllFresh(s: Race, moves: seq<Move>)
    requires Fits(s) && AllPossible(s, moves)
    decreases |moves|
  {
    moves == [] ||
    (!Stale(s, moves[0]) && Slip(s, moves[0]) == 0
     && (PlayKeepsShape(s, moves[0]); AllFresh(Play(s, moves[0]), moves[1..])))
  }

  lemma {:induction false} FreshLeavesNothingWrong(s: Race, moves: seq<Move>, excess: seq<int>)
    requires Fits(s) && AllPossible(s, moves) && AllFresh(s, moves) && |excess| == |s.r.shards|
    ensures LastStale(s, moves, {}) == {} && LastExcess(s, moves, excess) == excess
    decreases |moves|
  {
    hide Play, Stale, Slip;
    if moves == [] {
    } else {
      PlayKeepsShape(s, moves[0]);
      assert WrongAfter(s, moves[0], {}) == {} && ExcessAfter(s, moves[0], excess) == excess;
      FreshLeavesNothingWrong(Play(s, moves[0]), moves[1..], excess);
    }
  }

  /** In particular, in every run without a stale step and without a slip the bitmap is exact at rest. */
  lemma BitmapSurvivesFreshRuns(id: int, loopCount: nat, moves: seq<Move>)
    requires loopCount <= 64 && AllPossible(Empty(id, loopCount), moves)
    requires AllFresh(Empty(id, loopCount), moves)
    ensures var s := PlayAll(Empty(id, loopCount), moves); AtRest(s) ==> R.BitmapExact(s.r)
  {
    hide R.BitmapExact;
    FreshLeavesNothingWrong(Empty(id, loopCount), moves, NoExcess(loopCount));
    BitmapExactIff(id, loopCount, moves);
  }

  // ----- a wrong bit -------------------------------------------------------------------------------------------------

  /** An Add comes and goes, and a Remove counts the loop's only connection down. */
  lemma RemoveAboutToClear() returns (s: Race)
    ensures Leads(Empty(1, 1), s)
    ensures s.workers == [Worker(0, Unlooked, Idle), Worker(0, Unlooked, RemShardCounted(HERE, 0))]
    ensures s.r.shards == [map[]] && s.r.counts == [0] && s.r.local == 0
  {
    hide Leads, Advances, AdvanceOn, SetBit, ClearBit, Bit;
    var start, c := Empty(1, 1), R.Conn.Conn(0);
    LeadsItself(start);
    LeadsOn(start, start, Begin(0, AddFetched(HERE, "a", c)));
    var s1 := Play(start, Begin(0, AddFetched(HERE, "a", c)));
    SoloAdd(s1.r, HERE, "a", c, 0, 1);
    var s2 := GoAlone(start, s1, 0, 1, 5);
    assert s2.r.shards == [map["a" := c]] && s2.r.counts == [1] && s2.r.local == 1;
    LeadsOn(start, s2, Begin(0, RemFetched(HERE, "a")));
    var s3 := Play(s2, Begin(0, RemFetched(HERE, "a")));
    RemoveUpToBit(s3.r, HERE, "a", 0, 1);
    s := GoAlone(start, s3, 1, 1, 3);
  }

  /** Before the Remove clears the bit, a second Add comes and goes: at rest the shard holds a connection that
      ActiveLoopIndexes does not name. */
  lemma BitmapDoesNotSurvive()
    ensures exists s ::
      && Leads(Empty(1, 1), s) && AtRest(s) && |s.r.shards| == 1 && s.r.shards[0] != map[] && !Bit(s.r.active, 0)
  {
    hide Leads, Advances, AdvanceOn, SetBit, ClearBit, Bit;
    var start, c := Empty(1, 1), R.Conn.Conn(0);
    var s1 := RemoveAboutToClear();
    LeadsOn(start, s1, Begin(0, AddFetched(HERE, "b", c)));
    var s2 := Play(s1, Begin(0, AddFetched(HERE, "b", c)));
    SoloAdd(s2.r, HERE, "b", c, 0, 1);
    var s3 := GoAlone(start, s2, 2, 1, 5);
    assert "b" in s3.r.shards[0] && s3.r.local == 1;
    assert s3.workers ==
      [Worker(0, Unlooked, Idle), Worker(0, Unlooked, RemShardCounted(HERE, 0)), Worker(0, Unlooked, Idle)];
    ClearAndLook(s3.r, HERE, 0, 1);
    var s4 := GoAlone(start, s3, 1, 1, 2);
    assert s4.workers == [Worker(0, Unlooked, Idle), Worker(0, Unlooked, Idle), Worker(0, Unlooked, Idle)];
  }

  lemma RemoveUpToBit(r: R.Room, h: Handle, conn: R.ConnId, i: nat, now: int)
    requires i < |r.shards| == |r.counts| <= 64 && conn in r.shards[i]
    ensures Advances(r, RemFetched(h, conn), i, now, 3) ==
      (r.(shards := r.shards[i := r.shards[i] - {conn}], local := r.local - 1,
          counts := r.counts[i := r.counts[i] - 1]),
       RemShardCounted(h, r.counts[i] - 1))
  {
    hide Advances;
    AdvancesUnfolds(r, RemFetched(h, conn), i, now, 3);
    var (r1, p1) := AdvanceOn(r, RemFetched(h, conn), i, now);
    AdvancesUnfolds(r1, p1, i, now, 2);
    var (r2, p2) := AdvanceOn(r1, p1, i, now);
    AdvancesUnfolds(r2, p2, i, now, 1);
    var (r3, p3) := AdvanceOn(r2, p2, i, now);
    NoAdvance(r3, p3, i, now);
  }

  lemma ClearAndLook(r: R.Room, h: Handle, i: nat, now: int)
    requires i < |r.shards| == |r.counts| <= 64 && r.local != 0
    ensures Advances(r, RemShardCounted(h, 0), i, now, 2) == (r.(active := ClearBit(r.active, i)), Idle)
    ensures !Bit(ClearBit(r.active, i), i)
  {
    hide Advances, ClearBit, Bit;
    AdvancesUnfolds(r, RemShardCounted(h, 0), i, now, 2);
    var (r1, p1) := AdvanceOn(r, RemShardCounted(h, 0), i, now);
    AdvancesUnfolds(r1, p1, i, now, 1);
    AdvancesAtRest(r1, i, now, 0);
    ClearBitBits(r.active, i, i);
  }
}
