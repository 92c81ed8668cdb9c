/** internal/room/manager.go: LastEmptyTime, the date by which the cleaner recognizes an abandoned room, under
    interleaving: no emptied room is left without a date, and when a date means an empty room. */
module RoomIdle {
  import opened Bitmaps
  import R = Rooms
  import opened RoomAlone
  import opened RoomSteps

  // ----- the date of an emptied room ------------------------------------------------------------------------

  /** An Add that has written its connection. */
  predicate Written(p: Pc) {
    p.AddInserted? || p.AddCounted? || p.AddShardCounted? || p.AddMarked?
  }

  /** A written connection stays in its shard while its Add is at work. */
  ghost predicate AddsHold(s: State) {
    forall i | 0 <= i < |s.pcs| && Written(s.pcs[i]) :: Holds(s, s.pcs[i].h, i)
  }

  /** Besides, the dates about to be stored are later than the epoch. */
  ghost predicate Steady(s: State) {
    AddsHold(s) && forall i | 0 <= i < |s.pcs| && s.pcs[i].RemStoring? :: s.pcs[i].now > 0
  }

  ghost predicate Holds(s: State, h: Handle, i: int) {
    h in s.objects && 0 <= i < |s.objects[h].shards| && s.objects[h].shards[i] != map[]
  }

  /** A Remove that has deleted its connection and will still look at the count, or has seen it at 0. */
  predicate Leaving(p: Pc, h: Handle) {
    On(p, h) && (p.RemDeleted? || p.RemCounted? || p.RemShardCounted? || p.RemMarked? || (p.RemStoring? && p.now > 0))
  }

  /** The object has a date, or a connection, or somebody who is about to date it. */
  ghost predicate Tended(s: State, h: Handle) {
    && h in s.objects
    && (s.objects[h].lastEmpty > 0
        || (exists i :: Holds(s, h, i))
        || (exists i | 0 <= i < |s.pcs| :: Leaving(s.pcs[i], h)))
  }

  lemma AdvanceHolds(s: State, i: nat, now: int)
    requires Inv(s) && i < |s.pcs| && !s.pcs[i].Idle?
    requires s.pcs[i].AddFetched? || (Written(s.pcs[i]) && Holds(s, s.pcs[i].h, i))
    ensures Holds(Step(s, Advance(i, now)), s.pcs[i].h, i)
  {
    hide ObjectExact, SetBit, ClearBit;
    var s', h := Step(s, Advance(i, now)), s.pcs[i].h;
    if s.pcs[i].AddFetched? {
      assert s.pcs[i].conn in s'.objects[h].shards[i];
    } else {
      assert s'.objects[h].shards == s.objects[h].shards;
    }
  }

  lemma StepKeepsAddsHold(s: State, e: Event)
    requires Inv(s) && AddsHold(s) && Enabled(s, e)
    ensures AddsHold(Step(s, e))
  {
    hide ObjectExact, SetBit, ClearBit;
    var s' := Step(s, e);
    forall j | 0 <= j < |s'.pcs| && Written(s'.pcs[j])
      ensures Holds(s', s'.pcs[j].h, j)
    {
      if e.Advance? && j == e.loop {
        AdvanceHolds(s, j, e.now);
      } else {
        assert s'.pcs[j] == s.pcs[j] && Holds(s, s.pcs[j].h, j);
        if e.Advance? {
          AdvanceFrame(s.objects[s.pcs[e.loop].h], s.pcs[e.loop], e.loop, e.now);
        }
      }
    }
  }

  lemma StepKeepsSteady(s: State, e: Event)
    requires Inv(s) && Steady(s) && Enabled(s, e) && (e.Advance? ==> e.now > 0)
    ensures Steady(Step(s, e))
  {
    hide ObjectExact, SetBit, ClearBit, AddsHold;
    StepKeepsAddsHold(s, e);
  }

  /** With all shards empty and no deletion left to count, the count is 0. */
  lemma {:induction false} NothingCounted(s: State, h: Handle, n: nat)
    requires Inv(s) && AddsHold(s) && h in s.objects && n <= |s.pcs|
    requires forall i :: !Holds(s, h, i)
    requires forall i | 0 <= i < |s.pcs| :: !Leaving(s.pcs[i], h) || s.pcs[i].RemMarked?
    ensures |s.objects[h].shards| == |s.pcs| && Counted(s.objects[h], s.pcs, h, n) == 0
  {
    hide ObjectExact;
    if n == 0 {
    } else {
      NothingCounted(s, h, n - 1);
      assert !Holds(s, h, n - 1);
      assert LocalLag(s.pcs[n - 1], h) == 0;
    }
  }

  lemma TendedStays(s: State, e: Event, h: Handle)
    requires Inv(s) && Steady(s) && Enabled(s, e) && (e.Advance? ==> e.now > 0)
    requires Tended(s, h)
    ensures Tended(Step(s, e), h)
  {
    hide ObjectExact, SetBit, ClearBit, Counted;
    var s' := Step(s, e);
    if !e.Advance? {
      OtherStepTended(s, e, h);
    } else if s.pcs[e.loop].h == h {
      OwnAdvanceTended(s, e.loop, e.now);
    } else {
      assert s'.objects[h] == s.objects[h];
      if i :| Holds(s, h, i) {
        assert Holds(s', h, i);
      } else if i :| 0 <= i < |s.pcs| && Leaving(s.pcs[i], h) {
        assert s'.pcs[i] == s.pcs[i];
      }
    }
  }

  lemma OtherStepTended(s: State, e: Event, h: Handle)
    requires Inv(s) && Enabled(s, e) && !e.Advance? && Tended(s, h)
    ensures Tended(Step(s, e), h)
  {
    hide ObjectExact, AdvanceOn;
    var s' := Step(s, e);
    assert s'.objects[h] == s.objects[h];
    if i :| Holds(s, h, i) {
      assert Holds(s', h, i);
    } else if i :| 0 <= i < |s.pcs| && Leaving(s.pcs[i], h) {
      assert s'.pcs[i] == s.pcs[i];
    }
  }

  lemma OwnAdvanceTended(s: State, i: nat, now: int)
    requires Inv(s) && Steady(s) && i < |s.pcs| && !s.pcs[i].Idle? && now > 0 && Tended(s, s.pcs[i].h)
    ensures Tended(Step(s, Advance(i, now)), s.pcs[i].h)
  {
    hide ObjectExact, SetBit, ClearBit, Counted;
    var s', p, h := Step(s, Advance(i, now)), s.pcs[i], s.pcs[i].h;
    assert s'.pcs[i] == AdvanceOn(s.objects[h], p, i, now).1;
    if p.AddFetched? || Written(p) {
      AdvanceHolds(s, i, now);
    } else if Leaving(s'.pcs[i], h) {
    } else if j :| Holds(s, h, j) && (j != i || !p.RemFetched?) {
      assert Holds(s', h, j);
    } else if j :| 0 <= j < |s.pcs| && j != i && Leaving(s.pcs[j], h) {
      assert s'.pcs[j] == s.pcs[j];
    } else if p.RemMarked? {
      NothingCounted(s, h, |s.pcs|);
      LocalIsCounted(s, h);
    } else if p.RemStoring? {
    } else {
      assert p.RemFetched?;
      assert s'.objects[h] == s.objects[h];
      if j :| Holds(s, h, j) {
        assert Holds(s', h, j);
      }
    }
  }

  lemma LocalIsCounted(s: State, h: Handle)
    requires Inv(s) && h in s.objects
    ensures |s.objects[h].shards| == |s.pcs| && s.objects[h].local == Counted(s.objects[h], s.pcs, h, |s.pcs|)
  {
    assert ObjectExact(s.objects[h], s.pcs, h);
  }

  lemma {:induction false} RunStaysTended(states: seq<State>, events: seq<Event>, l: nat, k: nat, h: Handle)
    requires IsRun(states, events) && l <= k <= |events|
    requires Inv(states[l]) && Steady(states[l]) && Tended(states[l], h)
    requires forall m | 0 <= m < |events| && events[m].Advance? :: events[m].now > 0
    ensures Tended(states[k], h)
    decreases k - l
  {
    hide Inv, Steady, Tended, Step;
    if l == k {
    } else {
      StepKeepsInv(states[l], events[l]);
      StepKeepsSteady(states[l], events[l]);
      TendedStays(states[l], events[l], h);
      RunStaysTended(states, events, l + 1, k, h);
    }
  }

  lemma {:induction false} RunKeepsSteady(states: seq<State>, events: seq<Event>, k: nat)
    requires IsRun(states, events) && Inv(states[0]) && Steady(states[0]) && k <= |events|
    requires forall m | 0 <= m < |events| && events[m].Advance? :: events[m].now > 0
    ensures Inv(states[k]) && Steady(states[k])
  {
    hide Inv, Steady, Step;
    if k == 0 {
    } else {
      RunKeepsSteady(states, events, k - 1);
      StepKeepsInv(states[k - 1], events[k - 1]);
      StepKeepsSteady(states[k - 1], events[k - 1]);
    }
  }

  lemma {:induction false} RunKeepsAddsHold(states: seq<State>, events: seq<Event>, k: nat)
    requires IsRun(states, events) && Inv(states[0]) && AddsHold(states[0]) && k <= |events|
    ensures Inv(states[k]) && AddsHold(states[k])
  {
    hide Inv, AddsHold, Step;
    if k == 0 {
    } else {
      RunKeepsAddsHold(states, events, k - 1);
      StepKeepsInv(states[k - 1], events[k - 1]);
      StepKeepsAddsHold(states[k - 1], events[k - 1]);
    }
  }

  lemma ReachableStatesHold(loopCount: nat, s: State)
    requires loopCount <= 64 && Reaches(Init(loopCount), s)
    ensures Inv(s) && AddsHold(s)
  {
    hide Inv;
    InitInv(loopCount);
    var states, events :| IsRun(states, events) && states[0] == Init(loopCount) && states[|events|] == s;
    RunKeepsAddsHold(states, events, |events|);
  }

  /** No emptied room is forgotten: in every interleaving, a room that ever had a connection, has none, and has
      nobody working on it carries a date, so that the cleaner will find it. */
  lemma NoRoomIsForgotten(loopCount: nat, states: seq<State>, events: seq<Event>, l: nat, k: nat, h: Handle, loop: nat)
    requires loopCount <= 64 && IsRun(states, events) && states[0] == Init(loopCount) && l <= k <= |events|
    requires forall m | 0 <= m < |events| && events[m].Advance? :: events[m].now > 0
    requires Holds(states[l], h, loop)
    ensures h in states[k].objects
    ensures
      && (forall i :: !Holds(states[k], h, i))
      && (forall i | 0 <= i < |states[k].pcs| :: !On(states[k].pcs[i], h)) ==>
        states[k].objects[h].lastEmpty > 0
  {
    hide Inv;
    InitInv(loopCount);
    RunKeepsSteady(states, events, l);
    RunStaysTended(states, events, l, k, h);
  }

  // ----- when a date means an empty room ------------------------------------------------------------------------

  /** An Add clears the date while a Remove that saw a count of 0 has yet to store one. */
  predicate Overtakes(s: State, e: Event, h: Handle) {
    && e.Advance? && e.loop < |s.pcs| && s.pcs[e.loop] == AddMarked(h)
    && exists i | 0 <= i < |s.pcs| :: s.pcs[i].RemStoring? && s.pcs[i].h == h
  }

  /** The object has a date, or somebody is about to store one. */
  ghost predicate Dated(s: State, h: Handle) {
    && h in s.objects
    && (s.objects[h].lastEmpty != 0 || exists i | 0 <= i < |s.pcs| :: s.pcs[i].RemStoring? && s.pcs[i].h == h)
  }

  /** On a dated object every connection belongs to a loop whose Add has yet to clear the date. */
  ghost predicate Honest(s: State, h: Handle) {
    Dated(s, h) ==> forall j :: Holds(s, h, j) ==> Clears(s, h, j)
  }

  ghost predicate Clears(s: State, h: Handle, j: int) {
    0 <= j < |s.pcs| && Written(s.pcs[j]) && s.pcs[j].h == h
  }

  lemma StepKeepsHonest(s: State, e: Event, h: Handle)
    requires Inv(s) && Enabled(s, e) && Honest(s, h) && !Overtakes(s, e, h)
    ensures Honest(Step(s, e), h)
  {
    hide ObjectExact, SetBit, ClearBit, Counted;
    var s' := Step(s, e);
    if Dated(s', h) {
      forall j | Holds(s', h, j)
        ensures Clears(s', h, j)
      {
        if e.Advance? && s.pcs[e.loop].h == h {
          OwnStepHonest(s, e.loop, e.now, j);
        } else {
          OtherStepHonest(s, e, h, j);
        }
      }
    }
  }

  lemma OtherStepHonest(s: State, e: Event, h: Handle, j: int)
    requires Inv(s) && Enabled(s, e) && Honest(s, h) && !(e.Advance? && s.pcs[e.loop].h == h)
    requires Dated(Step(s, e), h) && Holds(Step(s, e), h, j)
    ensures Clears(Step(s, e), h, j)
  {
    hide ObjectExact, AdvanceOn;
    var s' := Step(s, e);
    if e.Advance? {
      AdvanceFrame(s.objects[s.pcs[e.loop].h], s.pcs[e.loop], e.loop, e.now);
    }
    if h in s.objects {
      assert s'.objects[h] == s.objects[h];
      if i :| 0 <= i < |s'.pcs| && s'.pcs[i].RemStoring? && s'.pcs[i].h == h {
        assert s.pcs[i] == s'.pcs[i];
      }
      assert Holds(s, h, j);
      assert Clears(s, h, j);
    }
  }

  lemma OwnStepHonest(s: State, i: nat, now: int, j: int)
    requires Inv(s) && i < |s.pcs| && !s.pcs[i].Idle?
    requires Honest(s, s.pcs[i].h) && !Overtakes(s, Advance(i, now), s.pcs[i].h)
    requires Dated(Step(s, Advance(i, now)), s.pcs[i].h) && Holds(Step(s, Advance(i, now)), s.pcs[i].h, j)
    ensures Clears(Step(s, Advance(i, now)), s.pcs[i].h, j)
  {
    hide ObjectExact, SetBit, ClearBit, Counted;
    var s', p, h := Step(s, Advance(i, now)), s.pcs[i], s.pcs[i].h;
    AdvanceFrame(s.objects[h], p, i, now);
    if p.RemMarked? && s'.pcs[i].RemStoring? {
      ZeroHidesOnlyUncounted(s, h, j);
    } else {
      if k :| 0 <= k < |s'.pcs| && s'.pcs[k].RemStoring? && s'.pcs[k].h == h {
        assert k == i || s.pcs[k] == s'.pcs[k];
      }
      if j == i && p.AddFetched? && s'.pcs[i].AddInserted? {
        assert Written(s'.pcs[i]);
      } else {
        assert Holds(s, h, j);
        assert Clears(s, h, j);
      }
    }
  }

  lemma {:induction false} RunKeepsHonest(states: seq<State>, events: seq<Event>, k: nat, h: Handle)
    requires IsRun(states, events) && k <= |events| && Inv(states[0]) && Honest(states[0], h)
    requires forall m | 0 <= m < k :: !Overtakes(states[m], events[m], h)
    ensures Inv(states[k]) && Honest(states[k], h)
  {
    hide Inv, Honest, Step, Overtakes;
    if k == 0 {
    } else {
      RunKeepsHonest(states, events, k - 1, h);
      StepKeepsInv(states[k - 1], events[k - 1]);
      StepKeepsHonest(states[k - 1], events[k - 1], h);
    }
  }

  /** In every run in which no Add overtakes a Remove on the room, a date means that the only connections are
      those of Adds which have yet to clear it; at rest a room with a connection has LastEmptyTime 0. */
  lemma DatesMeanEmpty(loopCount: nat, states: seq<State>, events: seq<Event>, k: nat, h: Handle)
    requires loopCount <= 64 && IsRun(states, events) && states[0] == Init(loopCount) && k <= |events|
    requires forall m | 0 <= m < k :: !Overtakes(states[m], events[m], h)
    ensures Honest(states[k], h)
    ensures
      && (exists i :: Holds(states[k], h, i))
      && (forall i | 0 <= i < |states[k].pcs| :: !On(states[k].pcs[i], h)) ==>
      h in states[k].objects && states[k].objects[h].lastEmpty == 0
  {
    hide Inv;
    InitInv(loopCount);
    RunKeepsHonest(states, events, k, h);
    if i :| Holds(states[k], h, i) {
      if Dated(states[k], h) {
        assert Clears(states[k], h, i);
      }
    }
  }

  /** The converse: after any overtaking, the Remove's store leaves a date on a room with a connection. */
  lemma OvertakingDatesAConnection(s: State, i: nat, j: nat, h: Handle, now: int)
    requires Inv(s) && Steady(s) && i < |s.pcs| && j < |s.pcs|
    requires s.pcs[j] == AddMarked(h) && s.pcs[i].RemStoring? && s.pcs[i].h == h
    ensures Overtakes(s, Advance(j, now), h)
    ensures var s' := Step(s, Advance(j, now));
      && Inv(s') && Enabled(s', Advance(i, now))
      && var s'' := Step(s', Advance(i, now));
      && Holds(s'', h, j) && s''.objects[h].lastEmpty == s.pcs[i].now > 0
      && s''.pcs == s.pcs[j := Idle][i := Idle]
  {
    hide ObjectExact;
    StepKeepsInv(s, Advance(j, now));
    assert Holds(s, h, j);
    var s' := Step(s, Advance(j, now));
    assert s'.objects[h].shards == s.objects[h].shards;
  }

  // ----- the date of a room at rest -------------------------------------------------------------------------------

  /** The loops whose Remove has been overtaken since it saw a count of 0, and whether the last write of the date was
      the store of one of them. */
  datatype Track = Track(overtaken: set<int>, bad: bool)

  function Storing(s: State, h: Handle): set<int> {
    set i | 0 <= i < |s.pcs| && s.pcs[i].RemStoring? && s.pcs[i].h == h
  }

  function TrackAfter(s: State, e: Event, h: Handle, k: Track): Track {
    if !(e.Advance? && e.loop < |s.pcs| && On(s.pcs[e.loop], h)) then k
    else
      match s.pcs[e.loop]
      case AddMarked(_) => Track(k.overtaken + Storing(s, h), false)
      case RemMarked(_) => k.(overtaken := k.overtaken - {e.loop})
      case RemStoring(_, _) => Track(k.overtaken - {e.loop}, e.loop in k.overtaken)
      case _ => k
  }

  ghost predicate AllClear(s: State, h: Handle) {
    forall j :: Holds(s, h, j) ==> Clears(s, h, j)
  }

  ghost predicate Tracked(s: State, h: Handle, k: Track) {
    && ((exists i :: i in Storing(s, h) && i !in k.overtaken) ==> AllClear(s, h))
    && (h in s.objects && s.objects[h].lastEmpty != 0 && !k.bad ==> AllClear(s, h))
    && (k.bad ==> h in s.objects && s.objects[h].lastEmpty > 0)
  }

  /** A step that neither clears nor stores the date keeps the connections clear that were. */
  lemma StepKeepsClear(s: State, e: Event, h: Handle)
    requires Inv(s) && Enabled(s, e) && h in s.objects && AllClear(s, h)
    requires !(e.Advance? && s.pcs[e.loop] == AddMarked(h))
    ensures AllClear(Step(s, e), h)
  {
    hide ObjectExact, SetBit, ClearBit, Counted;
    var s' := Step(s, e);
    if e.Advance? {
      AdvanceFrame(s.objects[s.pcs[e.loop].h], s.pcs[e.loop], e.loop, e.now);
    }
    forall j | Holds(s', h, j)
      ensures Clears(s', h, j)
    {
      assert Holds(s, h, j) ==> Clears(s, h, j);
      if !Holds(s, h, j) {
        assert e.Advance? && e.loop == j && s.pcs[j].AddFetched? && s.pcs[j].h == h;
      }
    }
  }

  lemma StepKeepsTracked(s: State, e: Event, h: Handle, k: Track)
    requires Inv(s) && Steady(s) && Enabled(s, e) && Tracked(s, h, k)
    ensures Tracked(Step(s, e), h, TrackAfter(s, e, h, k))
  {
    hide ObjectExact, SetBit, ClearBit, Counted, AllClear;
    var s', k' := Step(s, e), TrackAfter(s, e, h, k);
    if h !in s.objects {
      FreshIsClear(s, e, h);
    } else if e.Advance? && s.pcs[e.loop].h == h {
      OwnStepTracked(s, e.loop, e.now, k);
    } else {
      if AllClear(s, h) {
        StepKeepsClear(s, e, h);
      }
      OtherStepStoring(s, e, h);
    }
  }

  lemma FreshIsClear(s: State, e: Event, h: Handle)
    requires Inv(s) && Enabled(s, e) && h !in s.objects
    ensures AllClear(Step(s, e), h)
    ensures h in Step(s, e).objects ==> Step(s, e).objects[h].lastEmpty == 0
    ensures Storing(Step(s, e), h) == {}
  {
    hide ObjectExact, AdvanceOn;
    if e.Advance? {
      AdvanceFrame(s.objects[s.pcs[e.loop].h], s.pcs[e.loop], e.loop, e.now);
    }
  }

  lemma OtherStepStoring(s: State, e: Event, h: Handle)
    requires Inv(s) && Enabled(s, e) && h in s.objects && !(e.Advance? && s.pcs[e.loop].h == h)
    ensures Storing(Step(s, e), h) == Storing(s, h) && h in Step(s, e).objects
    ensures Step(s, e).objects[h] == s.objects[h]
  {
    hide ObjectExact, AdvanceOn;
    var s' := Step(s, e);
    if e.Advance? {
      AdvanceFrame(s.objects[s.pcs[e.loop].h], s.pcs[e.loop], e.loop, e.now);
    }
    forall i | 0 <= i < |s.pcs|
      ensures i in Storing(s', h) <==> i in Storing(s, h)
    {
    }
    assert |s'.pcs| == |s.pcs|;
  }

  lemma OwnStepTracked(s: State, i: nat, now: int, k: Track)
    requires Inv(s) && Steady(s) && i < |s.pcs| && !s.pcs[i].Idle? && Tracked(s, s.pcs[i].h, k)
    ensures var h := s.pcs[i].h; Tracked(Step(s, Advance(i, now)), h, TrackAfter(s, Advance(i, now), h, k))
  {
    hide ObjectExact, SetBit, ClearBit, Counted, AllClear;
    var s', p, h := Step(s, Advance(i, now)), s.pcs[i], s.pcs[i].h;
    var k' := TrackAfter(s, Advance(i, now), h, k);
    forall j | j != i
      ensures j in Storing(s', h) <==> j in Storing(s, h)
    {
    }
    assert i in Storing(s', h) <==> s'.pcs[i].RemStoring?;
    assert i in Storing(s, h) <==> p.RemStoring?;
    if AllClear(s, h) && !p.AddMarked? {
      StepKeepsClear(s, Advance(i, now), h);
    }
    if p.RemMarked? && s'.pcs[i].RemStoring? {
      ZeroIsClear(s, h);
      StepKeepsClear(s, Advance(i, now), h);
    }
    if p.RemStoring? && i !in k.overtaken {
      assert AllClear(s, h);
    }
  }

  lemma ZeroIsClear(s: State, h: Handle)
    requires Inv(s) && h in s.objects && s.objects[h].local == 0
    ensures AllClear(s, h)
  {
    hide ObjectExact;
    forall j | Holds(s, h, j)
      ensures Clears(s, h, j)
    {
      ObjectIsShaped(s, h);
      ZeroHidesOnlyUncounted(s, h, j);
    }
  }

  lemma ObjectIsShaped(s: State, h: Handle)
    requires Inv(s) && h in s.objects
    ensures |s.objects[h].shards| == |s.pcs|
  {
  }

  function TrackAt(states: seq<State>, events: seq<Event>, n: nat, h: Handle): Track
    requires n <= |events| < |states|
  {
    if n == 0 then Track({}, false) else TrackAfter(states[n - 1], events[n - 1], h, TrackAt(states, events, n - 1, h))
  }

  lemma {:induction false} RunKeepsTracked(states: seq<State>, events: seq<Event>, n: nat, h: Handle)
    requires IsRun(states, events) && n <= |events| && Inv(states[0]) && Steady(states[0])
    requires Tracked(states[0], h, Track({}, false))
    requires forall m | 0 <= m < |events| && events[m].Advance? :: events[m].now > 0
    ensures Tracked(states[n], h, TrackAt(states, events, n, h))
  {
    hide Inv, Steady, Tracked, Step, TrackAfter;
    if n == 0 {
    } else {
      RunKeepsTracked(states, events, n - 1, h);
      RunKeepsSteady(states, events, n - 1);
      StepKeepsTracked(states[n - 1], events[n - 1], h, TrackAt(states, events, n - 1, h));
    }
  }

  /** In every run with positive clock readings, a room at rest with a connection has a date if and only if the last
      write of its LastEmptyTime was the store of a Remove that an Add had overtaken. */
  lemma ConnectedRoomIsDatedIff(
    loopCount: nat, states: seq<State>, events: seq<Event>, n: nat, h: Handle, loop: nat)
    requires loopCount <= 64 && IsRun(states, events) && states[0] == Init(loopCount) && n <= |events|
    requires forall m | 0 <= m < |events| && events[m].Advance? :: events[m].now > 0
    requires Holds(states[n], h, loop) && forall i | 0 <= i < |states[n].pcs| :: !On(states[n].pcs[i], h)
    ensures states[n].objects[h].lastEmpty != 0 <==> TrackAt(states, events, n, h).bad
  {
    hide Inv, Steady;
    InitInv(loopCount);
    StartsSteady(loopCount);
    RunKeepsTracked(states, events, n, h);
    assert !Clears(states[n], h, loop);
  }

  lemma StartsSteady(loopCount: nat)
    ensures Steady(Init(loopCount))
  {
  }

  // ----- such a date is reachable -----------------------------------------------------------------------------

  /** A Remove of the only connection, up to the point where it is about to store the date. */
  lemma RemoveUpToStore(r: R.Room, h: Handle, conn: R.ConnId, i: nat, now: int)
    requires i < |r.shards| == |r.counts| <= 64 && conn in r.shards[i] && r.local == 1
    ensures Advances(r, RemFetched(h, conn), i, now, 5) ==
      (R.RemoveFromRoom(r, i, conn, now).(lastEmpty := r.lastEmpty), RemStoring(h, now))
  {
    hide Advances, SetBit, ClearBit;
    AdvancesUnfolds(r, RemFetched(h, conn), i, now, 5);
    var (r1, p1) := AdvanceOn(r, RemFetched(h, conn), i, now);
    AdvancesUnfolds(r1, p1, i, now, 4);
    var (r2, p2) := AdvanceOn(r1, p1, i, now);
    AdvancesUnfolds(r2, p2, i, now, 3);
    var (r3, p3) := AdvanceOn(r2, p2, i, now);
    AdvancesUnfolds(r3, p3, i, now, 2);
    var (r4, p4) := AdvanceOn(r3, p3, i, now);
    AdvancesUnfolds(r4, p4, i, now, 1);
    var (r5, p5) := AdvanceOn(r4, p4, i, now);
    NoAdvance(r5, p5, i, now);
  }

  /** A Remove of a room's only connection, stopped just before it stores the date. */
  lemma RemoveAlmost(start: State, s: State, i: nat, room: int, conn: R.ConnId, now: int) returns (t: State)
    requires Good(start, s) && Enabled(s, StartRemove(i, room, conn)) && room in s.table
    requires s.objects[s.table[room]].local == 1
    requires i < |s.objects[s.table[room]].shards| && conn in s.objects[s.table[room]].shards[i]
    ensures Good(start, t) && t.table == s.table && t.cleaner == s.cleaner && t.loopCount == s.loopCount
    ensures t.pcs == s.pcs[i := RemStoring(s.table[room], now)] && t.objects.Keys == s.objects.Keys
  {
    hide ObjectExact, Reaches, Advances, R.RemoveFromRoom;
    var h := s.table[room];
    GoodStep(start, s, StartRemove(i, room, conn));
    var s1 := Step(s, StartRemove(i, room, conn));
    assert s1.objects[h] == s.objects[h] && s1.pcs[i] == RemFetched(h, conn);
    RemoveUpToStore(s.objects[h], h, conn, i, now);
    t := GoodAdvances(start, s1, i, now, 5);
  }

  /** With two loops a room at rest can have a connection and a date, although each operation alone would leave
      no date on a room with connections: a Remove stores the date it decided on before the last Add. */
  lemma DatesOutliveReturns()
    ensures exists s, h ::
      && Reaches(Init(2), s) && Holds(s, h, 1) && s.objects[h].lastEmpty > 0
      && forall i | 0 <= i < |s.pcs| :: s.pcs[i].Idle?
  {
    hide ObjectExact, Reaches, SetBit, ClearBit, AdvanceOn;
    var a, b := R.Conn.Conn(0), R.Conn.Conn(1);
    InitInv(2);
    ReachesItself(Init(2));
    var s2 := AddAlone(Init(2), Init(2), 0, 1, "a", a, 0, 1);
    assert s2.objects[0].local == 1 && "a" in s2.objects[0].shards[0] && s2.table[1] == 0;
    var s4 := RemoveAlmost(Init(2), s2, 0, 1, "a", 1);
    var s6 := AddAlone(Init(2), s4, 1, 1, "b", b, 1, 1);
    assert "b" in s6.objects[0].shards[1];
    var s7 := StoreLast(s6, 0, 1);
  }

  lemma StoreLast(s: State, h: Handle, date: int) returns (t: State)
    requires Good(Init(2), s) && s.pcs == [RemStoring(h, date), Idle] && date > 0 && Holds(s, h, 1)
    ensures Good(Init(2), t) && Holds(t, h, 1) && t.objects[h].lastEmpty > 0
    ensures forall i | 0 <= i < |t.pcs| :: t.pcs[i].Idle?
  {
    hide ObjectExact, Reaches, AdvanceOn;
    StoreDate(s.objects[h], h, date, 0, 1);
    GoodStep(Init(2), s, Advance(0, 1));
    t := Step(s, Advance(0, 1));
  }

  lemma StoreDate(r: R.Room, h: Handle, t: int, i: nat, now: int)
    requires i < |r.shards| == |r.counts| <= 64
    ensures AdvanceOn(r, RemStoring(h, t), i, now) == (r.(lastEmpty := t), Idle)
  {
  }
}
