/** internal/room/manager.go run concurrently: each event loop executes its own Add or Remove one atomic
    step at a time, and the cleaner runs beside them. A room object outlives its entry in the table when a
    loop fetched it before the cleaner deleted the entry, so objects are named by handles. */
module RoomSteps {
  import opened Bitmaps
  import opened Rooms

  type Handle = int

  /** Where a loop stands inside AddConnInLoop or RemoveConnInLoop; each name says what was done last. */
  datatype Pc =
    | Idle
    | AddFetched(h: Handle, conn: ConnId, c: Conn)
    | AddInserted(h: Handle)
    | AddCounted(h: Handle)
    | AddShardCounted(h: Handle, n: int)
    | AddMarked(h: Handle)
    | RemFetched(h: Handle, conn: ConnId)
    | RemDeleted(h: Handle)
    | RemCounted(h: Handle)
    | RemShardCounted(h: Handle, n: int)
    | RemMarked(h: Handle)
    | RemStoring(h: Handle, now: int)

  /** The cleaner, under the bucket's lock, has loaded a connection count of 0 for the room, and then a date
      that makes the room due. */
  datatype Cleaner = Waiting | SawZero(room: int) | SawDate(room: int)

  datatype State = State(
    loopCount: nat,
    objects: map<Handle, Room>,
    table: map<int, Handle>,
    pcs: seq<Pc>,
    cleaner: Cleaner)

  datatype Event =
    | StartAdd(loop: nat, room: int, conn: ConnId, c: Conn, created: Handle)
    | StartRemove(loop: nat, room: int, conn: ConnId)
    | Advance(loop: nat, now: int)
    | CleanLoad(room: int)
    | CleanDate(now: int, idle: int)
    | CleanDelete

  function Init(loopCount: nat): State {
    State(loopCount, map[], map[], seq(loopCount, _ => Idle), Waiting)
  }

  // ----- the steps ------------------------------------------------------------------------------------

  /** One atomic step of loop i, whose counter stands at p, on the room object r. */
  function AdvanceOn(r: Room, p: Pc, i: nat, now: int): (Room, Pc)
    requires !p.Idle? && i < |r.shards| == |r.counts| <= 64
  {
    match p
    case AddFetched(h, conn, c) =>
      (r.(shards := r.shards[i := r.shards[i][conn := c]]), if conn in r.shards[i] then Idle else AddInserted(h))
    case AddInserted(h) => (r.(local := r.local + 1), AddCounted(h))
    case AddCounted(h) => (r.(counts := r.counts[i := r.counts[i] + 1]), AddShardCounted(h, r.counts[i] + 1))
    case AddShardCounted(h, n) => (if n == 1 then r.(active := SetBit(r.active, i)) else r, AddMarked(h))
    case AddMarked(h) => (r.(lastEmpty := 0), Idle)
    case RemFetched(h, conn) =>
      if conn in r.shards[i] then (r.(shards := r.shards[i := r.shards[i] - {conn}]), RemDeleted(h)) else (r, Idle)
    case RemDeleted(h) => (r.(local := r.local - 1), RemCounted(h))
    case RemCounted(h) => (r.(counts := r.counts[i := r.counts[i] - 1]), RemShardCounted(h, r.counts[i] - 1))
    case RemShardCounted(h, n) => (if n == 0 then r.(active := ClearBit(r.active, i)) else r, RemMarked(h))
    case RemMarked(h) => (r, if r.local == 0 then RemStoring(h, now) else Idle)
    case RemStoring(h, t) => (r.(lastEmpty := t), Idle)
  }

  predicate Cleaning(s: State, room: int) {
    !s.cleaner.Waiting? && s.cleaner.room == room
  }

  /** Each loop is serial; a table lookup on a room waits while the cleaner holds its bucket. */
  ghost predicate Enabled(s: State, e: Event) {
    match e
    case StartAdd(i, room, conn, _, created) =>
      && i < |s.pcs| && s.pcs[i].Idle? && ValidKey(s.loopCount, room, i, conn)
      && !Cleaning(s, room) && created !in s.objects
    case StartRemove(i, room, conn) =>
      i < |s.pcs| && s.pcs[i].Idle? && ValidKey(s.loopCount, room, i, conn) && !Cleaning(s, room)
    case Advance(i, _) => i < |s.pcs| && !s.pcs[i].Idle?
    case CleanLoad(room) => s.cleaner == Waiting && room in s.table
    case CleanDate(_, _) => s.cleaner.SawZero?
    case CleanDelete => s.cleaner.SawDate?
  }

  function Step(s: State, e: Event): State
    requires Shaped(s) && Enabled(s, e)
  {
    match e
    case StartAdd(i, room, conn, c, created) =>
      if room in s.table then s.(pcs := s.pcs[i := AddFetched(s.table[room], conn, c)])
      else s.(objects := s.objects[created := FreshRoom(room, s.loopCount)], table := s.table[room := created],
              pcs := s.pcs[i := AddFetched(created, conn, c)])
    case StartRemove(i, room, conn) =>
      if room in s.table then s.(pcs := s.pcs[i := RemFetched(s.table[room], conn)]) else s
    case Advance(i, now) =>
      var h := s.pcs[i].h;
      var (r, p) := AdvanceOn(s.objects[h], s.pcs[i], i, now);
      s.(objects := s.objects[h := r], pcs := s.pcs[i := p])
    case CleanLoad(room) =>
      if s.objects[s.table[room]].local == 0 then s.(cleaner := SawZero(room)) else s
    case CleanDate(now, idle) =>
      var t := s.objects[s.table[s.cleaner.room]].lastEmpty;
      s.(cleaner := if t > 0 && now - t > idle then SawDate(s.cleaner.room) else Waiting)
    case CleanDelete => s.(cleaner := Waiting, table := s.table - {s.cleaner.room})
  }

  ghost predicate Shaped(s: State) {
    && |s.pcs| == s.loopCount <= 64
    && (forall room | room in s.table :: s.table[room] in s.objects && s.objects[s.table[room]].id == room)
    && (forall i | 0 <= i < |s.pcs| && !s.pcs[i].Idle? :: s.pcs[i].h in s.objects)
    && (forall h | h in s.objects :: |s.objects[h].shards| == |s.objects[h].counts| == s.loopCount)
    && (!s.cleaner.Waiting? ==> s.cleaner.room in s.table)
  }

  // ----- the invariant: every counter is off by exactly what is in flight -------------------------------

  predicate On(p: Pc, h: Handle) {
    !p.Idle? && p.h == h
  }

  /** Insertions not yet in LocalConnCount, less deletions not yet taken from it. */
  function LocalLag(p: Pc, h: Handle): int {
    if !On(p, h) then 0 else if p.AddInserted? then 1 else if p.RemDeleted? then -1 else 0
  }

  function ShardLag(p: Pc, h: Handle): int {
    if !On(p, h) then 0
    else if p.AddInserted? || p.AddCounted? then 1
    else if p.RemDeleted? || p.RemCounted? then -1 else 0
  }

  function BitLag(p: Pc, h: Handle): int {
    if !On(p, h) then 0
    else if p.AddInserted? || p.AddCounted? || p.AddShardCounted? then 1
    else if p.RemDeleted? || p.RemCounted? || p.RemShardCounted? then -1 else 0
  }

  ghost predicate LoopExact(r: Room, p: Pc, h: Handle, i: nat)
    requires i < |r.shards| == |r.counts| <= 64
  {
    var size := |r.shards[i]|;
    && r.counts[i] == size - ShardLag(p, h)
    && (Bit(r.active, i) <==> size - BitLag(p, h) > 0)
    && size - BitLag(p, h) >= 0
    && (On(p, h) && (p.AddShardCounted? || p.RemShardCounted?) ==> p.n == size)
  }

  /** Shard sizes over the first n loops, corrected by what each loop has in flight on h. */
  function Counted(r: Room, pcs: seq<Pc>, h: Handle, n: nat): int
    requires n <= |r.shards| && n <= |pcs|
  {
    if n == 0 then 0 else Counted(r, pcs, h, n - 1) + |r.shards[n - 1]| - LocalLag(pcs[n - 1], h)
  }

  ghost predicate ObjectExact(r: Room, pcs: seq<Pc>, h: Handle)
    requires |r.shards| == |r.counts| == |pcs| <= 64
  {
    && (forall i | 0 <= i < |pcs| :: LoopExact(r, pcs[i], h, i))
    && (forall i: nat | |pcs| <= i < 64 :: !Bit(r.active, i))
    && r.local == Counted(r, pcs, h, |pcs|)
  }

  ghost predicate Inv(s: State) {
    && Shaped(s)
    && (forall h | h in s.objects :: ObjectExact(s.objects[h], s.pcs, h))
  }

  // ----- preservation -----------------------------------------------------------------------------------

  /** Counted depends on the other loops only through their own shard and counter. */
  lemma {:induction false} CountedUpdate(r: Room, r': Room, pcs: seq<Pc>, i: nat, p: Pc, h: Handle, n: nat)
    requires n <= |pcs| == |r.shards| == |r'.shards| && i < |pcs|
    requires forall j | 0 <= j < |pcs| && j != i :: r'.shards[j] == r.shards[j]
    ensures Counted(r', pcs[i := p], h, n) == Counted(r, pcs, h, n)
      + if i < n then |r'.shards[i]| - LocalLag(p, h) - |r.shards[i]| + LocalLag(pcs[i], h) else 0
  {
    if n == 0 {
    } else {
      CountedUpdate(r, r', pcs, i, p, h, n - 1);
    }
  }

  lemma AdvanceFrame(r: Room, p: Pc, i: nat, now: int)
    requires i < |r.shards| == |r.counts| <= 64 && !p.Idle?
    ensures var (r', p') := AdvanceOn(r, p, i, now);
      && |r'.shards| == |r'.counts| == |r.shards| && r'.id == r.id && (p'.Idle? || p'.h == p.h)
      && (forall j | 0 <= j < |r.shards| && j != i :: r'.shards[j] == r.shards[j] && r'.counts[j] == r.counts[j])
  {
    hide SetBit, ClearBit;
  }

  lemma AdvanceLocal(r: Room, p: Pc, i: nat, now: int)
    requires i < |r.shards| == |r.counts| <= 64 && !p.Idle?
    ensures var (r', p') := AdvanceOn(r, p, i, now);
      && |r'.shards| == |r.shards|
      && r'.local - r.local == |r'.shards[i]| - LocalLag(p', p.h) - |r.shards[i]| + LocalLag(p, p.h)
  {
    hide SetBit, ClearBit;
    if p.RemFetched? && p.conn in r.shards[i] {
      SizeAfterRemoval(r.shards[i], p.conn);
    }
  }

  lemma AdvanceCount(r: Room, p: Pc, i: nat, now: int)
    requires i < |r.shards| == |r.counts| <= 64 && !p.Idle? && LoopExact(r, p, p.h, i)
    ensures var (r', p') := AdvanceOn(r, p, i, now);
      && |r'.shards| == |r'.counts| == |r.shards|
      && r'.counts[i] == |r'.shards[i]| - ShardLag(p', p.h)
      && (On(p', p.h) && (p'.AddShardCounted? || p'.RemShardCounted?) ==> p'.n == |r'.shards[i]|)
  {
    hide Bit, SetBit, ClearBit;
    if p.RemFetched? && p.conn in r.shards[i] {
      SizeAfterRemoval(r.shards[i], p.conn);
    }
  }

  /** The shard seen by the bitmap changes only at the bitmap's own steps. */
  lemma AdvanceSize(r: Room, p: Pc, i: nat, now: int)
    requires i < |r.shards| == |r.counts| <= 64 && !p.Idle? && LoopExact(r, p, p.h, i)
    ensures var (r', p') := AdvanceOn(r, p, i, now);
      && |r'.shards| == |r.shards|
      && |r'.shards[i]| - BitLag(p', p.h) >= 0
      && if p.AddShardCounted? || p.RemShardCounted?
        then |r'.shards[i]| == p.n && BitLag(p', p.h) == 0
        else |r'.shards[i]| - BitLag(p', p.h) == |r.shards[i]| - BitLag(p, p.h)
  {
    hide Bit, SetBit, ClearBit, ShardLag;
    if p.RemFetched? && p.conn in r.shards[i] {
      SizeAfterRemoval(r.shards[i], p.conn);
    }
  }

  lemma AdvanceActive(r: Room, p: Pc, i: nat, now: int)
    requires i < |r.shards| == |r.counts| <= 64 && !p.Idle?
    ensures AdvanceOn(r, p, i, now).0.active ==
      if p.AddShardCounted? && p.n == 1 then SetBit(r.active, i)
      else if p.RemShardCounted? && p.n == 0 then ClearBit(r.active, i) else r.active
  {
    hide SetBit, ClearBit;
  }

  lemma AdvanceBit(r: Room, p: Pc, i: nat, now: int)
    requires i < |r.shards| == |r.counts| <= 64 && !p.Idle? && LoopExact(r, p, p.h, i)
    ensures var (r', p') := AdvanceOn(r, p, i, now);
      && |r'.shards| == |r'.counts| == |r.shards|
      && (Bit(r'.active, i) <==> |r'.shards[i]| - BitLag(p', p.h) > 0)
      && |r'.shards[i]| - BitLag(p', p.h) >= 0
  {
    hide Bit, SetBit, ClearBit, ShardLag, AdvanceOn;
    AdvanceFrame(r, p, i, now);
    AdvanceSize(r, p, i, now);
    AdvanceActive(r, p, i, now);
    SetBitBits(r.active, i, i);
    ClearBitBits(r.active, i, i);
  }

  lemma AdvanceLoopExact(r: Room, p: Pc, i: nat, now: int)
    requires i < |r.shards| == |r.counts| <= 64 && !p.Idle? && LoopExact(r, p, p.h, i)
    ensures var (r', p') := AdvanceOn(r, p, i, now);
      |r'.shards| == |r'.counts| == |r.shards| && LoopExact(r', p', p.h, i)
  {
    hide Bit, AdvanceOn, BitLag, ShardLag;
    AdvanceFrame(r, p, i, now);
    AdvanceCount(r, p, i, now);
    AdvanceBit(r, p, i, now);
  }

  lemma AdvanceOtherBits(r: Room, p: Pc, i: nat, now: int, j: nat)
    requires i < |r.shards| == |r.counts| <= 64 && !p.Idle? && j < 64 && j != i
    ensures Bit(AdvanceOn(r, p, i, now).0.active, j) <==> Bit(r.active, j)
  {
    hide Bit, SetBit, ClearBit;
    SetBitBits(r.active, i, j);
    ClearBitBits(r.active, i, j);
  }

  lemma AdvanceObjectExact(r: Room, pcs: seq<Pc>, i: nat, now: int)
    requires |r.shards| == |r.counts| == |pcs| <= 64 && i < |pcs| && !pcs[i].Idle?
    requires ObjectExact(r, pcs, pcs[i].h)
    ensures var (r', p') := AdvanceOn(r, pcs[i], i, now);
      && |r'.shards| == |r'.counts| == |r.shards| && (p'.Idle? || p'.h == pcs[i].h)
      && ObjectExact(r', pcs[i := p'], pcs[i].h)
  {
    hide Bit, AdvanceOn;
    var p, h := pcs[i], pcs[i].h;
    AdvanceFrame(r, p, i, now);
    AdvanceLocal(r, p, i, now);
    AdvanceLoopExact(r, p, i, now);
    var (r', p') := AdvanceOn(r, p, i, now);
    CountedUpdate(r, r', pcs, i, p', h, |pcs|);
    forall j: nat | j < 64 && j != i
      ensures Bit(r'.active, j) <==> Bit(r.active, j)
    {
      AdvanceOtherBits(r, p, i, now, j);
    }
    var pcs' := pcs[i := p'];
    forall j | 0 <= j < |pcs|
      ensures LoopExact(r', pcs'[j], h, j)
    {
      if j != i {
        assert LoopExact(r, pcs[j], h, j);
      }
    }
  }

  /** A loop that is, before and after, not lagging on h does not disturb h. */
  lemma OtherObjectExact(r: Room, pcs: seq<Pc>, i: nat, p: Pc, h: Handle)
    requires |r.shards| == |r.counts| == |pcs| <= 64 && i < |pcs| && ObjectExact(r, pcs, h)
    requires BitLag(p, h) == 0 && BitLag(pcs[i], h) == 0
    ensures ObjectExact(r, pcs[i := p], h)
  {
    hide Bit;
    CountedUpdate(r, r, pcs, i, p, h, |pcs|);
    var pcs' := pcs[i := p];
    forall j | 0 <= j < |pcs|
      ensures LoopExact(r, pcs'[j], h, j)
    {
      assert LoopExact(r, pcs[j], h, j);
    }
  }

  lemma {:induction false} CountedFresh(r: Room, pcs: seq<Pc>, h: Handle, n: nat)
    requires n <= |r.shards| && n <= |pcs|
    requires forall j | 0 <= j < |r.shards| :: r.shards[j] == map[]
    requires forall j | 0 <= j < |pcs| :: !On(pcs[j], h)
    ensures Counted(r, pcs, h, n) == 0
  {
    if n == 0 {
    } else {
      CountedFresh(r, pcs, h, n - 1);
    }
  }

  lemma FreshObjectExact(room: int, pcs: seq<Pc>, h: Handle)
    requires |pcs| <= 64 && forall j | 0 <= j < |pcs| :: !On(pcs[j], h)
    ensures ObjectExact(FreshRoom(room, |pcs|), pcs, h)
  {
    hide Bit;
    var r := FreshRoom(room, |pcs|);
    CountedFresh(r, pcs, h, |pcs|);
    forall j: nat | j < 64
      ensures !Bit(0, j)
    {
      NoBits(j);
    }
  }

  lemma StepKeepsShape(s: State, e: Event)
    requires Shaped(s) && Enabled(s, e)
    ensures Shaped(Step(s, e))
  {
    hide AdvanceOn;
    if e.Advance? {
      AdvanceFrame(s.objects[s.pcs[e.loop].h], s.pcs[e.loop], e.loop, e.now);
    }
  }

  lemma StartKeepsInv(s: State, e: Event)
    requires Inv(s) && Enabled(s, e) && (e.StartAdd? || e.StartRemove?)
    ensures Inv(Step(s, e))
  {
    hide ObjectExact;
    StepKeepsShape(s, e);
    var s', i := Step(s, e), e.loop;
    forall h | h in s'.objects
      ensures ObjectExact(s'.objects[h], s'.pcs, h)
    {
      if h !in s.objects {
        FreshObjectExact(e.room, s.pcs, h);
      }
      if s' != s {
        assert s'.pcs == s.pcs[i := s'.pcs[i]];
        OtherObjectExact(s'.objects[h], s.pcs, i, s'.pcs[i], h);
      }
    }
  }

  /** Every atomic step of every loop and of the cleaner keeps every room object exact up to what is in
      flight, whether or not the table still refers to it. */
  lemma StepKeepsInv(s: State, e: Event)
    requires Inv(s) && Enabled(s, e)
    ensures Inv(Step(s, e))
  {
    hide ObjectExact, AdvanceOn;
    match e
    case StartAdd(_, _, _, _, _) => StartKeepsInv(s, e);
    case StartRemove(_, _, _) => StartKeepsInv(s, e);
    case Advance(i, now) =>
      var h := s.pcs[i].h;
      StepKeepsShape(s, e);
      AdvanceObjectExact(s.objects[h], s.pcs, i, now);
      var s' := Step(s, e);
      forall g | g in s'.objects
        ensures ObjectExact(s'.objects[g], s'.pcs, g)
      {
        if g != h {
          OtherObjectExact(s.objects[g], s.pcs, i, s'.pcs[i], g);
        }
      }
    case CleanLoad(_) =>
    case CleanDate(_, _) =>
    case CleanDelete =>
  }

  // ----- runs ---------------------------------------------------------------------------------------------

  ghost predicate IsRun(states: seq<State>, events: seq<Event>) {
    && |states| == |events| + 1
    && (forall k | 0 <= k < |events| ::
          Shaped(states[k]) && Enabled(states[k], events[k]) && states[k + 1] == Step(states[k], events[k]))
  }

  lemma {:induction false} RunKeepsInv(states: seq<State>, events: seq<Event>, k: nat)
    requires IsRun(states, events) && Inv(states[0]) && k <= |events|
    ensures Inv(states[k])
  {
    if k == 0 {
    } else {
      RunKeepsInv(states, events, k - 1);
      StepKeepsInv(states[k - 1], events[k - 1]);
    }
  }

  lemma InitInv(loopCount: nat)
    requires loopCount <= 64
    ensures Inv(Init(loopCount))
  {
  }

  // ----- what every reachable state satisfies -------------------------------------------------------------

  lemma {:induction false} CountedNonNegative(r: Room, pcs: seq<Pc>, h: Handle, n: nat)
    requires |r.shards| == |r.counts| == |pcs| <= 64 && n <= |pcs|
    requires forall i | 0 <= i < |pcs| :: LoopExact(r, pcs[i], h, i)
    ensures Counted(r, pcs, h, n) >= 0
    ensures Counted(r, pcs, h, n) == 0 ==> forall i | 0 <= i < n :: |r.shards[i]| == LocalLag(pcs[i], h)
  {
    hide Bit;
    if n == 0 {
    } else {
      CountedNonNegative(r, pcs, h, n - 1);
      assert LoopExact(r, pcs[n - 1], h, n - 1);
    }
  }

  lemma {:induction false} CountedAtRest(r: Room, pcs: seq<Pc>, h: Handle, n: nat)
    requires |r.shards| == |r.counts| == |pcs| && n <= |pcs|
    requires forall i | 0 <= i < |pcs| :: r.counts[i] == |r.shards[i]| && LocalLag(pcs[i], h) == 0
    ensures Counted(r, pcs, h, n) == Sum(r.counts[..n])
  {
    if n == 0 {
    } else {
      CountedAtRest(r, pcs, h, n - 1);
      assert r.counts[..n][..n - 1] == r.counts[..n - 1];
    }
  }

  lemma StateIsExact(s: State, h: Handle)
    requires Inv(s) && h in s.objects
    ensures var r := s.objects[h];
      && |r.shards| == |r.counts| == |s.pcs| == s.loopCount <= 64
      && r.local >= 0
      && r.local == Counted(r, s.pcs, h, |s.pcs|)
      && (forall i | 0 <= i < |s.pcs| && !On(s.pcs[i], h) ::
            r.counts[i] == |r.shards[i]| && (Bit(r.active, i) <==> r.shards[i] != map[]))
      && ((forall i | 0 <= i < |s.pcs| :: !On(s.pcs[i], h)) ==> CountsExact(r) && BitmapExact(r))
  {
    hide Bit;
    var r := s.objects[h];
    assert ObjectExact(r, s.pcs, h);
    CountedNonNegative(r, s.pcs, h, |s.pcs|);
    forall i | 0 <= i < |s.pcs| && !On(s.pcs[i], h)
      ensures r.counts[i] == |r.shards[i]| && (Bit(r.active, i) <==> r.shards[i] != map[])
    {
      assert LoopExact(r, s.pcs[i], h, i);
    }
    if forall i | 0 <= i < |s.pcs| :: !On(s.pcs[i], h) {
      CountedAtRest(r, s.pcs, h, |s.pcs|);
      assert r.counts[..|s.pcs|] == r.counts;
    }
  }

  /** In every reachable state of every interleaving: the connection count is never negative and equals the
      shard sizes corrected by what is in flight; every loop not working on the room has its bit and its
      count exact; and a room nobody works on is exact altogether. */
  lemma ReachableStatesAreExact(loopCount: nat, states: seq<State>, events: seq<Event>, k: nat, h: Handle)
    requires loopCount <= 64 && IsRun(states, events) && states[0] == Init(loopCount)
    requires k <= |events| && h in states[k].objects
    ensures var s := states[k]; var r := s.objects[h];
      && |r.shards| == |r.counts| == |s.pcs| == s.loopCount <= 64
      && r.local >= 0
      && r.local == Counted(r, s.pcs, h, |s.pcs|)
      && (forall i | 0 <= i < |s.pcs| && !On(s.pcs[i], h) ::
            r.counts[i] == |r.shards[i]| && (Bit(r.active, i) <==> r.shards[i] != map[]))
      && ((forall i | 0 <= i < |s.pcs| :: !On(s.pcs[i], h)) ==> CountsExact(r) && BitmapExact(r))
  {
    hide Inv, CountsExact, BitmapExact, Bit;
    InitInv(loopCount);
    RunKeepsInv(states, events, k);
    StateIsExact(states[k], h);
  }

  /** A count of 0 hides exactly the connections that are written but not yet counted. */
  lemma ZeroHidesOnlyUncounted(s: State, h: Handle, i: nat)
    requires Inv(s) && h in s.objects && s.objects[h].local == 0 && i < |s.pcs|
    ensures i < |s.objects[h].shards|
    ensures s.objects[h].shards[i] != map[] <==> s.pcs[i] == AddInserted(h)
  {
    hide Bit;
    var r := s.objects[h];
    assert ObjectExact(r, s.pcs, h);
    assert LoopExact(r, s.pcs[i], h, i);
    CountedNonNegative(r, s.pcs, h, |s.pcs|);
  }

  /** An object the table has dropped is never reached through the table again. */
  lemma DetachedStays(s: State, e: Event, h: Handle)
    requires Shaped(s) && Enabled(s, e) && h in s.objects && forall room | room in s.table :: s.table[room] != h
    ensures h in Step(s, e).objects && forall room | room in Step(s, e).table :: Step(s, e).table[room] != h
  {
    hide AdvanceOn;
  }
}
