/** internal/room/manager.go without its caller contract: several operations at work on one loop index, as when the
    worker pool calls AddConnInLoop twice for one connection, or beside its OnClose. The lookup of the connection and
    the write that it decides on are two steps, and others may come in between. */
module RoomRaces {
  import opened Bitmaps
  import R = Rooms
  import opened RoomAlone
  import opened RoomSteps

  /** What an operation has found of its connection in the shard. */
  datatype Look = Unlooked | Absent | Present

  /** An operation, at its own place, on a loop index it shares with others. */
  datatype Worker = Worker(loop: nat, look: Look, pc: Pc)

  /** One room object and everybody at work on it, under the handle of all their program counters. */
  datatype Race = Race(r: R.Room, workers: seq<Worker>)

  const HERE: Handle := 0

  datatype Move =
    | Begin(loop: nat, pc: Pc)      // another worker, with an operation that has fetched the room
    | Go(w: nat, now: int)          // the next step of a worker

  predicate Fetched(pc: Pc) {
    (pc.AddFetched? || pc.RemFetched?) && pc.h == HERE
  }

  predicate Possible(s: Race, m: Move) {
    match m
    case Begin(loop, pc) => loop < |s.r.shards| && Fetched(pc)
    case Go(w, _) => w < |s.workers| && !s.workers[w].pc.Idle?
  }

  predicate WorkerFits(r: R.Room, w: Worker) {
    && w.loop < |r.shards| && (w.pc.Idle? || w.pc.h == HERE)
    && (!w.look.Unlooked? ==> Fetched(w.pc)) && (w.look.Absent? ==> w.pc.AddFetched?)
  }

  ghost predicate Fits(s: Race) {
    && |s.r.shards| == |s.r.counts| <= 64
    && (forall w | 0 <= w < |s.workers| :: WorkerFits(s.r, s.workers[w]))
  }

  /** The lookup; a Remove that finds nothing returns. */
  function LookAt(r: R.Room, w: Worker): Worker
    requires WorkerFits(r, w) && Fetched(w.pc)
  {
    var present := w.pc.conn in r.shards[w.loop];
    if w.pc.RemFetched? && !present then w.(pc := Idle) else w.(look := if present then Present else Absent)
  }

  function ShardAfter(shard: map<R.ConnId, R.Conn>, pc: Pc): map<R.ConnId, R.Conn>
    requires Fetched(pc)
  {
    if pc.AddFetched? then shard[pc.conn := pc.c] else shard - {pc.conn}
  }

  /** The write that the lookup decided on, whatever the shard holds by now: an Add that had found the connection
      only replaces its handle and returns. */
  function WriteTo(r: R.Room, w: Worker): (R.Room, Worker)
    requires WorkerFits(r, w) && Fetched(w.pc)
  {
    var Worker(i, look, pc) := w;
    var next := if pc.RemFetched? then RemDeleted(HERE) else if look.Present? then Idle else AddInserted(HERE);
    (r.(shards := r.shards[i := ShardAfter(r.shards[i], pc)]), Worker(i, Unlooked, next))
  }

  function WorkOn(r: R.Room, w: Worker, now: int): (R.Room, Worker)
    requires |r.shards| == |r.counts| <= 64 && WorkerFits(r, w) && !w.pc.Idle?
  {
    if !Fetched(w.pc) then
      var (r', pc) := AdvanceOn(r, w.pc, w.loop, now);
      (r', w.(pc := pc))
    else if w.look.Unlooked? then (r, LookAt(r, w))
    else WriteTo(r, w)
  }

  function Play(s: Race, m: Move): Race
    requires Fits(s) && Possible(s, m)
  {
    match m
    case Begin(loop, pc) => s.(workers := s.workers + [Worker(loop, Unlooked, pc)])
    case Go(w, now) =>
      var (r, worker) := WorkOn(s.r, s.workers[w], now);
      Race(r, s.workers[w := worker])
  }

  lemma WorkFrame(r: R.Room, w: Worker, now: int)
    requires |r.shards| == |r.counts| <= 64 && WorkerFits(r, w) && !w.pc.Idle?
    ensures var (r', w') := WorkOn(r, w, now);
      && |r'.shards| == |r'.counts| == |r.shards| && r'.id == r.id && w'.loop == w.loop && WorkerFits(r', w')
      && (forall j | 0 <= j < |r.shards| && j != w.loop :: r'.shards[j] == r.shards[j] && r'.counts[j] == r.counts[j])
  {
    hide SetBit, ClearBit;
  }

  lemma PlayKeepsShape(s: Race, m: Move)
    requires Fits(s) && Possible(s, m)
    ensures Fits(Play(s, m)) && |Play(s, m).r.shards| == |s.r.shards|
  {
    hide WorkOn;
    if m.Go? {
      WorkFrame(s.r, s.workers[m.w], m.now);
    }
  }

  // ----- overtaken writes -------------------------------------------------------------------------------------------

  /** The step is a write to a shard. */
  predicate Writes(s: Race, m: Move)
    requires Possible(s, m)
  {
    m.Go? && Fetched(s.workers[m.w].pc) && !s.workers[m.w].look.Unlooked?
  }

  /** By how much a write that somebody has overtaken since its lookup miscounts: an Add counts a connection that is
      there by now, or writes back uncounted one that is gone, or a Remove uncounts one that is gone. */
  function Slip(s: Race, m: Move): int
    requires Fits(s) && Possible(s, m)
  {
    if !Writes(s, m) then 0
    else
      var Worker(i, look, pc) := s.workers[m.w];
      var present := pc.conn in s.r.shards[i];
      if look.Absent? && present then 1 else if look.Present? && !present then -1 else 0
  }

  /** What the slips on each loop add up to. */
  function ExcessAfter(s: Race, m: Move, excess: seq<int>): seq<int>
    requires Fits(s) && Possible(s, m) && |excess| == |s.r.shards|
  {
    if m.Begin? then excess
    else
      var i := s.workers[m.w].loop;
      excess[i := excess[i] + Slip(s, m)]
  }

  // ----- the counts ----------------------------------------------------------------------------------------------

  /** Over all workers, insertions not yet in LocalConnCount, less deletions not yet taken from it. */
  function LocalLags(workers: seq<Worker>): int {
    if workers == [] then 0
    else LocalLags(workers[..|workers| - 1]) + LocalLag(workers[|workers| - 1].pc, HERE)
  }

  /** Likewise for the shard count of loop i. */
  function ShardLags(workers: seq<Worker>, i: int): int {
    if workers == [] then 0
    else
      var last := workers[|workers| - 1];
      ShardLags(workers[..|workers| - 1], i) + if last.loop == i then ShardLag(last.pc, HERE) else 0
  }

  predicate Occupies(r: R.Room, i: int) {
    0 <= i < |r.shards| && r.shards[i] != map[]
  }

  ghost predicate Occupied(r: R.Room) {
    exists i :: Occupies(r, i)
  }

  function Sizes(r: R.Room, n: nat): int
    requires n <= |r.shards|
  {
    if n == 0 then 0 else Sizes(r, n - 1) + |r.shards[n - 1]|
  }

  /** Every count is off by what is in flight and by what has slipped. */
  ghost predicate Balanced(s: Race, excess: seq<int>) {
    && Fits(s) && |excess| == |s.r.shards|
    && s.r.local == Sizes(s.r, |s.r.shards|) - LocalLags(s.workers) + R.Sum(excess)
    && (forall i | 0 <= i < |excess| :: s.r.counts[i] == |s.r.shards[i]| - ShardLags(s.workers, i) + excess[i])
  }

  lemma {:induction false} LagsAt(workers: seq<Worker>, w: nat, worker: Worker, i: int)
    requires w < |workers| && worker.loop == workers[w].loop
    ensures var after := workers[w := worker];
      && LocalLags(after) == LocalLags(workers) - LocalLag(workers[w].pc, HERE) + LocalLag(worker.pc, HERE)
      && ShardLags(after, i) == ShardLags(workers, i)
           + if workers[w].loop == i then ShardLag(worker.pc, HERE) - ShardLag(workers[w].pc, HERE) else 0
    decreases |workers|
  {
    hide LocalLag, ShardLag;
    var after, last := workers[w := worker], |workers| - 1;
    if w == last {
      assert after[..last] == workers[..last];
    } else {
      assert after[..last] == workers[..last][w := worker];
      LagsAt(workers[..last], w, worker, i);
    }
  }

  lemma LagsSnoc(workers: seq<Worker>, worker: Worker, i: int)
    ensures LocalLags(workers + [worker]) == LocalLags(workers) + LocalLag(worker.pc, HERE)
    ensures ShardLags(workers + [worker], i)
         == ShardLags(workers, i) + if worker.loop == i then ShardLag(worker.pc, HERE) else 0
  {
    assert (workers + [worker])[..|workers|] == workers;
  }

  lemma {:induction false} SizesAt(r: R.Room, r': R.Room, i: nat, n: nat)
    requires n <= |r.shards| == |r'.shards| && i < |r.shards|
    requires forall j | 0 <= j < |r.shards| && j != i :: r'.shards[j] == r.shards[j]
    ensures Sizes(r', n) == Sizes(r, n) + if i < n then |r'.shards[i]| - |r.shards[i]| else 0
  {
    if n == 0 {
    } else {
      SizesAt(r, r', i, n - 1);
    }
  }

  lemma AdvanceCounts(r: R.Room, p: Pc, i: nat, now: int)
    requires i < |r.shards| == |r.counts| <= 64 && !p.Idle?
    ensures var (r', p') := AdvanceOn(r, p, i, now);
      && |r'.shards| == |r'.counts| == |r.shards|
      && r'.counts[i] - r.counts[i] == |r'.shards[i]| - ShardLag(p', p.h) - |r.shards[i]| + ShardLag(p, p.h)
  {
    hide SetBit, ClearBit;
  }

  /** One step of one worker moves the counts by what it changes in the shard, in its own lag, and by its slip. */
  lemma WorkCounts(s: Race, v: nat, now: int)
    requires Fits(s) && Possible(s, Go(v, now))
    ensures var (r, w, i) := (s.r, s.workers[v], s.workers[v].loop);
      var (r', w') := WorkOn(r, w, now);
      && |r'.shards| == |r'.counts| == |r.shards|
      && r'.local - r.local == |r'.shards[i]| - |r.shards[i]|
           + LocalLag(w.pc, HERE) - LocalLag(w'.pc, HERE) + Slip(s, Go(v, now))
      && r'.counts[i] - r.counts[i] == |r'.shards[i]| - |r.shards[i]|
           + ShardLag(w.pc, HERE) - ShardLag(w'.pc, HERE) + Slip(s, Go(v, now))
  {
    hide LocalLag, ShardLag, AdvanceOn, LookAt, WriteTo, Slip;
    var r, w := s.r, s.workers[v];
    if Fetched(w.pc) {
      WriteCounts(s, v, now);
    } else {
      AdvanceLocal(r, w.pc, w.loop, now);
      AdvanceCounts(r, w.pc, w.loop, now);
      AdvanceFrame(r, w.pc, w.loop, now);
      NoWriteNoSlip(s, Go(v, now));
    }
  }

  lemma NoWriteNoSlip(s: Race, m: Move)
    requires Fits(s) && Possible(s, m) && !Writes(s, m)
    ensures Slip(s, m) == 0
  {
  }

  lemma WriteCounts(s: Race, v: nat, now: int)
    requires Fits(s) && Possible(s, Go(v, now)) && Fetched(s.workers[v].pc)
    ensures var (r, w, i) := (s.r, s.workers[v], s.workers[v].loop);
      var (r', w') := WorkOn(r, w, now);
      && |r'.shards| == |r'.counts| == |r.shards| && r'.local == r.local && r'.counts == r.counts
      && 0 == |r'.shards[i]| - |r.shards[i]| - LocalLag(w'.pc, HERE) + Slip(s, Go(v, now))
      && ShardLag(w'.pc, HERE) == LocalLag(w'.pc, HERE) && ShardLag(w.pc, HERE) == LocalLag(w.pc, HERE) == 0
  {
    hide AdvanceOn, ShardAfter;
    SizeAfterWrite(s.r.shards[s.workers[v].loop], s.workers[v].pc);
  }

  lemma SizeAfterWrite(shard: map<R.ConnId, R.Conn>, pc: Pc)
    requires Fetched(pc)
    ensures |ShardAfter(shard, pc)| - |shard| ==
      if pc.AddFetched? then if pc.conn in shard then 0 else 1 else if pc.conn in shard then -1 else 0
  {
    if pc.RemFetched? {
      if pc.conn in shard {
        R.SizeAfterRemoval(shard, pc.conn);
      } else {
        assert shard - {pc.conn} == shard;
      }
    }
  }

  /** However operations share a loop index, every step keeps the counts exact up to what is in flight and what has
      slipped. */
  lemma PlayKeepsCounts(s: Race, m: Move, excess: seq<int>)
    requires Balanced(s, excess) && Possible(s, m)
    ensures Balanced(Play(s, m), ExcessAfter(s, m, excess))
  {
    hide WorkOn, LocalLag, ShardLag, LocalLags, ShardLags, Sizes, Slip, R.Sum;
    PlayKeepsShape(s, m);
    match m
    case Begin(loop, pc) =>
      FetchedHasNoLag(pc);
      forall i | 0 <= i < |s.r.shards|
        ensures ShardLags(s.workers + [Worker(loop, Unlooked, pc)], i) == ShardLags(s.workers, i)
      {
        LagsSnoc(s.workers, Worker(loop, Unlooked, pc), i);
      }
      LagsSnoc(s.workers, Worker(loop, Unlooked, pc), 0);
    case Go(w, now) =>
      var i := s.workers[w].loop;
      var (r', w') := WorkOn(s.r, s.workers[w], now);
      WorkFrame(s.r, s.workers[w], now);
      WorkCounts(s, w, now);
      SizesAt(s.r, r', i, |s.r.shards|);
      R.SumUpdate(excess, i, excess[i] + Slip(s, m));
      LagsAt(s.workers, w, w', i);
      forall j | 0 <= j < |s.r.shards|
        ensures ShardLags(s.workers[w := w'], j)
             == ShardLags(s.workers, j) + if i == j then ShardLag(w'.pc, HERE) - ShardLag(s.workers[w].pc, HERE) else 0
      {
        LagsAt(s.workers, w, w', j);
      }
  }

  lemma FetchedHasNoLag(pc: Pc)
    requires Fetched(pc)
    ensures LocalLag(pc, HERE) == 0 && ShardLag(pc, HERE) == 0
  {
  }

  // ----- whole runs ------------------------------------------------------------------------------------------------

  predicate AllPossible(s: Race, moves: seq<Move>)
    requires Fits(s)
    decreases |moves|
  {
    moves == [] ||
    (Possible(s, moves[0]) && (PlayKeepsShape(s, moves[0]); AllPossible(Play(s, moves[0]), moves[1..])))
  }

  function PlayAll(s: Race, moves: seq<Move>): (t: Race)
    requires Fits(s) && AllPossible(s, moves)
    ensures Fits(t) && |t.r.shards| == |s.r.shards|
    decreases |moves|
  {
    if moves == [] then s
    else
      PlayKeepsShape(s, moves[0]);
      PlayAll(Play(s, moves[0]), moves[1..])
  }

  function LastExcess(s: Race, moves: seq<Move>, excess: seq<int>): (last: seq<int>)
    requires Fits(s) && AllPossible(s, moves) && |excess| == |s.r.shards|
    ensures |last| == |excess|
    decreases |moves|
  {
    if moves == [] then excess
    else
      PlayKeepsShape(s, moves[0]);
      LastExcess(Play(s, moves[0]), moves[1..], ExcessAfter(s, moves[0], excess))
  }

  lemma {:induction false} RunKeepsCounts(s: Race, moves: seq<Move>, excess: seq<int>)
    requires Balanced(s, excess) && AllPossible(s, moves)
    ensures Balanced(PlayAll(s, moves), LastExcess(s, moves, excess))
    decreases |moves|
  {
    hide Play, ExcessAfter, LocalLags, ShardLags, Sizes, R.Sum;
    if moves == [] {
    } else {
      PlayKeepsCounts(s, moves[0], excess);
      RunKeepsCounts(Play(s, moves[0]), moves[1..], ExcessAfter(s, moves[0], excess));
    }
  }

  predicate AtRest(s: Race) {
    forall w | 0 <= w < |s.workers| :: s.workers[w].pc.Idle?
  }

  lemma {:induction false} NoLagsAtRest(workers: seq<Worker>, i: int)
    requires forall w | 0 <= w < |workers| :: workers[w].pc.Idle?
    ensures LocalLags(workers) == 0 && ShardLags(workers, i) == 0
  {
    if workers == [] {
    } else {
      NoLagsAtRest(workers[..|workers| - 1], i);
    }
  }

  lemma {:induction false} SizesAreCounts(r: R.Room, excess: seq<int>, n: nat)
    requires n <= |r.shards| == |r.counts| == |excess|
    requires forall i | 0 <= i < |r.shards| :: r.counts[i] == |r.shards[i]| + excess[i]
    ensures Sizes(r, n) + R.Sum(excess[..n]) == R.Sum(r.counts[..n])
  {
    if n == 0 {
    } else {
      SizesAreCounts(r, excess, n - 1);
      assert r.counts[..n][..n - 1] == r.counts[..n - 1] && excess[..n][..n - 1] == excess[..n - 1];
    }
  }

  lemma {:induction false} NoSizes(r: R.Room, n: nat)
    requires n <= |r.shards| && !Occupied(r)
    ensures Sizes(r, n) == 0
  {
    if n == 0 {
    } else {
      NoSizes(r, n - 1);
      assert !Occupies(r, n - 1);
    }
  }

  function Empty(id: int, loopCount: nat): (s: Race)
    requires loopCount <= 64
    ensures Fits(s) && |s.r.shards| == loopCount
  {
    Race(R.FreshRoom(id, loopCount), [])
  }

  function NoExcess(loopCount: nat): (excess: seq<int>)
    ensures |excess| == loopCount && forall i | 0 <= i < loopCount :: excess[i] == 0
  {
    seq(loopCount, _ => 0)
  }

  lemma EmptyIsBalanced(id: int, loopCount: nat)
    requires loopCount <= 64
    ensures Balanced(Empty(id, loopCount), NoExcess(loopCount))
  {
    NoSizes(R.FreshRoom(id, loopCount), loopCount);
    R.SumZeros(loopCount);
  }

  /** After every run, at rest, LocalConnCount is the sum of the shard counts and each of these is off by the excess of
      its loop; so all counts are exact if and only if on every loop the slips cancel out. */
  lemma CountsExactIffSlipsCancel(id: int, loopCount: nat, moves: seq<Move>)
    requires loopCount <= 64 && AllPossible(Empty(id, loopCount), moves)
    ensures var s := PlayAll(Empty(id, loopCount), moves);
      var excess := LastExcess(Empty(id, loopCount), moves, NoExcess(loopCount));
      AtRest(s) ==>
        && |s.r.shards| == |s.r.counts| && s.r.local == R.Sum(s.r.counts)
        && (forall i | 0 <= i < loopCount :: s.r.counts[i] == |s.r.shards[i]| + excess[i])
        && (R.CountsExact(s.r) <==> forall i | 0 <= i < loopCount :: excess[i] == 0)
  {
    hide LocalLags, ShardLags, Sizes, R.Sum;
    var start, none := Empty(id, loopCount), NoExcess(loopCount);
    EmptyIsBalanced(id, loopCount);
    RunKeepsCounts(start, moves, none);
    var s, excess := PlayAll(start, moves), LastExcess(start, moves, none);
    if AtRest(s) {
      forall i | 0 <= i < loopCount
        ensures s.r.counts[i] == |s.r.shards[i]| + excess[i]
      {
        NoLagsAtRest(s.workers, i);
      }
      NoLagsAtRest(s.workers, 0);
      SizesAreCounts(s.r, excess, loopCount);
      assert s.r.counts[..loopCount] == s.r.counts && excess[..loopCount] == excess;
    }
  }

  // ----- a count of zero ---------------------------------------------------------------------------------------------

  lemma {:induction false} NoInsertionsLag(workers: seq<Worker>)
    requires forall w | 0 <= w < |workers| :: !workers[w].pc.AddInserted?
    ensures LocalLags(workers) <= 0
    ensures (forall w | 0 <= w < |workers| :: !workers[w].pc.RemDeleted?) ==> LocalLags(workers) == 0
  {
    if workers == [] {
    } else {
      NoInsertionsLag(workers[..|workers| - 1]);
    }
  }

  lemma {:induction false} NoSizeNoConnection(r: R.Room, n: nat)
    requires n <= |r.shards|
    ensures Sizes(r, n) >= 0
    ensures Sizes(r, n) == 0 ==> forall i | 0 <= i < n :: !Occupies(r, i)
  {
    if n == 0 {
    } else {
      NoSizeNoConnection(r, n - 1);
    }
  }

  /** What LocalConnCount says of the connections, whatever ran: it hides those inserted and not yet counted, less
      those deleted and not yet uncounted, less the excess. So a count of at most 0 hides a connection only while some
      Add has written one and not yet counted it, or after more have slipped out of the count than into it. */
  lemma ZeroHidesOnly(s: Race, excess: seq<int>)
    requires Balanced(s, excess)
    ensures Occupied(s.r) <==> s.r.local + LocalLags(s.workers) - R.Sum(excess) > 0
    ensures s.r.local <= 0 && Occupied(s.r) ==>
      (exists w | 0 <= w < |s.workers| :: s.workers[w].pc.AddInserted?) || R.Sum(excess) < 0
  {
    hide LocalLags, ShardLags, Sizes, R.Sum;
    NoSizeNoConnection(s.r, |s.r.shards|);
    if forall w | 0 <= w < |s.workers| :: !s.workers[w].pc.AddInserted? {
      NoInsertionsLag(s.workers);
    }
    if forall i :: !Occupies(s.r, i) {
      NoSizes(s.r, |s.r.shards|);
    } else {
      assert Occupied(s.r);
    }
  }

  // ----- what can follow a state -----------------------------------------------------------------------------------

  ghost predicate Leads(start: Race, t: Race) {
    Fits(start) && Fits(t) && exists moves :: AllPossible(start, moves) && PlayAll(start, moves) == t
  }

  lemma {:induction false} PlaysOn(s: Race, moves: seq<Move>, m: Move)
    requires Fits(s) && AllPossible(s, moves) && Possible(PlayAll(s, moves), m)
    ensures AllPossible(s, moves + [m]) && PlayAll(s, moves + [m]) == Play(PlayAll(s, moves), m)
    decreases |moves|
  {
    hide Play;
    if moves == [] {
      PlayKeepsShape(s, m);
      assert [m][1..] == [] && moves + [m] == [m];
      assert PlayAll(s, [m]) == PlayAll(Play(s, m), []);
    } else {
      PlayKeepsShape(s, moves[0]);
      assert (moves + [m])[1..] == moves[1..] + [m];
      PlaysOn(Play(s, moves[0]), moves[1..], m);
    }
  }

  lemma LeadsOn(start: Race, s: Race, m: Move)
    requires Leads(start, s) && Possible(s, m)
    ensures Leads(start, Play(s, m))
  {
    hide Fits, Play;
    PlayKeepsShape(s, m);
    var moves :| AllPossible(start, moves) && PlayAll(start, moves) == s;
    PlaysOn(start, moves, m);
  }

  lemma LeadsItself(s: Race)
    requires Fits(s)
    ensures Leads(s, s)
  {
    assert AllPossible(s, []) && PlayAll(s, []) == s;
  }

  lemma LeadsKeepsShape(start: Race, s: Race)
    requires Leads(start, s)
    ensures Fits(s)
  {
  }

  /** A lookup and its write with nobody in between are the fused step of RoomSteps. */
  lemma LookAndWrite(r: R.Room, w: Worker, now: int)
    requires |r.shards| == |r.counts| <= 64 && WorkerFits(r, w) && Fetched(w.pc) && w.look.Unlooked?
    ensures var (r1, w1) := WorkOn(r, w, now);
      && r1 == r && WorkerFits(r, w1)
      && var (r', pc) := AdvanceOn(r, w.pc, w.loop, now);
      if w1.pc.Idle? then r' == r && pc == Idle && w1 == w.(pc := pc)
      else WorkOn(r, w1, now) == (r', w.(pc := pc))
  {
    hide SetBit, ClearBit;
  }

  /** Several steps of one worker in a row. */
  lemma {:induction false} GoAlone(start: Race, s: Race, w: nat, now: int, n: nat) returns (t: Race)
    requires Leads(start, s) && w < |s.workers| && s.workers[w].look.Unlooked?
    ensures Leads(start, t) && Fits(s)
    ensures var (r, pc) := Advances(s.r, s.workers[w].pc, s.workers[w].loop, now, n);
      t == Race(r, s.workers[w := s.workers[w].(pc := pc)])
    decreases n
  {
    hide Leads, AdvanceOn, WorkOn;
    LeadsKeepsShape(start, s);
    var worker := s.workers[w];
    if n == 0 || worker.pc.Idle? {
      t := s;
      assert s.workers[w := worker] == s.workers;
    } else {
      AdvancesUnfolds(s.r, worker.pc, worker.loop, now, n);
      t := GoOnce(start, s, w, now);
      t := GoAlone(start, t, w, now, n - 1);
    }
  }

  lemma GoOnce(start: Race, s: Race, w: nat, now: int) returns (t: Race)
    requires Leads(start, s) && w < |s.workers| && s.workers[w].look.Unlooked? && !s.workers[w].pc.Idle?
    ensures Leads(start, t) && Fits(s)
    ensures var (r, pc) := AdvanceOn(s.r, s.workers[w].pc, s.workers[w].loop, now);
      t == Race(r, s.workers[w := s.workers[w].(pc := pc)])
  {
    hide Leads, AdvanceOn, LookAt, WriteTo;
    LeadsKeepsShape(start, s);
    LeadsOn(start, s, Go(w, now));
    t := Play(s, Go(w, now));
    if Fetched(s.workers[w].pc) {
      LookAndWrite(s.r, s.workers[w], now);
      if !t.workers[w].pc.Idle? {
        LeadsOn(start, t, Go(w, now));
        t := Play(t, Go(w, now));
      }
    }
  }
}
