/** internal/app/loop_registry.go and loop_dispatcher.go: stable dense indexes for event loops, and the
    dispatcher's map from an index back to its loop. */
module Loops {
  import opened Collections

  /** A gnet.EventLoop, compared by identity. */
  type EventLoop = int

  datatype DispatchError = DispatcherNil | TaskNil | LoopNotBound | LoopExecute

  /** The indexes are exactly 0 to the number of loops minus one, one loop each. */
  ghost predicate Dense(indexes: map<EventLoop, int>) {
    && (forall l | l in indexes :: 0 <= indexes[l] < |indexes|)
    && (forall l, k | l in indexes && k in indexes && l != k :: indexes[l] != indexes[k])
  }

  /** One ResolveLoopIdx on a connection of this loop: the registry afterwards. */
  function Assign(indexes: map<EventLoop, int>, loop: EventLoop): map<EventLoop, int> {
    if loop in indexes then indexes else indexes[loop := |indexes|]
  }

  function AssignAll(indexes: map<EventLoop, int>, loops: seq<EventLoop>): map<EventLoop, int>
    decreases |loops|
  {
    if loops == [] then indexes else AssignAll(Assign(indexes, loops[0]), loops[1..])
  }

  /** The loops that Bind has recorded are the inverse of the registry. */
  ghost predicate Inverse(indexes: map<EventLoop, int>, bound: map<int, EventLoop>) {
    && (forall l | l in indexes :: indexes[l] in bound && bound[indexes[l]] == l)
    && (forall i | i in bound :: bound[i] in indexes && indexes[bound[i]] == i)
  }

  lemma AssignKeepsDense(indexes: map<EventLoop, int>, loop: EventLoop)
    requires Dense(indexes)
    ensures Dense(Assign(indexes, loop))
  {
  }

  /** Over any run of resolutions indexes stay dense, never change once given, and stay below the number
      of loops there are, so that every one of them is a valid shard of the room manager. */
  lemma {:induction false} IndexesAreStableAndDense(
    indexes: map<EventLoop, int>, loops: seq<EventLoop>, all: set<EventLoop>)
    requires Dense(indexes) && indexes.Keys <= all && forall l | l in loops :: l in all
    ensures var later := AssignAll(indexes, loops);
      && Dense(later)
      && (forall l | l in indexes :: l in later && later[l] == indexes[l])
      && (forall l | l in loops :: l in later)
      && (forall l | l in later :: 0 <= later[l] < |all|)
    decreases |loops|
  {
    if loops == [] {
      SubsetSize(indexes.Keys, all);
    } else {
      AssignKeepsDense(indexes, loops[0]);
      IndexesAreStableAndDense(Assign(indexes, loops[0]), loops[1..], all);
      assert forall l | l in loops :: l == loops[0] || l in loops[1..];
    }
  }

  class LoopRegistry {
    var indexByLoop: map<EventLoop, int>
    var next: int

    ghost predicate Valid()
      reads this
    {
      Dense(indexByLoop) && next == |indexByLoop|
    }

    constructor ()
      ensures Valid() && indexByLoop == map[]
    {
      indexByLoop, next := map[], 0;
    }

    /** GetOrAssign; a nil loop shares index 0 with the first real one. */
    method GetOrAssign(loop: Option<EventLoop>) returns (idx: int)
      requires Valid()
      modifies this
      ensures Valid()
      ensures loop.None? ==> idx == 0 && indexByLoop == old(indexByLoop)
      ensures loop.Some? ==> indexByLoop == Assign(old(indexByLoop), loop.value) && idx == indexByLoop[loop.value]
    {
      if loop.None? {
        return 0;
      }
      if loop.value in indexByLoop {
        return indexByLoop[loop.value];
      }
      idx := next;
      indexByLoop := indexByLoop[loop.value := idx];
      next := next + 1;
    }
  }

  class LoopDispatcher {
    var loops: map<int, EventLoop>
    var totalDispatches: int
    var successCount: int
    var errNotBoundCount: int
    var errExecuteCount: int
    /** The loops tasks were handed to, in order. */
    var executed: seq<EventLoop>

    /** Every dispatch ends in exactly one of the three outcomes. */
    ghost predicate Valid()
      reads this
    {
      totalDispatches == successCount + errNotBoundCount + errExecuteCount && successCount == |executed|
    }

    constructor ()
      ensures Valid() && loops == map[] && executed == []
    {
      loops, executed := map[], [];
      totalDispatches, successCount, errNotBoundCount, errExecuteCount := 0, 0, 0, 0;
    }

    method Bind(loopIdx: int, loop: Option<EventLoop>)
      requires Valid()
      modifies `loops
      ensures Valid()
      ensures loops == if loop.None? || loopIdx < 0 then old(loops) else old(loops)[loopIdx := loop.value]
    {
      if loop.None? || loopIdx < 0 {
        return;
      }
      loops := loops[loopIdx := loop.value];
    }

    /** Dispatch, on a dispatcher that may be nil; `accepts` tells whether the loop's Execute takes the task. */
    static method Dispatch(d: LoopDispatcher?, loopIdx: int, hasTask: bool, accepts: bool)
      returns (error: Option<DispatchError>)
      requires d != null ==> d.Valid()
      modifies d
      ensures d == null ==> error == Some(DispatcherNil)
      ensures d != null ==>
        && d.Valid() && d.loops == old(d.loops)
        && error == (if !hasTask then Some(TaskNil) else if loopIdx !in d.loops then Some(LoopNotBound)
                     else if !accepts then Some(LoopExecute) else None)
        && d.totalDispatches == old(d.totalDispatches) + (if hasTask then 1 else 0)
        && d.successCount == old(d.successCount) + (if error.None? then 1 else 0)
        && d.errNotBoundCount == old(d.errNotBoundCount) + (if error == Some(LoopNotBound) then 1 else 0)
        && d.errExecuteCount == old(d.errExecuteCount) + (if error == Some(LoopExecute) then 1 else 0)
        && d.executed == if error.None? then old(d.executed) + [d.loops[loopIdx]] else old(d.executed)
    {
      if d == null {
        return Some(DispatcherNil);
      }
      if !hasTask {
        return Some(TaskNil);
      }
      d.totalDispatches := d.totalDispatches + 1;
      if loopIdx !in d.loops {
        d.errNotBoundCount := d.errNotBoundCount + 1;
        return Some(LoopNotBound);
      }
      if !accepts {
        d.errExecuteCount := d.errExecuteCount + 1;
        return Some(LoopExecute);
      }
      d.executed := d.executed + [d.loops[loopIdx]];
      d.successCount := d.successCount + 1;
      return None;
    }
  }

  /** ResolveLoopIdx keeps the two maps inverse to each other, so that a task dispatched to the index returned
      runs on the connection's own loop. Without a connection, its loop or a registry the index is 0 and nothing
      is recorded; without a dispatcher only the registry is. */
  method ResolveLoopIdx(registry: LoopRegistry?, dispatcher: LoopDispatcher?, conn: Option<Option<EventLoop>>)
    returns (idx: int)
    requires registry != null ==> registry.Valid()
    requires dispatcher != null ==> dispatcher.Valid()
    requires registry != null && dispatcher != null ==> Inverse(registry.indexByLoop, dispatcher.loops)
    modifies registry, dispatcher
    ensures registry != null ==> registry.Valid()
    ensures dispatcher != null ==> dispatcher.Valid()
    ensures registry != null && dispatcher != null ==> Inverse(registry.indexByLoop, dispatcher.loops)
    ensures registry == null || conn.None? || conn.value.None? ==>
      && idx == 0
      && (registry != null ==> registry.indexByLoop == old(registry.indexByLoop))
      && (dispatcher != null ==> dispatcher.loops == old(dispatcher.loops))
    ensures registry != null && conn.Some? && conn.value.Some? ==>
      && registry.indexByLoop == Assign(old(registry.indexByLoop), conn.value.value)
      && idx == registry.indexByLoop[conn.value.value]
      && (dispatcher != null ==>
            && dispatcher.loops == old(dispatcher.loops)[idx := conn.value.value]
            && dispatcher.executed == old(dispatcher.executed))
  {
    if conn.None? || registry == null {
      return 0;
    }
    idx := registry.GetOrAssign(conn.value);
    if dispatcher != null {
      dispatcher.Bind(idx, conn.value);
    }
  }
}
