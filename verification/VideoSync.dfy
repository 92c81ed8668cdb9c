/** internal/common/types.go and _deprecated/edge/video_sync.go: a session buffers danmaku until the viewer's
    video has reached them, and drops the oldest when too many wait. */
module VideoSync {
  import opened Collections
  import opened Messages

  // ----- one session's history -----------------------------------------------------------------------

  datatype Event = Arrive(d: Danmaku) | Flush(visible: int) | Drop(maxSize: nat)

  /** An arrival, named by its position in the history. */
  predicate IsArrival(ev: seq<Event>, k: int) {
    0 <= k < |ev| && ev[k].Arrive?
  }

  /** The viewer's clock has reached the danmaku. */
  predicate Reached(ev: seq<Event>, k: int, visible: int) {
    IsArrival(ev, k) && ev[k].d.videoTS <= visible
  }

  predicate DueAt(ev: seq<Event>, k: int, q: int)
    requires 0 <= q < |ev|
  {
    k < q && ev[q].Flush? && Reached(ev, k, ev[q].visible)
  }

  /** The arrivals of a list that a flush at `visible` keeps, or releases. */
  function Select(ev: seq<Event>, p: seq<int>, visible: int, due: bool): (r: seq<int>)
    ensures forall k :: k in r <==> k in p && (Reached(ev, k, visible) <==> due)
    ensures |r| <= |p|
  {
    if p == [] then []
    else
      var k, front := p[|p| - 1], p[..|p| - 1];
      var r := Select(ev, front, visible, due);
      assert p == front + [k];
      if Reached(ev, k, visible) <==> due then r + [k] else r
  }

  function Newest(p: seq<int>, maxSize: nat): (r: seq<int>)
    ensures forall k | k in r :: k in p
  {
    if |p| <= maxSize then p else p[|p| - maxSize..]
  }

  /** What the buffer holds after the history. */
  function Pending(ev: seq<Event>): (p: seq<int>)
    ensures forall k | k in p :: IsArrival(ev, k)
  {
    if ev == [] then []
    else
      var n, before := |ev| - 1, Pending(ev[..|ev| - 1]);
      match ev[n]
      case Arrive(_) => before + [n]
      case Flush(visible) => Select(ev, before, visible, false)
      case Drop(maxSize) => Newest(before, maxSize)
  }

  /** What the last event of the history releases to the viewer. */
  function Batch(ev: seq<Event>): seq<int>
    requires ev != []
  {
    match ev[|ev| - 1]
    case Flush(visible) => Select(ev, Pending(ev[..|ev| - 1]), visible, true)
    case _ => []
  }

  lemma {:induction false} SelectAscending(ev: seq<Event>, p: seq<int>, visible: int, due: bool)
    requires Ascending(p)
    ensures Ascending(Select(ev, p, visible, due))
  {
    if p == [] {
    } else {
      var front := p[..|p| - 1];
      SelectAscending(ev, front, visible, due);
      var r := Select(ev, front, visible, due);
      forall i | 0 <= i < |r|
        ensures r[i] < p[|p| - 1]
      {
        assert r[i] in r && r[i] in front;
      }
    }
  }

  /** The buffer keeps arrival order and holds nothing twice. */
  lemma {:induction false} PendingAscending(ev: seq<Event>)
    ensures Ascending(Pending(ev))
  {
    if ev == [] {
    } else {
      var front := ev[..|ev| - 1];
      PendingAscending(front);
      var p := Pending(front);
      assert forall i | 0 <= i < |p| :: p[i] in p && IsArrival(front, p[i]);
      if ev[|ev| - 1].Flush? {
        SelectAscending(ev, Pending(front), ev[|ev| - 1].visible, false);
      }
    }
  }

  lemma BatchAscending(ev: seq<Event>)
    requires ev != []
    ensures Ascending(Batch(ev))
  {
    PendingAscending(ev[..|ev| - 1]);
    if ev[|ev| - 1].Flush? {
      SelectAscending(ev, Pending(ev[..|ev| - 1]), ev[|ev| - 1].visible, true);
    }
  }

  ghost predicate AllLater(p: seq<int>, k: int) {
    forall j | j in p :: j > k
  }

  // ----- the fate of an arrival -------------------------------------------------------------------------

  datatype Fate = Buffered | Delivered(at: int) | Dropped(at: int)

  /** Fate by the viewer's clock alone: the first flush that reaches the danmaku, if any. */
  function FirstDue(ev: seq<Event>, k: int): (q: Option<int>)
    requires IsArrival(ev, k)
    ensures q.Some? ==> 0 <= q.value < |ev| && DueAt(ev, k, q.value)
    ensures forall r: int | 0 <= r < |ev| && (q.Some? ==> r < q.value) :: !DueAt(ev, k, r)
  {
    var n := |ev| - 1;
    if k == n then None
    else
      var before := FirstDue(ev[..n], k);
      assert forall r: int | 0 <= r < n :: DueAt(ev[..n], k, r) == DueAt(ev, k, r);
      if before.Some? then before
      else if DueAt(ev, k, n) then Some(n) else None
  }

  ghost predicate IsDelivered(ev: seq<Event>, k: int, q: int) {
    0 <= q < |ev| && k in Batch(ev[..q + 1])
  }

  ghost predicate IsDropped(ev: seq<Event>, k: int, q: int) {
    0 <= q < |ev| && ev[q].Drop? && k in Pending(ev[..q]) && k !in Pending(ev[..q + 1])
  }

  ghost predicate HasFate(ev: seq<Event>, k: int, f: Fate) {
    match f
    case Buffered => k in Pending(ev)
    case Delivered(q) => IsDelivered(ev, k, q)
    case Dropped(q) => IsDropped(ev, k, q)
  }

  /** The fate computed event by event. */
  ghost function FateOf(ev: seq<Event>, k: int): Fate
    requires IsArrival(ev, k)
  {
    var n := |ev| - 1;
    if k == n then Buffered
    else
      var before := FateOf(ev[..n], k);
      if before != Buffered || k in Pending(ev) then before
      else if ev[n].Flush? then Delivered(n) else Dropped(n)
  }

  lemma Prefixes(ev: seq<Event>, q: int)
    requires 0 <= q < |ev| - 1
    ensures ev[..|ev| - 1][..q + 1] == ev[..q + 1] && ev[..|ev| - 1][..q] == ev[..q]
  {
  }

  /** What the last event does to an arrival that is or is not pending before it. */
  lemma LastEvent(ev: seq<Event>, k: int)
    requires IsArrival(ev, k) && k < |ev| - 1
    ensures var n, front := |ev| - 1, ev[..|ev| - 1];
      && (k in Pending(ev) ==> k in Pending(front))
      && (IsDelivered(ev, k, n) <==> k in Pending(front) && DueAt(ev, k, n))
      && (IsDropped(ev, k, n) <==> k in Pending(front) && k !in Pending(ev) && !ev[n].Flush?)
      && (k in Pending(front) && k !in Pending(ev) <==> IsDelivered(ev, k, n) || IsDropped(ev, k, n))
  {
    var n, front := |ev| - 1, ev[..|ev| - 1];
    assert ev[..n + 1] == ev;
    assert IsArrival(front, k);
  }

  /** Every arrival has exactly one fate. */
  lemma {:induction false} FateIsUnique(ev: seq<Event>, k: int, f: Fate)
    requires IsArrival(ev, k)
    ensures HasFate(ev, k, f) <==> f == FateOf(ev, k)
  {
    hide Pending, Batch;
    var n := |ev| - 1;
    if k == n {
      NewArrival(ev, f);
    } else {
      var front := ev[..n];
      LastEvent(ev, k);
      FateIsUnique(front, k, Buffered);
      FateIsUnique(front, k, f);
      if !f.Buffered? && 0 <= f.at < n {
        Prefixes(ev, f.at);
      }
    }
  }

  lemma NewArrival(ev: seq<Event>, f: Fate)
    requires ev != [] && ev[|ev| - 1].Arrive?
    ensures HasFate(ev, |ev| - 1, f) <==> f == Buffered
  {
    if !f.Buffered? && 0 <= f.at < |ev| {
      assert |ev[..f.at + 1]| <= |ev|;
      if f.Delivered? && ev[f.at].Flush? {
        var q := f.at;
        assert ev[..q + 1][..q] == ev[..q];
        assert forall k | k in Pending(ev[..q]) :: k < q;
      }
    }
  }

  /** A danmaku is released at the first flush after its arrival that reaches it, unless it was dropped
      before; it is dropped only when at least maxSize later arrivals are still waiting. */
  lemma {:induction false} DeliveredWhenDueUnlessDropped(ev: seq<Event>, k: int)
    requires IsArrival(ev, k)
    ensures FateOf(ev, k).Buffered? ==> FirstDue(ev, k) == None
    ensures FateOf(ev, k).Delivered? ==> FirstDue(ev, k) == Some(FateOf(ev, k).at)
    ensures FateOf(ev, k).Dropped? ==>
      var q := FateOf(ev, k).at;
      && (FirstDue(ev, k).Some? ==> q < FirstDue(ev, k).value)
      && 0 <= q < |ev| && ev[q].Drop? && |Pending(ev[..q + 1])| == ev[q].maxSize
      && AllLater(Pending(ev[..q + 1]), k)
  {
    hide Pending, Batch, AllLater, IsDelivered;
    var n := |ev| - 1;
    if k == n {
    } else {
      var front := ev[..n];
      DeliveredWhenDueUnlessDropped(front, k);
      LastEvent(ev, k);
      FateIsUnique(front, k, Buffered);
      if FateOf(ev, k) == Dropped(n) {
        DroppedAreOlder(ev, k);
      } else if FateOf(ev, k).Dropped? {
        Prefixes(ev, FateOf(ev, k).at);
      }
    }
  }

  lemma DroppedAreOlder(ev: seq<Event>, k: int)
    requires IsArrival(ev, k) && IsDropped(ev, k, |ev| - 1)
    ensures ev[..|ev|] == ev && |Pending(ev)| == ev[|ev| - 1].maxSize
    ensures AllLater(Pending(ev), k)
  {
    var n := |ev| - 1;
    assert ev[..n + 1] == ev;
    PendingAscending(ev[..n]);
    SuffixIsLater(Pending(ev[..n]), |Pending(ev[..n])| - ev[n].maxSize, k);
  }

  lemma SuffixIsLater(p: seq<int>, cut: nat, k: int)
    requires Ascending(p) && cut <= |p| && k in p && k !in p[cut..]
    ensures AllLater(p[cut..], k)
  {
    assert p == p[..cut] + p[cut..];
    var i :| 0 <= i < |p[..cut]| && p[..cut][i] == k;
    forall j | j in p[cut..]
      ensures j > k
    {
      var m :| 0 <= m < |p[cut..]| && p[cut..][m] == j;
      assert p[cut + m] == j;
    }
  }

  // ----- the imperative code ------------------------------------------------------------------------------

  function DanmakuOf(ev: seq<Event>, p: seq<int>): (ds: seq<Danmaku>)
    requires forall i | 0 <= i < |p| :: IsArrival(ev, p[i])
    ensures |ds| == |p|
  {
    seq(|p|, i requires 0 <= i < |p| && IsArrival(ev, p[i]) => ev[p[i]].d)
  }

  lemma ArrivalsPersist(ev: seq<Event>, p: seq<int>, e: Event)
    requires forall i | 0 <= i < |p| :: IsArrival(ev, p[i])
    ensures forall i | 0 <= i < |p| :: IsArrival(ev + [e], p[i])
    ensures DanmakuOf(ev + [e], p) == DanmakuOf(ev, p)
  {
  }

  lemma PendingArrivals(ev: seq<Event>)
    ensures forall i | 0 <= i < |Pending(ev)| :: IsArrival(ev, Pending(ev)[i])
    ensures ev != [] ==> forall i | 0 <= i < |Batch(ev)| :: IsArrival(ev, Batch(ev)[i])
  {
    var p := Pending(ev);
    assert forall i | 0 <= i < |p| :: p[i] in p;
    if ev != [] {
      var b := Batch(ev);
      assert forall i | 0 <= i < |b| :: b[i] in b;
    }
  }

  /** One more event, in terms of what was pending before it. */
  lemma PendingAppend(ev: seq<Event>, e: Event)
    ensures Pending(ev + [e]) ==
      if e.Arrive? then Pending(ev) + [|ev|]
      else if e.Flush? then Select(ev + [e], Pending(ev), e.visible, false)
      else Newest(Pending(ev), e.maxSize)
    ensures e.Flush? ==> Batch(ev + [e]) == Select(ev + [e], Pending(ev), e.visible, true)
  {
    assert (ev + [e])[..|ev + [e]| - 1] == ev;
  }

  lemma SelectNext(ev: seq<Event>, p: seq<int>, i: nat, visible: int, due: bool)
    requires i < |p|
    ensures Select(ev, p[..i + 1], visible, due) ==
      if Reached(ev, p[i], visible) <==> due then Select(ev, p[..i], visible, due) + [p[i]]
      else Select(ev, p[..i], visible, due)
  {
    assert p[..i + 1][..i] == p[..i];
  }

  lemma DanmakuOfAppend(ev: seq<Event>, p: seq<int>, k: int)
    requires (forall i | 0 <= i < |p| :: IsArrival(ev, p[i])) && IsArrival(ev, k)
    ensures forall i | 0 <= i < |p + [k]| :: IsArrival(ev, (p + [k])[i])
    ensures DanmakuOf(ev, p + [k]) == DanmakuOf(ev, p) + [ev[k].d]
  {
  }

  /** The batches that have reached the viewer: those with something in them. */
  ghost function Releases(ev: seq<Event>): seq<seq<Danmaku>> {
    if ev == [] then []
    else
      PendingArrivals(ev);
      var before := Releases(ev[..|ev| - 1]);
      if Batch(ev) == [] then before else before + [DanmakuOf(ev, Batch(ev))]
  }

  lemma ReleasesAppend(ev: seq<Event>, e: Event)
    ensures forall i | 0 <= i < |Batch(ev + [e])| :: IsArrival(ev + [e], Batch(ev + [e])[i])
    ensures Releases(ev + [e]) ==
      if Batch(ev + [e]) == [] then Releases(ev) else Releases(ev) + [DanmakuOf(ev + [e], Batch(ev + [e]))]
    ensures !e.Flush? ==> Releases(ev + [e]) == Releases(ev)
  {
    hide Pending, DanmakuOf, Select;
    PendingArrivals(ev + [e]);
    assert (ev + [e])[..|ev + [e]| - 1] == ev;
  }

  /** Whether the video time of a danmaku has been reached, or has not. */
  function ByTime(visible: int, reached: bool): Danmaku -> bool {
    (d: Danmaku) => (d.videoTS <= visible) == reached
  }

  /** What a flush releases, and what it keeps, by the video times of the buffer's danmaku. */
  lemma {:induction false} SelectByTime(ev: seq<Event>, p: seq<int>, visible: int, due: bool)
    requires forall i | 0 <= i < |p| :: IsArrival(ev, p[i])
    ensures forall i | 0 <= i < |Select(ev, p, visible, due)| :: IsArrival(ev, Select(ev, p, visible, due)[i])
    ensures DanmakuOf(ev, Select(ev, p, visible, due))
         == Filter(DanmakuOf(ev, p), ByTime(visible, due))
  {
    if p == [] {
    } else {
      hide Select, DanmakuOf;
      var front, last := p[..|p| - 1], p[|p| - 1];
      assert p == front + [last] && p[..|front|] == front && p[..|front| + 1] == p;
      SelectByTime(ev, front, visible, due);
      SelectNext(ev, p, |front|, visible, due);
      DanmakuOfAppend(ev, front, last);
      DanmakuOfAppend(ev, Select(ev, front, visible, due), last);
      FilterSnoc(DanmakuOf(ev, front), ev[last].d, ByTime(visible, due));
    }
  }

  /** The last maxSize, or all if there are fewer. */
  function LastOf(buffer: seq<Danmaku>, maxSize: nat): seq<Danmaku> {
    buffer[if |buffer| > maxSize then |buffer| - maxSize else 0..]
  }

  /** What a session holds before a sync. */
  datatype Snapshot = Snapshot(
    history: seq<Event>, delta: int, buffer: seq<Danmaku>, released: seq<seq<Danmaku>>)

  class UserSession {
    var delayDelta: int
    var buffer: seq<Danmaku>
    /** The batches handed to onDueDanmakus. */
    var released: seq<seq<Danmaku>>
    ghost var history: seq<Event>

    ghost predicate Valid()
      reads this
    {
      && (forall i | 0 <= i < |Pending(history)| :: IsArrival(history, Pending(history)[i]))
      && buffer == DanmakuOf(history, Pending(history))
    }

    /** What the viewer has received is what the history releases; FlushDueDanmaku leaves the last batch
        to its caller. */
    ghost predicate Delivered()
      reads this
    {
      released == Releases(history)
    }

    ghost function Now(): Snapshot
      reads this
    {
      Snapshot(history, delayDelta, buffer, released)
    }

    constructor ()
      ensures Valid() && Delivered() && history == [] && delayDelta == 0
    {
      delayDelta, buffer, released, history := 0, [], [], [];
    }

    method OnDanmaku(d: Danmaku)
      requires Valid()
      modifies `buffer, `history
      ensures Valid() && history == old(history) + [Arrive(d)]
      ensures old(Delivered()) ==> Delivered()
    {
      hide Pending, DanmakuOf, Releases;
      ReleasesAppend(history, Arrive(d));
      PendingAppend(history, Arrive(d));
      ArrivalsPersist(history, Pending(history), Arrive(d));
      PendingArrivals(history + [Arrive(d)]);
      DanmakuOfAppend(history + [Arrive(d)], Pending(history), |history|);
      buffer := buffer + [d];
      history := history + [Arrive(d)];
    }

    method FlushDueDanmaku(visibleTS: int) returns (due: seq<Danmaku>)
      requires Valid()
      modifies `buffer, `history
      ensures Valid() && history == old(history) + [Flush(visibleTS)]
      ensures forall i | 0 <= i < |Batch(history)| :: IsArrival(history, Batch(history)[i])
      ensures due == DanmakuOf(history, Batch(history))
      ensures due == Filter(old(buffer), ByTime(visibleTS, true))
      ensures buffer == Filter(old(buffer), ByTime(visibleTS, false))
    {
      hide Pending, DanmakuOf, Batch, Select;
      ghost var p, ev := Pending(history), history + [Flush(visibleTS)];
      PendingAppend(history, Flush(visibleTS));
      ArrivalsPersist(history, p, Flush(visibleTS));
      PendingArrivals(ev);
      var remaining: seq<Danmaku>;
      SelectByTime(ev, p, visibleTS, true);
      SelectByTime(ev, p, visibleTS, false);
      due, remaining := Partition(visibleTS);
      buffer := remaining;
      history := ev;
    }

    /** The loop of FlushDueDanmaku over the buffer. */
    method Partition(visibleTS: int) returns (due: seq<Danmaku>, remaining: seq<Danmaku>)
      ensures due == Filter(buffer, ByTime(visibleTS, true))
      ensures remaining == Filter(buffer, ByTime(visibleTS, false))
    {
      due, remaining := [], [];
      for i := 0 to |buffer|
        invariant due == Filter(buffer[..i], ByTime(visibleTS, true))
        invariant remaining == Filter(buffer[..i], ByTime(visibleTS, false))
      {
        assert buffer[..i + 1] == buffer[..i] + [buffer[i]];
        FilterSnoc(buffer[..i], buffer[i], ByTime(visibleTS, true));
        FilterSnoc(buffer[..i], buffer[i], ByTime(visibleTS, false));
        if buffer[i].videoTS <= visibleTS {
          due := due + [buffer[i]];
        } else {
          remaining := remaining + [buffer[i]];
        }
      }
      assert buffer[..|buffer|] == buffer;
    }

    method DropOverflow(maxSize: nat) returns (dropped: nat)
      requires Valid()
      modifies `buffer, `history
      ensures Valid() && history == old(history) + [Drop(maxSize)]
      ensures |buffer| <= maxSize && dropped == |old(buffer)| - |buffer|
      ensures buffer == LastOf(old(buffer), maxSize)
      ensures old(Delivered()) ==> Delivered()
    {
      hide Pending, Releases;
      ReleasesAppend(history, Drop(maxSize));
      ghost var p := Pending(history);
      PendingAppend(history, Drop(maxSize));
      ArrivalsPersist(history, p, Drop(maxSize));
      PendingArrivals(history + [Drop(maxSize)]);
      history := history + [Drop(maxSize)];
      if |buffer| <= maxSize {
        return 0;
      }
      dropped := |buffer| - maxSize;
      buffer := buffer[dropped..];
    }

    /** The part of sync that concerns one session. */
    method Sync(visibleTS: int, maxBufferSize: nat)
      requires Valid() && Delivered()
      modifies `buffer, `history, `released
      ensures Valid() && Delivered() && history == old(history) + [Flush(visibleTS), Drop(maxBufferSize)]
      ensures |buffer| <= maxBufferSize
      ensures var due := Filter(old(buffer), ByTime(visibleTS, true));
        released == if due == [] then old(released) else old(released) + [due]
      ensures buffer ==
        LastOf(Filter(old(buffer), ByTime(visibleTS, false)), maxBufferSize)
    {
      hide Pending, DanmakuOf, Batch, Releases, IsArrival;
      ReleasesAppend(history, Flush(visibleTS));
      var due := FlushDueDanmaku(visibleTS);
      if |due| > 0 {
        released := released + [due];
      }
      var n := DropOverflow(maxBufferSize);
    }
  }

  class RoomInfo {
    var currentVideoTS: int
    var sessions: map<int, UserSession>
  }

  /** sync calls DropOverflow only on an overfull buffer; on any other it would do nothing. */
  lemma DropWithinLimit(ev: seq<Event>, maxSize: nat)
    requires |Pending(ev)| <= maxSize
    ensures Pending(ev + [Drop(maxSize)]) == Pending(ev)
  {
    PendingAppend(ev, Drop(maxSize));
  }

  function SyncEvents(roomTS: int, delay: int, delta: int, maxSize: nat): seq<Event> {
    if roomTS <= 0 then [] else [Flush(roomTS - delay + delta), Drop(maxSize)]
  }

  class VideoSyncEngine {
    const videoDelayMs: int
    const maxBufferSize: nat

    constructor (videoDelayMs: int, maxBufferSize: nat)
      ensures this.videoDelayMs == videoDelayMs && this.maxBufferSize == maxBufferSize
    {
      this.videoDelayMs, this.maxBufferSize := videoDelayMs, maxBufferSize;
    }

    /** A session belongs to one room and one user. */
    static ghost predicate Separate(rooms: seq<RoomInfo>)
      reads rooms
    {
      && (forall i, j | 0 <= i < j < |rooms| :: rooms[i].sessions.Values !! rooms[j].sessions.Values)
      && (forall i, u, v | 0 <= i < |rooms| && u in rooms[i].sessions && v in rooms[i].sessions && u != v ::
            rooms[i].sessions[u] != rooms[i].sessions[v])
    }

    static ghost function Sessions(rooms: seq<RoomInfo>): set<UserSession>
      reads rooms
    {
      set i, s | 0 <= i < |rooms| && s in rooms[i].sessions.Values :: s
    }

    /** What one sync leaves of a session. The viewer's clock is the room's video time less the delay plus the session's
        own delta. The danmaku it has reached are released as one batch, in order; of the others the last maxBufferSize
        stay. Before the room's video has started nothing happens. */
    ghost predicate Synced(s: UserSession, was: Snapshot, roomTS: int)
      reads s
    {
      && s.Valid() && s.Delivered()
      && s.history == was.history + SyncEvents(roomTS, videoDelayMs, was.delta, maxBufferSize)
      && if roomTS <= 0 then s.buffer == was.buffer && s.released == was.released
         else
           var due := Filter(was.buffer, ByTime(roomTS - videoDelayMs + was.delta, true));
           var later := Filter(was.buffer, ByTime(roomTS - videoDelayMs + was.delta, false));
           && s.released == (if due == [] then was.released else was.released + [due])
           && s.buffer == LastOf(later, maxBufferSize)
    }

    method SyncRoom(room: RoomInfo)
      requires forall u, v | u in room.sessions && v in room.sessions && u != v :: room.sessions[u] != room.sessions[v]
      requires forall u | u in room.sessions :: room.sessions[u].Valid() && room.sessions[u].Delivered()
      modifies room.sessions.Values
      ensures forall u | u in room.sessions ::
        Synced(room.sessions[u], old(room.sessions[u].Now()), room.currentVideoTS)
    {
      hide UserSession.Valid, UserSession.Delivered;
      var roomVideoTS := room.currentVideoTS;
      if roomVideoTS <= 0 {
        return;
      }
      hide Synced, UserSession.Now;
      var sessions := room.sessions;
      ghost var was := map u | u in sessions :: sessions[u].Now();
      var toVisit := sessions.Keys;
      while toVisit != {}
        invariant toVisit <= sessions.Keys
        invariant forall u | u in toVisit ::
          sessions[u].Valid() && sessions[u].Delivered() && sessions[u].Now() == was[u]
        invariant forall u | u in sessions && u !in toVisit :: Synced(sessions[u], was[u], roomVideoTS)
        decreases |toVisit|
      {
        ghost var some := HasElement(toVisit);
        var u :| u in toVisit;
        toVisit := toVisit - {u};
        SyncSession(sessions[u], roomVideoTS);
      }
    }

    method SyncSession(session: UserSession, roomVideoTS: int)
      requires session.Valid() && session.Delivered() && roomVideoTS > 0
      modifies session
      ensures Synced(session, old(session.Now()), roomVideoTS)
    {
      hide UserSession.Valid, UserSession.Delivered, Filter, ByTime, LastOf;
      session.Sync(roomVideoTS - videoDelayMs + session.delayDelta, maxBufferSize);
    }

    /** sync, over the rooms in the order the map range gives them. */
    method Sync(rooms: seq<RoomInfo>)
      requires Separate(rooms)
      requires forall i, u | 0 <= i < |rooms| && u in rooms[i].sessions ::
        rooms[i].sessions[u].Valid() && rooms[i].sessions[u].Delivered()
      modifies Sessions(rooms)
      ensures forall i, u | 0 <= i < |rooms| && u in rooms[i].sessions ::
        Synced(rooms[i].sessions[u], old(rooms[i].sessions[u].Now()), rooms[i].currentVideoTS)
    {
      hide UserSession.Valid, UserSession.Delivered, Synced;
      for n := 0 to |rooms|
        invariant forall i, u | n <= i < |rooms| && u in rooms[i].sessions ::
          rooms[i].sessions[u].Valid() && rooms[i].sessions[u].Delivered()
            && rooms[i].sessions[u].Now() == old(rooms[i].sessions[u].Now())
        invariant forall i, u | 0 <= i < n && u in rooms[i].sessions ::
          Synced(rooms[i].sessions[u], old(rooms[i].sessions[u].Now()), rooms[i].currentVideoTS)
      {
        SyncRoom(rooms[n]);
      }
    }
  }
}
