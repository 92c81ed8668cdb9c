/** internal/broadcast/broadcaster.go beside joins and leaves: a broadcast ranges over the shards of a room while other
    goroutines write them. */
module BroadcastRace {
  import B = Broadcast
  import R = Rooms

  type Shards = seq<map<R.ConnId, R.Conn>>

  /** One call of sendToConn. */
  datatype Treated = Treated(loop: nat, id: R.ConnId, c: R.Conn)

  /** The broadcast ranges over the shard of `loop`. It has yet to produce the entries in `due`, which have been there
      since it began on that shard, and may produce those in `late`, which have come since. */
  datatype Pass = Pass(shards: Shards, loop: nat, due: set<R.ConnId>, late: set<R.ConnId>, treated: seq<Treated>)

  datatype Event =
    | Produce(id: R.ConnId)                         // the range yields an entry
    | NextLoop                                      // the range ends
    | Write(loop: nat, id: R.ConnId, c: R.Conn)     // an Add writes a shard
    | Delete(loop: nat, id: R.ConnId)               // a Remove does

  function DueOn(shards: Shards, loop: nat): set<R.ConnId> {
    if loop < |shards| then shards[loop].Keys else {}
  }

  function Begin(shards: Shards): Pass {
    Pass(shards, 0, DueOn(shards, 0), {}, [])
  }

  /** Go's range: an entry there from the beginning and not deleted is produced before the range ends, one that comes
      meanwhile may be, and one that is deleted before its turn is not; one that comes again is a new entry. */
  predicate Enabled(s: Pass, e: Event) {
    match e
    case Produce(id) => s.loop < |s.shards| && id in s.shards[s.loop] && id in s.due + s.late
    case NextLoop => s.loop < |s.shards| && s.due == {}
    case Write(i, _, _) => i < |s.shards|
    case Delete(i, _) => i < |s.shards|
  }

  function Step(s: Pass, e: Event): Pass
    requires Enabled(s, e)
  {
    match e
    case Produce(id) =>
      s.(due := s.due - {id}, late := s.late - {id}, treated := s.treated + [Treated(s.loop, id, s.shards[s.loop][id])])
    case NextLoop => s.(loop := s.loop + 1, due := DueOn(s.shards, s.loop + 1), late := {})
    case Write(i, id, c) =>
      s.(shards := s.shards[i := s.shards[i][id := c]],
         late := if i == s.loop && id !in s.shards[i] then s.late + {id} else s.late)
    case Delete(i, id) =>
      s.(shards := s.shards[i := s.shards[i] - {id}],
         due := if i == s.loop then s.due - {id} else s.due, late := if i == s.loop then s.late - {id} else s.late)
  }

  predicate AllEnabled(s: Pass, events: seq<Event>)
    decreases |events|
  {
    events == [] || (Enabled(s, events[0]) && AllEnabled(Step(s, events[0]), events[1..]))
  }

  function Run(s: Pass, events: seq<Event>): Pass
    requires AllEnabled(s, events)
    decreases |events|
  {
    if events == [] then s else Run(Step(s, events[0]), events[1..])
  }

  predicate Over(s: Pass) {
    s.loop >= |s.shards|
  }

  // ----- how often an entry is treated ----------------------------------------------------------------------------

  function Times(treated: seq<Treated>, i: nat, id: R.ConnId): nat {
    if treated == [] then 0
    else
      var last := treated[|treated| - 1];
      Times(treated[..|treated| - 1], i, id) + if last.loop == i && last.id == id then 1 else 0
  }

  lemma TimesSnoc(treated: seq<Treated>, t: Treated, i: nat, id: R.ConnId)
    ensures Times(treated + [t], i, id) == Times(treated, i, id) + if t.loop == i && t.id == id then 1 else 0
  {
    assert (treated + [t])[..|treated|] == treated;
  }

  predicate Has(s: Pass, i: nat, id: R.ConnId) {
    i < |s.shards| && id in s.shards[i]
  }

  /** The entry may still be produced. */
  predicate Open(s: Pass, i: nat, id: R.ConnId) {
    if i == s.loop then id in s.due + s.late else i > s.loop && Has(s, i, id)
  }

  /** The entry will still be produced, unless it is deleted. */
  predicate Due(s: Pass, i: nat, id: R.ConnId) {
    if i == s.loop then id in s.due else i > s.loop && Has(s, i, id)
  }

  /** The step makes a new entry. */
  predicate Comes(s: Pass, e: Event, i: nat, id: R.ConnId) {
    e.Write? && e.loop == i && e.id == id && !Has(s, i, id)
  }

  function Arrivals(s: Pass, events: seq<Event>, i: nat, id: R.ConnId): nat
    requires AllEnabled(s, events)
    decreases |events|
  {
    if events == [] then 0
    else (if Comes(s, events[0], i, id) then 1 else 0) + Arrivals(Step(s, events[0]), events[1..], i, id)
  }

  lemma StepTimes(s: Pass, e: Event, i: nat, id: R.ConnId)
    requires Enabled(s, e)
    ensures Times(Step(s, e).treated, i, id) ==
      Times(s.treated, i, id) + if e.Produce? && s.loop == i && e.id == id then 1 else 0
  {
    if e.Produce? {
      TimesSnoc(s.treated, Treated(s.loop, e.id, s.shards[s.loop][e.id]), i, id);
    }
  }

  /** Producing an entry closes it, and only a new entry opens. */
  lemma StepOpens(s: Pass, e: Event, i: nat, id: R.ConnId)
    requires Enabled(s, e)
    ensures Open(Step(s, e), i, id) ==> Open(s, i, id) || Comes(s, e, i, id)
    ensures e.Produce? && s.loop == i && e.id == id ==> Open(s, i, id) && !Open(Step(s, e), i, id)
  {
  }

  lemma {:induction false} RunTreatsAtMost(s: Pass, events: seq<Event>, i: nat, id: R.ConnId)
    requires AllEnabled(s, events)
    ensures Times(Run(s, events).treated, i, id)
         <= Times(s.treated, i, id) + (if Open(s, i, id) then 1 else 0) + Arrivals(s, events, i, id)
    decreases |events|
  {
    hide Step, Enabled, Open, Comes, Times;
    if events == [] {
    } else {
      StepTimes(s, events[0], i, id);
      StepOpens(s, events[0], i, id);
      RunTreatsAtMost(Step(s, events[0]), events[1..], i, id);
    }
  }

  /** The entry is there, and has been produced or will be. */
  predicate Served(s: Pass, i: nat, id: R.ConnId) {
    Has(s, i, id) && (Times(s.treated, i, id) >= 1 || Due(s, i, id))
  }

  lemma StepServes(s: Pass, e: Event, i: nat, id: R.ConnId)
    requires Enabled(s, e) && Served(s, i, id) && e != Delete(i, id)
    ensures Served(Step(s, e), i, id) && !Comes(s, e, i, id)
  {
    StepTimes(s, e, i, id);
  }

  predicate NeverDeleted(events: seq<Event>, i: nat, id: R.ConnId) {
    forall k | 0 <= k < |events| :: events[k] != Delete(i, id)
  }

  lemma {:induction false} RunServes(s: Pass, events: seq<Event>, i: nat, id: R.ConnId)
    requires AllEnabled(s, events) && Served(s, i, id) && NeverDeleted(events, i, id)
    ensures Served(Run(s, events), i, id) && Arrivals(s, events, i, id) == 0
    decreases |events|
  {
    hide Step, Enabled, Served, Comes;
    if events == [] {
    } else {
      StepServes(s, events[0], i, id);
      RunServes(Step(s, events[0]), events[1..], i, id);
    }
  }

  /** Whatever joins and leaves run beside a broadcast: an entry is treated at most once for each time it has been
      there, and a broadcast that is over has treated exactly once each that was there throughout. */
  lemma EachEntryOnce(shards: Shards, events: seq<Event>, i: nat, id: R.ConnId)
    requires AllEnabled(Begin(shards), events)
    ensures var s := Run(Begin(shards), events);
      && Times(s.treated, i, id)
           <= (if Has(Begin(shards), i, id) then 1 else 0) + Arrivals(Begin(shards), events, i, id)
      && (Over(s) && Has(Begin(shards), i, id) && NeverDeleted(events, i, id) ==> Times(s.treated, i, id) == 1)
  {
    hide Step, Enabled;
    RunTreatsAtMost(Begin(shards), events, i, id);
    if Has(Begin(shards), i, id) && NeverDeleted(events, i, id) {
      RunServes(Begin(shards), events, i, id);
    }
  }

  /** The bound is attained: an entry that is deleted after its turn and comes again is treated twice. */
  lemma ReturningEntryTwice(id: R.ConnId, c: R.Conn)
    ensures exists events ::
      && AllEnabled(Begin([map[id := c]]), events) && Over(Run(Begin([map[id := c]]), events))
      && Times(Run(Begin([map[id := c]]), events).treated, 0, id) == 2
  {
    var s := Begin([map[id := c]]);
    var s1 := Step(s, Produce(id));
    var s2 := Step(s1, Delete(0, id));
    var s3 := Step(s2, Write(0, id, c));
    var s4 := Step(s3, Produce(id));
    var s5 := Step(s4, NextLoop);
    TimesSnoc([], Treated(0, id, c), 0, id);
    TimesSnoc([Treated(0, id, c)], Treated(0, id, c), 0, id);
    assert s4.treated == [Treated(0, id, c)] + [Treated(0, id, c)];
    var events := [Produce(id), Delete(0, id), Write(0, id, c), Produce(id), NextLoop];
    RunsAgree(s, events, [s, s1, s2, s3, s4, s5]);
  }

  lemma {:induction false} RunsAgree(s: Pass, events: seq<Event>, states: seq<Pass>)
    requires |states| == |events| + 1 && states[0] == s
    requires forall k | 0 <= k < |events| ::
      Enabled(states[k], events[k]) && states[k + 1] == Step(states[k], events[k])
    ensures AllEnabled(s, events) && Run(s, events) == states[|events|]
    decreases |events|
  {
    hide Step, Enabled;
    if events == [] {
    } else {
      RunsAgree(states[1], events[1..], states[1..]);
    }
  }

  // ----- connections ------------------------------------------------------------------------------------------------

  /** Every entry is its connection's own, on its own loop. */
  ghost predicate EntriesAtHome(home: B.Home, s: Pass) {
    && (forall i, id | 0 <= i < |s.shards| && id in s.shards[i] ::
          i == home.loopOf(id) && s.shards[i][id] == home.handleOf(id))
    && (forall k | 0 <= k < |s.treated| ::
          s.treated[k].loop == home.loopOf(s.treated[k].id) && s.treated[k].c == home.handleOf(s.treated[k].id))
  }

  predicate WritesAtHome(home: B.Home, e: Event) {
    e.Write? ==> e.loop == home.loopOf(e.id) && e.c == home.handleOf(e.id)
  }

  lemma StepAtHome(home: B.Home, s: Pass, e: Event)
    requires Enabled(s, e) && EntriesAtHome(home, s) && WritesAtHome(home, e)
    ensures EntriesAtHome(home, Step(s, e))
  {
  }

  lemma {:induction false} RunAtHome(home: B.Home, s: Pass, events: seq<Event>)
    requires AllEnabled(s, events) && EntriesAtHome(home, s)
    requires forall k | 0 <= k < |events| :: WritesAtHome(home, events[k])
    ensures EntriesAtHome(home, Run(s, events))
    decreases |events|
  {
    hide Step, Enabled, EntriesAtHome;
    if events == [] {
    } else {
      StepAtHome(home, s, events[0]);
      RunAtHome(home, Step(s, events[0]), events[1..]);
    }
  }

  /** How often sendToConn was called on a connection. */
  function Calls(treated: seq<Treated>, c: R.Conn): nat {
    if treated == [] then 0
    else
      var last := treated[|treated| - 1];
      Calls(treated[..|treated| - 1], c) + if last.c == c then 1 else 0
  }

  lemma {:induction false} CallsAreTimes(home: B.Home, treated: seq<Treated>, id: R.ConnId)
    requires home.loopOf(id) >= 0 && forall a, b | a != b :: home.handleOf(a) != home.handleOf(b)
    requires forall k | 0 <= k < |treated| ::
      treated[k].loop == home.loopOf(treated[k].id) && treated[k].c == home.handleOf(treated[k].id)
    ensures Calls(treated, home.handleOf(id)) == Times(treated, home.loopOf(id), id)
  {
    if treated == [] {
    } else {
      CallsAreTimes(home, treated[..|treated| - 1], id);
    }
  }

  /** When every join writes the connection's own handle on its own loop, the broadcast calls sendToConn exactly once
      on every connection that is in the room throughout, at most once on one that only comes or only goes, and never
      on one that is not in the room at all. */
  lemma EachConnectionOnce(home: B.Home, shards: Shards, events: seq<Event>, id: R.ConnId)
    requires AllEnabled(Begin(shards), events) && EntriesAtHome(home, Begin(shards))
    requires forall k | 0 <= k < |events| :: WritesAtHome(home, events[k])
    requires home.loopOf(id) >= 0 && forall a, b | a != b :: home.handleOf(a) != home.handleOf(b)
    ensures var (s, i) := (Run(Begin(shards), events), home.loopOf(id));
      var calls := Calls(s.treated, home.handleOf(id));
      && calls <= (if Has(Begin(shards), i, id) then 1 else 0) + Arrivals(Begin(shards), events, i, id)
      && (Over(s) && Has(Begin(shards), i, id) && NeverDeleted(events, i, id) ==> calls == 1)
  {
    hide EntriesAtHome, Times, Calls;
    RunAtHome(home, Begin(shards), events);
    EachEntryOnce(shards, events, home.loopOf(id), id);
    HomeTreated(home, Run(Begin(shards), events));
    CallsAreTimes(home, Run(Begin(shards), events).treated, id);
  }

  lemma HomeTreated(home: B.Home, s: Pass)
    requires EntriesAtHome(home, s)
    ensures forall k | 0 <= k < |s.treated| ::
      s.treated[k].loop == home.loopOf(s.treated[k].id) && s.treated[k].c == home.handleOf(s.treated[k].id)
  {
  }
}
