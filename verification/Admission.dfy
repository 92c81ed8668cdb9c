/** internal/server/event_handler.go: the node-wide connection counter. Many connections open and close
    at once; the atomic Add(1), the comparison of its result, and the compensating Add(-1) are separate
    steps. OnClose runs once for every connection, admitted or not, and so does the heartbeat's Close. */
module Admission {
  import opened Collections

  type ConnId = int

  datatype Phase =
    | Added(seen: int)      // OnOpen: Add(1) returned `seen`
    | Rejecting             // the comparison failed; Add(-1) is due
    | Rejected              // OnOpen returned Close without setting a context
    | Admitted              // OnOpen set the context
    | Gone                  // OnClose has run

  datatype State = State(counter: int, phases: map<ConnId, Phase>, allConns: set<ConnId>)

  const INIT := State(0, map[], {})

  datatype Event =
    | OpenAdd(c: ConnId)
    | OpenCompare(c: ConnId)
    | OpenUndo(c: ConnId)
    | Evict(c: ConnId)      // the heartbeat: AllConns.Delete, then Close
    | OnClose(c: ConnId)

  predicate Enabled(s: State, e: Event) {
    match e
    case OpenAdd(c) => c !in s.phases
    case OpenCompare(c) => c in s.phases && s.phases[c].Added?
    case OpenUndo(c) => c in s.phases && s.phases[c].Rejecting?
    case Evict(c) => c in s.allConns
    case OnClose(c) => c in s.phases && (s.phases[c].Rejected? || s.phases[c].Admitted?)
  }

  function Step(maxConns: int, s: State, e: Event): State
    requires Enabled(s, e)
  {
    match e
    case OpenAdd(c) => s.(counter := s.counter + 1, phases := s.phases[c := Added(s.counter + 1)])
    case OpenCompare(c) =>
      if s.phases[c].seen > maxConns then s.(phases := s.phases[c := Rejecting])
      else s.(phases := s.phases[c := Admitted], allConns := s.allConns + {c})
    case OpenUndo(c) => s.(counter := s.counter - 1, phases := s.phases[c := Rejected])
    case Evict(c) => s.(allConns := s.allConns - {c})
    case OnClose(c) =>
      // without a context OnClose returns before it touches the counter
      if s.phases[c].Rejected? then s.(phases := s.phases[c := Gone])
      else s.(counter := s.counter - 1, phases := s.phases[c := Gone], allConns := s.allConns - {c})
  }

  /** The connections whose Add(1) has not been taken back. */
  ghost function Holding(s: State): set<ConnId> {
    set c | c in s.phases && (s.phases[c].Added? || s.phases[c].Rejecting? || s.phases[c].Admitted?)
  }

  ghost function AdmittedConns(s: State): set<ConnId> {
    set c | c in s.phases && s.phases[c].Admitted?
  }

  /** Admitted, or certain to be: Add(1) returned a value within the limit. */
  ghost function Entitled(maxConns: int, s: State): set<ConnId> {
    set c | c in s.phases && (s.phases[c].Admitted? || (s.phases[c].Added? && s.phases[c].seen <= maxConns))
  }

  ghost predicate Inv(maxConns: int, s: State) {
    && s.counter == |Holding(s)|
    && |Entitled(maxConns, s)| <= (if maxConns > 0 then maxConns else 0)
    && s.allConns <= AdmittedConns(s)
  }

  predicate Leaves(s: State, e: Event)
    requires Enabled(s, e)
  {
    e.OnClose? && s.phases[e.c].Admitted?
  }

  lemma HoldingAfter(maxConns: int, s: State, e: Event)
    requires Enabled(s, e)
    ensures Holding(Step(maxConns, s, e)) ==
      if e.OpenAdd? then Holding(s) + {e.c} else if e.OpenUndo? || Leaves(s, e) then Holding(s) - {e.c} else Holding(s)
    ensures e.OpenAdd? ==> e.c !in Holding(s)
    ensures e.OpenUndo? || Leaves(s, e) ==> e.c in Holding(s)
  {
  }

  lemma EntitledAfter(maxConns: int, s: State, e: Event)
    requires Enabled(s, e)
    ensures Entitled(maxConns, Step(maxConns, s, e)) ==
      if e.OpenAdd? && s.counter + 1 <= maxConns then Entitled(maxConns, s) + {e.c}
      else if Leaves(s, e) then Entitled(maxConns, s) - {e.c} else Entitled(maxConns, s)
    ensures Entitled(maxConns, s) <= Holding(s)
  {
  }

  lemma AdmittedAfter(maxConns: int, s: State, e: Event)
    requires Enabled(s, e)
    ensures AdmittedConns(Step(maxConns, s, e)) ==
      if e.OpenCompare? && s.phases[e.c].seen <= maxConns then AdmittedConns(s) + {e.c}
      else if Leaves(s, e) then AdmittedConns(s) - {e.c} else AdmittedConns(s)
  {
  }

  lemma StepKeepsInv(maxConns: int, s: State, e: Event)
    requires Inv(maxConns, s) && Enabled(s, e)
    ensures Inv(maxConns, Step(maxConns, s, e))
  {
    hide Holding, Entitled, AdmittedConns;
    HoldingAfter(maxConns, s, e);
    EntitledAfter(maxConns, s, e);
    AdmittedAfter(maxConns, s, e);
    var t := Step(maxConns, s, e);
    if e.OpenAdd? && s.counter + 1 <= maxConns {
      SubsetSize(Entitled(maxConns, t), Holding(t));
    } else {
      SubsetSize(Entitled(maxConns, t), Entitled(maxConns, s));
    }
  }

  function Run(maxConns: int, s: State, events: seq<Event>): (r: State)
    requires AllEnabled(maxConns, s, events)
    decreases |events|
  {
    if events == [] then s else Run(maxConns, Step(maxConns, s, events[0]), events[1..])
  }

  predicate AllEnabled(maxConns: int, s: State, events: seq<Event>)
    decreases |events|
  {
    events == [] || (Enabled(s, events[0]) && AllEnabled(maxConns, Step(maxConns, s, events[0]), events[1..]))
  }

  lemma {:induction false} RunKeepsInv(maxConns: int, s: State, events: seq<Event>)
    requires Inv(maxConns, s) && AllEnabled(maxConns, s, events)
    ensures Inv(maxConns, Run(maxConns, s, events))
    decreases |events|
  {
    hide Inv;
    if events == [] {
    } else {
      StepKeepsInv(maxConns, s, events[0]);
      RunKeepsInv(maxConns, Step(maxConns, s, events[0]), events[1..]);
    }
  }

  /** The connections that the heartbeat has evicted in a run. */
  function EvictedIn(events: seq<Event>): set<ConnId> {
    set e | e in events && e.Evict? :: e.c
  }

  /** The heartbeat's map holds the admitted connections but those it has evicted. */
  ghost predicate Watches(s: State, evicted: set<ConnId>) {
    && s.allConns == AdmittedConns(s) - evicted
    && forall c | c in evicted :: c in s.phases && (s.phases[c].Admitted? || s.phases[c].Gone?)
  }

  lemma StepWatches(maxConns: int, s: State, e: Event, evicted: set<ConnId>)
    requires Enabled(s, e) && Watches(s, evicted)
    ensures Watches(Step(maxConns, s, e), if e.Evict? then evicted + {e.c} else evicted)
  {
  }

  lemma {:induction false} RunWatches(maxConns: int, s: State, events: seq<Event>, evicted: set<ConnId>)
    requires AllEnabled(maxConns, s, events) && Watches(s, evicted)
    ensures Watches(Run(maxConns, s, events), evicted + EvictedIn(events))
    decreases |events|
  {
    hide Step, Enabled, Watches;
    if events == [] {
      assert evicted + EvictedIn(events) == evicted;
    } else {
      var e := events[0];
      var now := if e.Evict? then evicted + {e.c} else evicted;
      StepWatches(maxConns, s, e, evicted);
      RunWatches(maxConns, Step(maxConns, s, e), events[1..], now);
      assert events == [e] + events[1..];
      assert now + EvictedIn(events[1..]) == evicted + EvictedIn(events);
    }
  }

  /** In every interleaving the counter equals the admitted connections plus the attempts in flight, and
      the admitted never exceed the limit, although the counter may overshoot it by the attempts. */
  lemma AdmissionHolds(maxConns: nat, events: seq<Event>)
    requires AllEnabled(maxConns, INIT, events)
    ensures var s := Run(maxConns, INIT, events);
      && |AdmittedConns(s)| <= maxConns
      && s.counter == |AdmittedConns(s)| + |Holding(s) - AdmittedConns(s)|
      && s.allConns == AdmittedConns(s) - EvictedIn(events)
  {
    RunWatches(maxConns, INIT, events, {});
    assert {} + EvictedIn(events) == EvictedIn(events);
    assert Holding(INIT) == {} && Entitled(maxConns, INIT) == {};
    RunKeepsInv(maxConns, INIT, events);
    var s := Run(maxConns, INIT, events);
    SubsetSize(AdmittedConns(s), Entitled(maxConns, s));
    assert Holding(s) == AdmittedConns(s) + (Holding(s) - AdmittedConns(s));
  }

  /** How often a run adds to and takes from the counter on behalf of one connection. */
  function Net(maxConns: int, s: State, events: seq<Event>, c: ConnId): int
    requires AllEnabled(maxConns, s, events)
    decreases |events|
  {
    if events == [] then 0
    else
      (if events[0].c == c then Step(maxConns, s, events[0]).counter - s.counter else 0)
      + Net(maxConns, Step(maxConns, s, events[0]), events[1..], c)
  }

  /** Every connection is counted once and taken back exactly once: by the compensation when rejected, by
      OnClose when admitted, whether or not the heartbeat evicted it in between. */
  lemma {:induction false} CountedExactlyOnce(maxConns: int, s: State, events: seq<Event>, c: ConnId)
    requires AllEnabled(maxConns, s, events)
    ensures var t := Run(maxConns, s, events);
      Net(maxConns, s, events, c) == (if c in Holding(t) then 1 else 0) - (if c in Holding(s) then 1 else 0)
    decreases |events|
  {
    if events == [] {
    } else {
      CountedExactlyOnce(maxConns, Step(maxConns, s, events[0]), events[1..], c);
    }
  }

  /** From its Add(1) to its comparison a connection keeps the value it saw. */
  lemma {:induction false} SeenStays(maxConns: int, s: State, c: ConnId, between: seq<Event>)
    requires Inv(maxConns, s) && AllEnabled(maxConns, s, between) && OpenCompare(c) !in between
    requires c in s.phases && s.phases[c].Added?
    ensures c in Run(maxConns, s, between).phases && Run(maxConns, s, between).phases[c] == s.phases[c]
    decreases |between|
  {
    if between == [] {
    } else {
      assert between[0] in between;
      StepKeepsInv(maxConns, s, between[0]);
      SeenStays(maxConns, Step(maxConns, s, between[0]), c, between[1..]);
    }
  }

  /** A connection is admitted if and only if, when it was added, the admitted and the attempts in flight were
      fewer than the limit, whatever happens before it compares. */
  lemma AdmittedIffRoomWhenAdded(maxConns: int, s: State, c: ConnId, between: seq<Event>)
    requires Inv(maxConns, s) && Enabled(s, OpenAdd(c))
    requires AllEnabled(maxConns, Step(maxConns, s, OpenAdd(c)), between) && OpenCompare(c) !in between
    ensures var t := Run(maxConns, Step(maxConns, s, OpenAdd(c)), between);
      && Enabled(t, OpenCompare(c))
      && (c in AdmittedConns(Step(maxConns, t, OpenCompare(c))) <==> |Holding(s)| < maxConns)
  {
    StepKeepsInv(maxConns, s, OpenAdd(c));
    SeenStays(maxConns, Step(maxConns, s, OpenAdd(c)), c, between);
  }

  /** The counter never exceeds the limit by more than the attempts in flight. */
  lemma OvershootIsBounded(maxConns: nat, events: seq<Event>)
    requires AllEnabled(maxConns, INIT, events)
    ensures var s := Run(maxConns, INIT, events); s.counter <= maxConns + |Holding(s) - AdmittedConns(s)|
  {
    hide Holding, AdmittedConns;
    AdmissionHolds(maxConns, events);
  }

  lemma {:induction false} RunsConcatenate(maxConns: int, s: State, a: seq<Event>, b: seq<Event>)
    requires AllEnabled(maxConns, s, a) && AllEnabled(maxConns, Run(maxConns, s, a), b)
    ensures AllEnabled(maxConns, s, a + b) && Run(maxConns, s, a + b) == Run(maxConns, Run(maxConns, s, a), b)
    decreases |a|
  {
    hide Step, Enabled;
    if a == [] {
      assert a + b == b;
    } else {
      assert (a + b)[1..] == a[1..] + b;
      RunsConcatenate(maxConns, Step(maxConns, s, a[0]), a[1..], b);
    }
  }

  lemma RunOn(maxConns: int, events: seq<Event>, e: Event)
    requires AllEnabled(maxConns, INIT, events) && Enabled(Run(maxConns, INIT, events), e)
    ensures AllEnabled(maxConns, INIT, events + [e])
    ensures Run(maxConns, INIT, events + [e]) == Step(maxConns, Run(maxConns, INIT, events), e)
  {
    hide Step, Enabled;
    assert [e][1..] == [];
    RunsConcatenate(maxConns, INIT, events, [e]);
  }

  /** k connections admitted one after the other. */
  lemma {:induction false} FillUp(maxConns: nat, k: nat) returns (events: seq<Event>)
    requires k <= maxConns
    ensures AllEnabled(maxConns, INIT, events)
    ensures var s := Run(maxConns, INIT, events);
      && s.counter == k
      && (forall c :: c in s.phases <==> 0 <= c < k)
      && (forall c | c in s.phases :: s.phases[c].Admitted?)
  {
    if k == 0 {
      events := [];
    } else {
      var before := FillUp(maxConns, k - 1);
      RunOn(maxConns, before, OpenAdd(k - 1));
      var added := before + [OpenAdd(k - 1)];
      RunOn(maxConns, added, OpenCompare(k - 1));
      events := added + [OpenCompare(k - 1)];
    }
  }

  /** And n attempts beyond the limit. */
  lemma {:induction false} Overfill(maxConns: nat, n: nat) returns (events: seq<Event>)
    ensures AllEnabled(maxConns, INIT, events)
    ensures var s := Run(maxConns, INIT, events);
      && s.counter == maxConns + n
      && (forall c :: c in s.phases <==> 0 <= c < maxConns + n)
      && (forall c | c in s.phases :: if c < maxConns then s.phases[c].Admitted? else s.phases[c].Added?)
  {
    if n == 0 {
      events := FillUp(maxConns, maxConns);
    } else {
      var before := Overfill(maxConns, n - 1);
      RunOn(maxConns, before, OpenAdd(maxConns + n - 1));
      events := before + [OpenAdd(maxConns + n - 1)];
    }
  }

  /** The bound is attained: at every limit, n attempts at once push the counter of a full node n beyond it. */
  lemma CounterOvershoots(maxConns: nat, n: nat)
    ensures exists events: seq<Event> ::
      && AllEnabled(maxConns, INIT, events)
      && var s := Run(maxConns, INIT, events);
      s.counter == maxConns + n && |Holding(s) - AdmittedConns(s)| == n
  {
    var events := Overfill(maxConns, n);
    var s := Run(maxConns, INIT, events);
    assert Holding(s) - AdmittedConns(s) == Range(maxConns, n);
  }

  function Range(from: int, n: nat): (r: set<int>)
    ensures forall c :: c in r <==> from <= c < from + n
    ensures |r| == n
  {
    if n == 0 then {} else Range(from, n - 1) + {from + n - 1}
  }
}
