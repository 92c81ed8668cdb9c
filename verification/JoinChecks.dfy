/** internal/app/app.go: who gets through the checks of handleJoinRoom. */
module JoinChecks {
  import opened Collections
  import opened Lifecycle
  import opened Rooms

  /** A join is accepted, as one more join at work, if and only if its token is right or none is asked for, its user is
      positive and not banned, its room is positive and the user has a free slot. It then takes one slot of that user;
      otherwise it changes nothing. */
  lemma JoinIsAcceptedIff(cfg: Config, s: State, c: ConnId, user: int, room: int, token: string)
    requires Enabled(s, Join(c, user, room, token))
    ensures var (t, n) := (Step(cfg, s, Join(c, user, room, token)), |s.tasks|);
      var count := if user in s.userConnCount then s.userConnCount[user] else 0;
      && (|t.tasks| == n + 1 <==>
            && (cfg.authToken == "" || token == cfg.authToken)
            && user > 0 && user !in cfg.bannedUsers && room > 0 && count < cfg.maxConnsPerUser)
      && (|t.tasks| == n + 1 ==>
            && t.tasks == s.tasks + [Task(c, user, room, Counted)]
            && t.userConnCount == s.userConnCount[user := count + 1]
            && t.members == s.members && t.ctxs == s.ctxs)
      && (|t.tasks| != n + 1 ==> t == s)
  {
    RefusalByCause(cfg, s.userConnCount, user, room, token);
  }

  /** Nobody on the ban list, and no user or room that is not positive. */
  predicate Welcome(cfg: Config, task: Task) {
    task.user > 0 && task.user !in cfg.bannedUsers && task.room > 0
  }

  ghost predicate AllWelcome(cfg: Config, s: State) {
    forall t | 0 <= t < |s.tasks| :: Welcome(cfg, s.tasks[t])
  }

  lemma StepKeepsWelcome(cfg: Config, s: State, e: Event)
    requires Enabled(s, e) && AllWelcome(cfg, s)
    ensures AllWelcome(cfg, Step(cfg, s, e))
  {
    hide Refusal;
    if e.Join? {
      JoinIsAcceptedIff(cfg, s, e.c, e.user, e.room, e.token);
    }
  }

  lemma {:induction false} RunKeepsWelcome(cfg: Config, s: State, o: Observer, events: seq<Event>)
    requires AllEnabled(cfg, s, events) && AllWelcome(cfg, s)
    ensures AllWelcome(cfg, Run(cfg, s, o, events).0)
    decreases |events|
  {
    hide Step, Observe, Enabled, AllWelcome;
    if events == [] {
    } else {
      StepKeepsWelcome(cfg, s, events[0]);
      RunKeepsWelcome(cfg, Step(cfg, s, events[0]), Observe(cfg, s, o, events[0]), events[1..]);
    }
  }

  /** In every interleaving, whoever is in a room, or named by a context, joined as a user who is positive and not
      banned. */
  lemma NobodyBannedJoins(cfg: Config, events: seq<Event>, c: ConnId)
    requires AllEnabled(cfg, INIT, events)
    ensures var s := Run(cfg, INIT, NOTHING, events).0;
      && (forall t | 0 <= t < |s.tasks| ::
            s.tasks[t].user > 0 && s.tasks[t].user !in cfg.bannedUsers && s.tasks[t].room > 0)
      && (c in s.ctxs && s.ctxs[c].user != 0 ==> s.ctxs[c].user > 0 && s.ctxs[c].user !in cfg.bannedUsers)
      && (!IsGone(s, c) ==> exists t :: OfConn(s, c, t) && s.tasks[t].user !in cfg.bannedUsers)
  {
    hide Fits, QuotaExact, PlacesExact, Welcome;
    RunKeepsWelcome(cfg, INIT, NOTHING, events);
    ReachableInv(cfg, events);
    var (s, o) := Run(cfg, INIT, NOTHING, events);
    forall t | 0 <= t < |s.tasks|
      ensures Welcome(cfg, s.tasks[t]) && s.tasks[t].user > 0 && s.tasks[t].user !in cfg.bannedUsers
      ensures s.tasks[t].room > 0
    {
      IsWelcome(cfg, s.tasks[t]);
    }
    if c in s.ctxs && s.ctxs[c].user != 0 {
      ContextHasJoin(cfg, s, o, c);
    }
    if !IsGone(s, c) {
      MemberHasJoin(cfg, s, o, c);
    }
  }

  lemma IsWelcome(cfg: Config, task: Task)
    ensures Welcome(cfg, task) ==> task.user > 0 && task.user !in cfg.bannedUsers && task.room > 0
  {
  }

  lemma ContextHasJoin(cfg: Config, s: State, o: Observer, c: ConnId)
    requires Fits(cfg, s, o) && c in s.ctxs && s.ctxs[c].user != 0
    ensures exists t :: OfConn(s, c, t) && s.tasks[t].user == s.ctxs[c].user
  {
    hide TaskFits, RoomWritten;
    assert ConnFits(s, o, c);
    assert OfConn(s, c, o.holder[c]);
  }

  lemma MemberHasJoin(cfg: Config, s: State, o: Observer, c: ConnId)
    requires Fits(cfg, s, o) && PlacesExact(cfg, s, o) && !IsGone(s, c)
    ensures exists t :: OfConn(s, c, t)
  {
    hide TaskFits, ConnFits, ReadsExact;
  }
}
