/** internal/app/app.go and internal/server/event_handler.go: opening, joining and closing. A join runs on a worker
    of the pool and shares no lock with OnClose on the event loop, so each is a sequence of steps: a read or write
    of the connection's context, the counting under its mutex, and the entry to or exit from the room. */
module Lifecycle {
  import opened Collections
  import opened Rooms

  /** `loopOf` is the stable index ResolveLoopIdx gives the connection's event loop. */
  datatype Config = Config(
    authToken: string, bannedUsers: seq<int>, maxConnsPerUser: int, loopCount: nat, loopOf: ConnId -> int)

  /** The fields of the connection context that joining writes, all zero at first. */
  datatype Ctx = Ctx(user: int, room: int, loop: int)

  /** Where an accepted join stands inside handleJoinRoom; each name says what was done last. A join that is done
      has put its connection in the room it read from the context. */
  datatype JoinPc =
    | Counted | UserSet | RoomSet | LoopSet
    | RoomRead(room: int)
    | Inserting(room: int, loop: int)
    | Done(room: int)

  datatype Task = Task(c: ConnId, user: int, room: int, pc: JoinPc)

  /** Where OnClose stands, with what it has read from the context so far. */
  datatype ClosePc =
    | NotClosing | Checked
    | RoomSeen(room: int)
    | Removing(room: int, loop: int)
    | Removed
    | Paying(user: int)
    | Closed

  /** `tasks` lists the accepted joins in the order in which they were counted. */
  datatype State = State(
    ctxs: map<ConnId, Ctx>,
    closes: map<ConnId, ClosePc>,
    userConnCount: map<int, int>,
    members: set<Member>,
    tasks: seq<Task>)

  const INIT := State(map[], map[], map[], {}, [])

  datatype Event =
    | Open(c: ConnId)
    | Join(c: ConnId, user: int, room: int, token: string)   // the checks and addUserConn
    | Work(t: nat)                                           // the next step of an accepted join
    | Close(c: ConnId)                                       // OnClose looks at the context
    | Leave(c: ConnId)                                       // the next step of OnClose

  predicate Enabled(s: State, e: Event) {
    match e
    case Open(c) => c != "" && c !in s.ctxs && c !in s.closes
    case Join(c, _, _, _) => c in s.ctxs
    case Work(t) => t < |s.tasks| && !s.tasks[t].pc.Done? && s.tasks[t].c in s.ctxs
    case Close(c) => c in s.ctxs && c in s.closes && s.closes[c].NotClosing?
    case Leave(c) => c in s.ctxs && c in s.closes && !s.closes[c].NotClosing? && !s.closes[c].Closed?
  }

  // ----- the quota ------------------------------------------------------------------------------------

  function CountOf(counts: map<int, int>, user: int): int {
    if user in counts then counts[user] else 0
  }

  function Incremented(maxConns: int, counts: map<int, int>, user: int): (map<int, int>, bool) {
    var count := CountOf(counts, user) + 1;
    if count > maxConns then (counts, false) else (counts[user := count], true)
  }

  function Decremented(counts: map<int, int>, user: int): map<int, int> {
    var count := CountOf(counts, user) - 1;
    if count > 0 then counts[user := count] else counts - {user}
  }

  /** The code of the error sent to a client whose join is turned away, in the order of the checks. */
  function Refusal(cfg: Config, counts: map<int, int>, user: int, room: int, token: string): Option<int> {
    if cfg.authToken != "" && token != cfg.authToken then Some(401)
    else if user <= 0 then Some(403)
    else if user in cfg.bannedUsers then Some(403)
    else if room <= 0 then Some(404)
    else if !Incremented(cfg.maxConnsPerUser, counts, user).1 then Some(429)
    else None
  }

  /** The code of the error sent back, by what is wrong with the join. */
  lemma RefusalByCause(cfg: Config, counts: map<int, int>, user: int, room: int, token: string)
    ensures var refusal := Refusal(cfg, counts, user, room, token);
      var count := if user in counts then counts[user] else 0;
      var wrongToken, badUser := cfg.authToken != "" && token != cfg.authToken, user <= 0 || user in cfg.bannedUsers;
      && (refusal == Some(401) <==> wrongToken)
      && (refusal == Some(403) <==> !wrongToken && badUser)
      && (refusal == Some(404) <==> !wrongToken && !badUser && room <= 0)
      && (refusal == Some(429) <==> !wrongToken && !badUser && room > 0 && count >= cfg.maxConnsPerUser)
      && (refusal == None <==> !wrongToken && !badUser && room > 0 && count < cfg.maxConnsPerUser)
  {
  }

  // ----- the steps --------------------------------------------------------------------------------------

  predicate Accepted(cfg: Config, s: State, e: Event) {
    e.Join? && Refusal(cfg, s.userConnCount, e.user, e.room, e.token).None?
  }

  predicate FindsRoom(ctx: Ctx) {
    ctx.room > 0 && ctx.user > 0
  }

  function CtxAfter(cfg: Config, task: Task, ctx: Ctx): Ctx {
    match task.pc
    case Counted => ctx.(user := task.user)
    case UserSet => ctx.(room := task.room)
    case RoomSet => ctx.(loop := cfg.loopOf(task.c))
    case _ => ctx
  }

  function JoinAfter(pc: JoinPc, ctx: Ctx): JoinPc {
    match pc
    case Counted => UserSet
    case UserSet => RoomSet
    case RoomSet => LoopSet
    case LoopSet => RoomRead(ctx.room)
    case RoomRead(room) => Inserting(room, ctx.loop)
    case Inserting(room, _) => Done(room)
    case Done(room) => Done(room)
  }

  function CloseAfter(pc: ClosePc, ctx: Ctx): ClosePc {
    match pc
    case NotClosing => if FindsRoom(ctx) then Checked else Closed
    case Checked => RoomSeen(ctx.room)
    case RoomSeen(room) => Removing(room, ctx.loop)
    case Removing(_, _) => Removed
    case Removed => Paying(ctx.user)
    case _ => Closed
  }

  function MembersAfter(cfg: Config, s: State, e: Event): set<Member>
    requires Enabled(s, e)
  {
    if e.Work? && s.tasks[e.t].pc.Inserting? then
      var Task(c, _, _, Inserting(room, loop)) := s.tasks[e.t];
      if ValidKey(cfg.loopCount, room, loop, c) then s.members + {(room, loop, c)} else s.members
    else if e.Leave? && s.closes[e.c].Removing? then s.members - {(s.closes[e.c].room, s.closes[e.c].loop, e.c)}
    else s.members
  }

  function CountsAfter(cfg: Config, s: State, e: Event): map<int, int>
    requires Enabled(s, e)
  {
    if Accepted(cfg, s, e) then Incremented(cfg.maxConnsPerUser, s.userConnCount, e.user).0
    else if e.Leave? && s.closes[e.c].Paying? then Decremented(s.userConnCount, s.closes[e.c].user)
    else s.userConnCount
  }

  function TasksAfter(cfg: Config, s: State, e: Event): seq<Task>
    requires Enabled(s, e)
  {
    if Accepted(cfg, s, e) then s.tasks + [Task(e.c, e.user, e.room, Counted)]
    else if e.Work? then
      var task := s.tasks[e.t];
      s.tasks[e.t := task.(pc := JoinAfter(task.pc, s.ctxs[task.c]))]
    else s.tasks
  }

  function Step(cfg: Config, s: State, e: Event): State
    requires Enabled(s, e)
  {
    State(
      match e
        case Open(c) => s.ctxs[c := Ctx(0, 0, 0)]
        case Work(t) => s.ctxs[s.tasks[t].c := CtxAfter(cfg, s.tasks[t], s.ctxs[s.tasks[t].c])]
        case _ => s.ctxs,
      match e
        case Open(c) => s.closes[c := NotClosing]
        case Close(c) => s.closes[c := CloseAfter(s.closes[c], s.ctxs[c])]
        case Leave(c) => s.closes[c := CloseAfter(s.closes[c], s.ctxs[c])]
        case _ => s.closes,
      CountsAfter(cfg, s, e),
      MembersAfter(cfg, s, e),
      TasksAfter(cfg, s, e))
  }

  // ----- an observer of the run --------------------------------------------------------------------------

  /** The room and the loop that OnClose read, the joins that had written LoopIdx by then, and the joins in hand when
      it left the room, or found none to leave, or accepted since. */
  datatype Seen = Seen(room: int, loop: int, writers: set<int>, unfinished: set<int>)

  const UNSEEN := Seen(0, 0, {}, {})

  /** The join whose user each context names, and the one each close pays back. */
  datatype Observer = Observer(holder: map<ConnId, nat>, payee: map<ConnId, nat>, seen: map<ConnId, Seen>)

  const NOTHING := Observer(map[], map[], map[])

  function SeenOf(o: Observer, c: ConnId): Seen {
    if c in o.seen then o.seen[c] else UNSEEN
  }

  function InHand(s: State, c: ConnId): set<int> {
    set t | 0 <= t < |s.tasks| && s.tasks[t].c == c && !s.tasks[t].pc.Done?
  }

  predicate WroteLoop(pc: JoinPc) {
    pc.LoopSet? || pc.RoomRead? || pc.Inserting? || pc.Done?
  }

  function LoopWriters(s: State, c: ConnId): set<int> {
    set t | 0 <= t < |s.tasks| && s.tasks[t].c == c && WroteLoop(s.tasks[t].pc)
  }

  /** OnClose has left the room, or found none to leave. */
  predicate HasLeft(pc: ClosePc) {
    pc.Removed? || pc.Paying? || pc.Closed?
  }

  function HolderAfter(s: State, o: Observer, e: Event): map<ConnId, nat>
    requires Enabled(s, e)
  {
    if e.Work? && s.tasks[e.t].pc.Counted? then o.holder[s.tasks[e.t].c := e.t] else o.holder
  }

  function PayeeAfter(s: State, o: Observer, e: Event): map<ConnId, nat>
    requires Enabled(s, e)
  {
    if e.Leave? && s.closes[e.c].Removed? && e.c in o.holder then o.payee[e.c := o.holder[e.c]] else o.payee
  }

  function SeenAfter(cfg: Config, s: State, o: Observer, e: Event): map<ConnId, Seen>
    requires Enabled(s, e)
  {
    match e
    case Open(c) => o.seen[c := UNSEEN]
    case Join(c, _, _, _) =>
      if Accepted(cfg, s, e) && c in s.closes && HasLeft(s.closes[c])
      then o.seen[c := SeenOf(o, c).(unfinished := SeenOf(o, c).unfinished + {|s.tasks|})]
      else o.seen
    case Work(_) => o.seen
    case Close(c) =>
      if FindsRoom(s.ctxs[c]) then o.seen else o.seen[c := SeenOf(o, c).(unfinished := InHand(s, c))]
    case Leave(c) =>
      match s.closes[c]
      case Checked => o.seen[c := SeenOf(o, c).(room := s.ctxs[c].room)]
      case RoomSeen(_) => o.seen[c := SeenOf(o, c).(loop := s.ctxs[c].loop, writers := LoopWriters(s, c))]
      case Removing(_, _) => o.seen[c := SeenOf(o, c).(unfinished := InHand(s, c))]
      case _ => o.seen
  }

  function Observe(cfg: Config, s: State, o: Observer, e: Event): Observer
    requires Enabled(s, e)
  {
    Observer(HolderAfter(s, o, e), PayeeAfter(s, o, e), SeenAfter(cfg, s, o, e))
  }

  // ----- the invariant: contexts and joins -------------------------------------------------------------------

  predicate WroteRoom(pc: JoinPc) {
    pc.RoomSet? || WroteLoop(pc)
  }

  ghost predicate TaskFits(cfg: Config, s: State, t: int)
    requires 0 <= t < |s.tasks|
  {
    var task := s.tasks[t];
    && task.c in s.ctxs && task.user > 0 && task.room > 0
    && (WroteRoom(task.pc) ==> s.ctxs[task.c].room > 0)
    && (WroteLoop(task.pc) ==> s.ctxs[task.c].loop == cfg.loopOf(task.c))
    && (task.pc.RoomRead? || task.pc.Inserting? || task.pc.Done? ==> task.pc.room > 0)
    && (task.pc.Inserting? ==> task.pc.loop == cfg.loopOf(task.c))
  }

  /** Join t is one of connection c's, and has written the context's user. */
  predicate Wrote(s: State, c: ConnId, t: int) {
    0 <= t < |s.tasks| && s.tasks[t].c == c && !s.tasks[t].pc.Counted?
  }

  ghost predicate RoomWritten(s: State, c: ConnId) {
    exists t :: Wrote(s, c, t) && WroteRoom(s.tasks[t].pc)
  }

  ghost predicate ConnFits(s: State, o: Observer, c: ConnId)
    requires c in s.ctxs && c in s.closes
  {
    var ctx, pc := s.ctxs[c], s.closes[c];
    && c != "" && ctx.room >= 0
    && (c in o.holder <==> ctx.user > 0)
    && (ctx.user != 0 ==> ctx.user > 0)
    && (c in o.holder ==> Wrote(s, c, o.holder[c]) && s.tasks[o.holder[c]].user == ctx.user)
    && (c in o.payee ==> Wrote(s, c, o.payee[c]))
    && (ctx.room > 0 <==> RoomWritten(s, c))
    && (pc.Checked? || pc.RoomSeen? || pc.Removing? || pc.Removed? ==> FindsRoom(ctx))
    && (pc.Paying? ==> c in o.payee && pc.user == s.tasks[o.payee[c]].user)
    && (pc.NotClosing? || pc.Checked? || pc.RoomSeen? || pc.Removing? || pc.Removed? ==> c !in o.payee)
  }

  ghost predicate Fits(cfg: Config, s: State, o: Observer) {
    && s.ctxs.Keys == s.closes.Keys
    && o.holder.Keys <= s.ctxs.Keys && o.payee.Keys <= s.ctxs.Keys
    && (forall t | 0 <= t < |s.tasks| :: TaskFits(cfg, s, t))
    && (forall t, c :: Wrote(s, c, t) ==> c in o.holder)
    && (forall c | c in s.ctxs :: ConnFits(s, o, c))
  }

  lemma StepKeepsTasks(cfg: Config, s: State, o: Observer, e: Event, t: int)
    requires Fits(cfg, s, o) && Enabled(s, e) && 0 <= t < |Step(cfg, s, e).tasks|
    ensures TaskFits(cfg, Step(cfg, s, e), t)
  {
    hide ConnFits;
    if t < |s.tasks| {
      assert TaskFits(cfg, s, t);
    }
    if e.Work? {
      assert TaskFits(cfg, s, e.t);
      assert ConnFits(s, o, s.tasks[e.t].c);
      ContextOfConn(s, o, s.tasks[e.t].c);
    }
  }

  lemma ContextOfConn(s: State, o: Observer, c: ConnId)
    requires c in s.ctxs && c in s.closes && ConnFits(s, o, c)
    ensures s.ctxs[c].room >= 0
  {
  }

  function ConnOf(s: State, e: Event): ConnId
    requires Enabled(s, e)
  {
    if e.Work? then s.tasks[e.t].c else e.c
  }

  /** Nothing that concerns connection c differs between the two states, except joins that have only counted. */
  ghost predicate Same(s: State, o: Observer, t: State, p: Observer, c: ConnId) {
    && c in s.ctxs && c in t.ctxs && s.ctxs[c] == t.ctxs[c]
    && c in s.closes && c in t.closes && s.closes[c] == t.closes[c]
    && (c in o.holder <==> c in p.holder) && (c in o.holder ==> o.holder[c] == p.holder[c])
    && (c in o.payee <==> c in p.payee) && (c in o.payee ==> o.payee[c] == p.payee[c])
    && (forall k :: Wrote(s, c, k) <==> Wrote(t, c, k))
    && (forall k :: Wrote(s, c, k) ==> SameJoin(s, t, k))
  }

  predicate SameJoin(s: State, t: State, k: int) {
    0 <= k < |s.tasks| && 0 <= k < |t.tasks| && s.tasks[k].user == t.tasks[k].user
    && (WroteRoom(s.tasks[k].pc) <==> WroteRoom(t.tasks[k].pc))
  }

  lemma SameFits(s: State, o: Observer, t: State, p: Observer, c: ConnId)
    requires Same(s, o, t, p, c) && ConnFits(s, o, c)
    ensures ConnFits(t, p, c)
  {
    hide WroteRoom;
    assert RoomWritten(s, c) <==> RoomWritten(t, c) by {
      if k :| Wrote(s, c, k) && WroteRoom(s.tasks[k].pc) {
        assert SameJoin(s, t, k) && Wrote(t, c, k);
      }
      if k :| Wrote(t, c, k) && WroteRoom(t.tasks[k].pc) {
        assert Wrote(s, c, k) && SameJoin(s, t, k);
      }
    }
    if c in o.holder {
      assert SameJoin(s, t, o.holder[c]);
    }
    if c in o.payee {
      assert SameJoin(s, t, o.payee[c]);
    }
  }

  /** A step leaves the context, the close and the joins of every connection but its own alone. */
  lemma OtherConn(cfg: Config, s: State, o: Observer, e: Event, c: ConnId)
    requires Enabled(s, e) && c in s.ctxs && c in s.closes && c != ConnOf(s, e)
    ensures Same(s, o, Step(cfg, s, e), Observe(cfg, s, o, e), c)
  {
    hide ConnFits, Refusal;
  }

  /** The connection's own steps keep its context, its close and the observer's record in agreement. */
  lemma OwnConn(cfg: Config, s: State, o: Observer, e: Event)
    requires Fits(cfg, s, o) && Enabled(s, e)
    ensures var t, p, c := Step(cfg, s, e), Observe(cfg, s, o, e), ConnOf(s, e);
      c in t.ctxs && c in t.closes && ConnFits(t, p, c)
  {
    hide ConnFits, Refusal, TaskFits;
    var c := ConnOf(s, e);
    if e.Open? {
      OpenConn(cfg, s, o, c);
    } else {
      assert c in s.ctxs && ConnFits(s, o, c);
      if e.Join? {
        JoinConn(cfg, s, o, e);
      } else if e.Work? {
        WorkConn(cfg, s, o, e.t);
      } else {
        CloseConn(cfg, s, o, e);
      }
    }
  }

  lemma OpenConn(cfg: Config, s: State, o: Observer, c: ConnId)
    requires Fits(cfg, s, o) && Enabled(s, Open(c))
    ensures var t, p := Step(cfg, s, Open(c)), Observe(cfg, s, o, Open(c));
      c in t.ctxs && c in t.closes && ConnFits(t, p, c)
  {
    var t := Step(cfg, s, Open(c));
    forall k
      ensures !Wrote(t, c, k)
    {
      assert 0 <= k < |s.tasks| ==> TaskFits(cfg, s, k);
    }
  }

  lemma JoinConn(cfg: Config, s: State, o: Observer, e: Event)
    requires Enabled(s, e) && e.Join? && e.c in s.closes && ConnFits(s, o, e.c)
    ensures ConnFits(Step(cfg, s, e), Observe(cfg, s, o, e), e.c)
  {
    hide ConnFits, Refusal;
    SameFits(s, o, Step(cfg, s, e), Observe(cfg, s, o, e), e.c);
  }

  lemma WorkConn(cfg: Config, s: State, o: Observer, t: nat)
    requires Enabled(s, Work(t)) && TaskFits(cfg, s, t) && s.tasks[t].c in s.closes && ConnFits(s, o, s.tasks[t].c)
    requires Wrote(s, s.tasks[t].c, t) ==> s.tasks[t].c in o.holder
    ensures ConnFits(Step(cfg, s, Work(t)), Observe(cfg, s, o, Work(t)), s.tasks[t].c)
  {
    var c, s', o' := s.tasks[t].c, Step(cfg, s, Work(t)), Observe(cfg, s, o, Work(t));
    forall k
      ensures Wrote(s', c, k) <==> Wrote(s, c, k) || k == t
      ensures Wrote(s, c, k) && k != t ==> s'.tasks[k] == s.tasks[k]
    {
    }
    if k :| Wrote(s, c, k) && WroteRoom(s.tasks[k].pc) {
      assert Wrote(s', c, k) && WroteRoom(s'.tasks[k].pc);
    }
    if k :| Wrote(s', c, k) && WroteRoom(s'.tasks[k].pc) {
      assert k != t ==> Wrote(s, c, k);
    }
    if s.tasks[t].pc.UserSet? {
      assert Wrote(s', c, t) && WroteRoom(s'.tasks[t].pc);
    }
  }

  lemma CloseConn(cfg: Config, s: State, o: Observer, e: Event)
    requires Enabled(s, e) && (e.Close? || e.Leave?) && ConnFits(s, o, e.c)
    ensures ConnFits(Step(cfg, s, e), Observe(cfg, s, o, e), e.c)
  {
    var s' := Step(cfg, s, e);
    forall k
      ensures Wrote(s', e.c, k) <==> Wrote(s, e.c, k)
    {
    }
    assert RoomWritten(s', e.c) <==> RoomWritten(s, e.c);
  }

  lemma StepKeepsFits(cfg: Config, s: State, o: Observer, e: Event)
    requires Fits(cfg, s, o) && Enabled(s, e)
    ensures Fits(cfg, Step(cfg, s, e), Observe(cfg, s, o, e))
  {
    hide ConnFits, TaskFits, Refusal;
    var t, p := Step(cfg, s, e), Observe(cfg, s, o, e);
    forall k | 0 <= k < |t.tasks|
      ensures TaskFits(cfg, t, k)
    {
      StepKeepsTasks(cfg, s, o, e, k);
    }
    StepKeepsShape(cfg, s, o, e);
    forall c | c in t.ctxs
      ensures ConnFits(t, p, c)
    {
      if c == ConnOf(s, e) {
        OwnConn(cfg, s, o, e);
      } else {
        OtherConn(cfg, s, o, e, c);
        assert ConnFits(s, o, c);
        SameFits(s, o, t, p, c);
      }
    }
  }

  lemma StepKeepsShape(cfg: Config, s: State, o: Observer, e: Event)
    requires Fits(cfg, s, o) && Enabled(s, e)
    ensures var t, p := Step(cfg, s, e), Observe(cfg, s, o, e);
      && t.ctxs.Keys == t.closes.Keys
      && p.holder.Keys <= t.ctxs.Keys && p.payee.Keys <= t.ctxs.Keys
      && (forall k, c :: Wrote(t, c, k) ==> c in p.holder)
  {
    hide ConnFits, TaskFits, Refusal;
    var t, p := Step(cfg, s, e), Observe(cfg, s, o, e);
    forall k, c | Wrote(t, c, k)
      ensures c in p.holder
    {
      assert Wrote(s, c, k) || (e.Work? && k == e.t);
    }
  }

  // ----- the invariant: the quota -----------------------------------------------------------------------------

  /** The close of join t's connection has given its slot back. */
  predicate Paid(s: State, o: Observer, t: int)
    requires 0 <= t < |s.tasks|
  {
    var c := s.tasks[t].c;
    c in o.payee && o.payee[c] == t && c in s.closes && s.closes[c].Closed?
  }

  ghost function Unpaid(s: State, o: Observer, user: int): set<int> {
    set t | 0 <= t < |s.tasks| && s.tasks[t].user == user && !Paid(s, o, t)
  }

  /** Every stored count is the number of accepted joins that no close has paid back, and within the limit. */
  ghost predicate QuotaExact(cfg: Config, s: State, o: Observer) {
    && (forall u | u > 0 :: CountOf(s.userConnCount, u) == |Unpaid(s, o, u)|)
    && (forall u | u in s.userConnCount :: 0 < s.userConnCount[u] <= cfg.maxConnsPerUser)
  }

  /** Only the last step of a close pays, and it pays the join recorded as its payee. */
  lemma PaidAfter(cfg: Config, s: State, o: Observer, e: Event, k: int)
    requires Enabled(s, e) && 0 <= k < |s.tasks| && s.tasks[k].c in s.ctxs && s.tasks[k].c in s.closes
    requires ConnFits(s, o, s.tasks[k].c)
    ensures var t, p, c := Step(cfg, s, e), Observe(cfg, s, o, e), s.tasks[k].c;
      && k < |t.tasks| && t.tasks[k].user == s.tasks[k].user && t.tasks[k].c == c
      && (Paid(t, p, k) <==> Paid(s, o, k) || (e == Leave(c) && s.closes[c].Paying? && k == o.payee[c]))
  {
    hide RoomWritten, Refusal, Wrote;
  }

  function NewlyUnpaid(cfg: Config, s: State, e: Event, u: int): set<int> {
    if Accepted(cfg, s, e) && e.user == u then {|s.tasks|} else {}
  }

  function NewlyPaid(s: State, o: Observer, e: Event): set<int> {
    if e.Leave? && e.c in s.closes && s.closes[e.c].Paying? && e.c in o.payee then {o.payee[e.c]} else {}
  }

  lemma UnpaidAfter(cfg: Config, s: State, o: Observer, e: Event, u: int)
    requires Fits(cfg, s, o) && Enabled(s, e)
    ensures Unpaid(Step(cfg, s, e), Observe(cfg, s, o, e), u)
         == Unpaid(s, o, u) + NewlyUnpaid(cfg, s, e, u) - NewlyPaid(s, o, e)
  {
    hide Paid, RoomWritten, Refusal, Observe;
    var t, p := Step(cfg, s, e), Observe(cfg, s, o, e);
    forall k | 0 <= k < |s.tasks|
      ensures k < |t.tasks| && t.tasks[k].user == s.tasks[k].user
      ensures Paid(t, p, k) <==> Paid(s, o, k) || k in NewlyPaid(s, o, e)
    {
      assert TaskFits(cfg, s, k);
      assert ConnFits(s, o, s.tasks[k].c);
      PaidAfter(cfg, s, o, e, k);
      if e.Leave? {
        assert ConnFits(s, o, e.c);
      }
    }
    if Accepted(cfg, s, e) {
      NewJoinUnpaid(cfg, s, o, e);
    }
    if e.Leave? {
      assert ConnFits(s, o, e.c);
    }
  }

  lemma NewJoinUnpaid(cfg: Config, s: State, o: Observer, e: Event)
    requires Fits(cfg, s, o) && Enabled(s, e) && Accepted(cfg, s, e)
    ensures var t, p := Step(cfg, s, e), Observe(cfg, s, o, e);
      |t.tasks| == |s.tasks| + 1 && t.tasks[|s.tasks|].user == e.user && !Paid(t, p, |s.tasks|)
  {
    hide TaskFits, Refusal, RoomWritten;
    if e.c in o.payee {
      assert ConnFits(s, o, e.c);
      assert Wrote(s, e.c, o.payee[e.c]);
    }
  }

  lemma AcceptedIsCounted(cfg: Config, s: State, e: Event)
    requires Accepted(cfg, s, e)
    ensures e.Join? && e.user > 0 && CountOf(s.userConnCount, e.user) + 1 <= cfg.maxConnsPerUser
    ensures Incremented(cfg.maxConnsPerUser, s.userConnCount, e.user).0
         == s.userConnCount[e.user := CountOf(s.userConnCount, e.user) + 1]
  {
  }

  lemma CountUp(counts: map<int, int>, user: int, u: int, before: set<int>, x: int)
    requires x !in before && CountOf(counts, u) == |before|
    ensures CountOf(counts[user := CountOf(counts, user) + 1], u) == |before + (if user == u then {x} else {}) - {}|
  {
    assert before + (if user == u then {x} else {}) - {} == if user == u then before + {x} else before;
  }

  lemma CountDown(counts: map<int, int>, user: int, u: int, before: set<int>, x: int)
    requires (x in before <==> u == user) && CountOf(counts, u) == |before|
    ensures CountOf(Decremented(counts, user), u) == |before + {} - {x}|
  {
    assert before + {} - {x} == before - {x};
    if u != user {
      assert before - {x} == before;
    }
  }

  /** The count moves as the joins unpaid do, in each of the three kinds of step. */
  lemma CountStep(cfg: Config, s: State, o: Observer, e: Event, u: int)
    requires Fits(cfg, s, o) && Enabled(s, e) && u > 0 && CountOf(s.userConnCount, u) == |Unpaid(s, o, u)|
    ensures CountOf(CountsAfter(cfg, s, e), u)
         == |Unpaid(s, o, u) + NewlyUnpaid(cfg, s, e, u) - NewlyPaid(s, o, e)|
  {
    hide Unpaid, Fits, Accepted, Incremented, Decremented, CountOf;
    var before := Unpaid(s, o, u);
    if Accepted(cfg, s, e) {
      AcceptedIsCounted(cfg, s, e);
      NewestIsNew(s, o, u);
      CountUp(s.userConnCount, e.user, u, before, |s.tasks|);
    } else if e.Leave? && s.closes[e.c].Paying? {
      PayeeIsUnpaid(cfg, s, o, e.c);
      CountDown(s.userConnCount, s.closes[e.c].user, u, before, o.payee[e.c]);
    } else {
      assert before + {} - {} == before;
    }
  }

  lemma CountsKeepLimit(cfg: Config, s: State, e: Event)
    requires Enabled(s, e) && forall u | u in s.userConnCount :: 0 < s.userConnCount[u] <= cfg.maxConnsPerUser
    ensures forall u | u in CountsAfter(cfg, s, e) :: 0 < CountsAfter(cfg, s, e)[u] <= cfg.maxConnsPerUser
  {
    hide Accepted, Incremented;
    if Accepted(cfg, s, e) {
      AcceptedIsCounted(cfg, s, e);
    }
  }

  lemma StepKeepsQuota(cfg: Config, s: State, o: Observer, e: Event)
    requires Fits(cfg, s, o) && QuotaExact(cfg, s, o) && Enabled(s, e)
    ensures QuotaExact(cfg, Step(cfg, s, e), Observe(cfg, s, o, e))
  {
    hide Unpaid, Fits, Observe, CountsAfter, CountOf, NewlyUnpaid, NewlyPaid;
    hide MembersAfter, TasksAfter, CtxAfter, CloseAfter;
    var t, p := Step(cfg, s, e), Observe(cfg, s, o, e);
    CountsKeepLimit(cfg, s, e);
    forall u | u > 0
      ensures CountOf(t.userConnCount, u) == |Unpaid(t, p, u)|
    {
      CountStep(cfg, s, o, e, u);
      UnpaidAfter(cfg, s, o, e, u);
    }
  }

  lemma NewestIsNew(s: State, o: Observer, u: int)
    ensures |s.tasks| !in Unpaid(s, o, u)
  {
  }

  /** Whoever is being paid back has a slot: the count never falls below the joins unpaid. */
  lemma PayeeIsUnpaid(cfg: Config, s: State, o: Observer, c: ConnId)
    requires Fits(cfg, s, o) && c in s.closes && s.closes[c].Paying?
    ensures c in o.payee && s.closes[c].user > 0
    ensures forall u :: o.payee[c] in Unpaid(s, o, u) <==> u == s.closes[c].user
  {
    hide RoomWritten;
    assert c in s.ctxs && ConnFits(s, o, c);
    assert Wrote(s, c, o.payee[c]);
    assert TaskFits(cfg, s, o.payee[c]);
  }

  // ----- the invariant: rooms -----------------------------------------------------------------------------------

  predicate OfConn(s: State, c: ConnId, t: int) {
    0 <= t < |s.tasks| && s.tasks[t].c == c
  }

  /** Some accepted join of the connection named the room. */
  ghost predicate Named(s: State, c: ConnId, room: int) {
    exists t :: OfConn(s, c, t) && s.tasks[t].room == room
  }

  /** Join t has put connection c in the room. */
  predicate PutIn(s: State, c: ConnId, t: int, room: int) {
    OfConn(s, c, t) && s.tasks[t].pc == Done(room)
  }

  /** What OnClose read names the room, on the loop the connection is on. */
  predicate Takes(cfg: Config, seen: Seen, c: ConnId, room: int) {
    seen.room == room && seen.loop == cfg.loopOf(c)
  }

  /** Join t has put the connection in the room, and no removal has undone that. */
  predicate Keeps(cfg: Config, s: State, c: ConnId, left: bool, seen: Seen, t: int, room: int) {
    PutIn(s, c, t, room) && (left && Takes(cfg, seen, c, room) ==> t in seen.unfinished)
  }

  ghost predicate IsKept(cfg: Config, s: State, c: ConnId, left: bool, seen: Seen, room: int) {
    exists t :: Keeps(cfg, s, c, left, seen, t, room)
  }

  ghost predicate MembersMatch(cfg: Config, s: State, c: ConnId, left: bool, seen: Seen) {
    forall room, loop ::
      (room, loop, c) in s.members <==>
        loop == cfg.loopOf(c) && 0 <= loop < cfg.loopCount && IsKept(cfg, s, c, left, seen, room)
  }

  ghost predicate PlaceExact(cfg: Config, s: State, o: Observer, c: ConnId)
    requires c in s.closes
  {
    var seen, left := SeenOf(o, c), HasLeft(s.closes[c]);
    && MembersMatch(cfg, s, c, left, seen)
    && (if left then InHand(s, c) <= seen.unfinished else seen.unfinished == {})
    && (forall t | t in seen.unfinished :: OfConn(s, c, t))
    && (left && seen.room == 0 ==> forall t :: OfConn(s, c, t) ==> t in seen.unfinished)
  }

  /** The room a join has read from the context, or put its connection in. */
  function RoomOf(pc: JoinPc): int {
    if pc.RoomRead? || pc.Inserting? || pc.Done? then pc.room else 0
  }

  /** Every room in the context, read from it or seen by OnClose was named by a join, and the loop is the
      connection's own as soon as a join has written it. */
  ghost predicate ReadsExact(cfg: Config, s: State, o: Observer, c: ConnId)
    requires c in s.ctxs && c in s.closes
  {
    var ctx, pc, seen := s.ctxs[c], s.closes[c], SeenOf(o, c);
    && (ctx.room > 0 ==> Named(s, c, ctx.room))
    && ctx.loop == (if LoopWriters(s, c) == {} then 0 else cfg.loopOf(c))
    && (forall t :: OfConn(s, c, t) && RoomOf(s.tasks[t].pc) > 0 ==> Named(s, c, RoomOf(s.tasks[t].pc)))
    && seen.room >= 0 && (seen.room > 0 ==> Named(s, c, seen.room))
    && (pc.NotClosing? || pc.Checked? ==> seen.room == 0)
    && (pc.RoomSeen? || pc.Removing? ==> seen.room == pc.room > 0)
    && (pc.Removing? ==> seen.loop == pc.loop)
    && (seen.room > 0 && !pc.RoomSeen? ==> seen.loop == if seen.writers == {} then 0 else cfg.loopOf(c))
  }

  ghost predicate PlacesExact(cfg: Config, s: State, o: Observer) {
    && s.ctxs.Keys == s.closes.Keys
    && (forall c | c in s.closes :: PlaceExact(cfg, s, o, c) && ReadsExact(cfg, s, o, c))
    && (forall m | m in s.members :: m.2 in s.ctxs)
  }

  // ----- what a step leaves alone --------------------------------------------------------------------------------

  /** Joins are only added, and keep their connection and their room. */
  lemma JoinsPersist(cfg: Config, s: State, e: Event, t: int)
    requires Enabled(s, e) && 0 <= t < |s.tasks|
    ensures var u := Step(cfg, s, e);
      && t < |u.tasks| && u.tasks[t].c == s.tasks[t].c && u.tasks[t].room == s.tasks[t].room
      && (e != Work(t) ==> u.tasks[t] == s.tasks[t])
  {
    hide Refusal, MembersAfter, CountsAfter;
  }

  /** A join that a step adds has only been counted. */
  lemma NewJoins(cfg: Config, s: State, e: Event, t: int)
    requires Enabled(s, e) && |s.tasks| <= t < |Step(cfg, s, e).tasks|
    ensures Accepted(cfg, s, e) && t == |s.tasks| && Step(cfg, s, e).tasks[t] == Task(e.c, e.user, e.room, Counted)
  {
    hide Refusal, MembersAfter, CountsAfter;
  }

  lemma NamedPersists(cfg: Config, s: State, e: Event, c: ConnId, room: int)
    requires Enabled(s, e) && Named(s, c, room)
    ensures Named(Step(cfg, s, e), c, room)
  {
    hide Step;
    var t :| OfConn(s, c, t) && s.tasks[t].room == room;
    JoinsPersist(cfg, s, e, t);
    assert OfConn(Step(cfg, s, e), c, t);
  }

  // ----- the reads of one connection -----------------------------------------------------------------------------

  lemma WritersAfter(cfg: Config, s: State, e: Event, c: ConnId)
    requires Enabled(s, e)
    ensures LoopWriters(Step(cfg, s, e), c)
         == LoopWriters(s, c) + if e.Work? && s.tasks[e.t].c == c && s.tasks[e.t].pc.RoomSet? then {e.t} else {}
  {
    hide Refusal, MembersAfter, CountsAfter;
    var u := Step(cfg, s, e);
    forall t | 0 <= t < |u.tasks|
      ensures t in LoopWriters(u, c) <==>
        t in LoopWriters(s, c) || (e.Work? && s.tasks[e.t].c == c && s.tasks[e.t].pc.RoomSet? && t == e.t)
    {
    }
    assert |u.tasks| >= |s.tasks|;
  }

  lemma StepKeepsReads(cfg: Config, s: State, o: Observer, e: Event, c: ConnId)
    requires Enabled(s, e) && c in s.ctxs && c in s.closes && ReadsExact(cfg, s, o, c)
    requires e.Open? ==> e.c != c
    requires forall t | 0 <= t < |s.tasks| :: TaskFits(cfg, s, t)
    requires s.closes[c].Checked? ==> FindsRoom(s.ctxs[c])
    ensures var u := Step(cfg, s, e); c in u.ctxs && c in u.closes && ReadsExact(cfg, u, Observe(cfg, s, o, e), c)
  {
    hide Refusal, MembersAfter, CountsAfter, LoopWriters, Named;
    var u, p := Step(cfg, s, e), Observe(cfg, s, o, e);
    WritersAfter(cfg, s, e, c);
    RoomsStayNamed(cfg, s, o, e, c);
    if s.ctxs[c].room > 0 {
      NamedPersists(cfg, s, e, c, s.ctxs[c].room);
    }
    if SeenOf(o, c).room > 0 {
      NamedPersists(cfg, s, e, c, SeenOf(o, c).room);
    }
    if e.Work? && s.tasks[e.t].c == c && s.tasks[e.t].pc.UserSet? {
      JoinNames(s, c, e.t);
      NamedPersists(cfg, s, e, c, s.tasks[e.t].room);
    }
  }

  lemma JoinNames(s: State, c: ConnId, t: int)
    requires OfConn(s, c, t)
    ensures Named(s, c, s.tasks[t].room)
  {
  }

  lemma RoomsStayNamed(cfg: Config, s: State, o: Observer, e: Event, c: ConnId)
    requires Enabled(s, e) && c in s.ctxs && c in s.closes && ReadsExact(cfg, s, o, c)
    requires forall t | 0 <= t < |s.tasks| :: TaskFits(cfg, s, t)
    ensures var u := Step(cfg, s, e);
      forall t :: OfConn(u, c, t) && RoomOf(u.tasks[t].pc) > 0 ==> Named(u, c, RoomOf(u.tasks[t].pc))
  {
    hide Refusal, MembersAfter, CountsAfter, LoopWriters, Named;
    var u := Step(cfg, s, e);
    forall t | OfConn(u, c, t) && RoomOf(u.tasks[t].pc) > 0
      ensures Named(u, c, RoomOf(u.tasks[t].pc))
    {
      if t < |s.tasks| {
        JoinsPersist(cfg, s, e, t);
        assert OfConn(s, c, t) && TaskFits(cfg, s, t);
        NamedPersists(cfg, s, e, c, if s.tasks[t].pc.LoopSet? then s.ctxs[c].room else RoomOf(s.tasks[t].pc));
      } else {
        NewJoins(cfg, s, e, t);
      }
    }
  }

  lemma OpenReads(cfg: Config, s: State, o: Observer, c: ConnId)
    requires Enabled(s, Open(c)) && forall t | 0 <= t < |s.tasks| :: TaskFits(cfg, s, t)
    ensures var u := Step(cfg, s, Open(c));
      c in u.ctxs && c in u.closes && ReadsExact(cfg, u, Observe(cfg, s, o, Open(c)), c)
  {
    var u := Step(cfg, s, Open(c));
    forall t
      ensures !OfConn(u, c, t)
    {
      assert 0 <= t < |s.tasks| ==> TaskFits(cfg, s, t);
    }
    forall t
      ensures t !in LoopWriters(u, c)
    {
      assert !OfConn(u, c, t);
    }
    assert LoopWriters(u, c) == {};
  }

  // ----- the place of one connection -----------------------------------------------------------------------------

  lemma OtherPlace(cfg: Config, s: State, o: Observer, e: Event, c: ConnId)
    requires Enabled(s, e) && c in s.closes && c != ConnOf(s, e) && PlaceExact(cfg, s, o, c)
    ensures c in Step(cfg, s, e).closes && PlaceExact(cfg, Step(cfg, s, e), Observe(cfg, s, o, e), c)
  {
    hide Refusal, CountsAfter;
    var u, p := Step(cfg, s, e), Observe(cfg, s, o, e);
    assert SeenOf(p, c) == SeenOf(o, c) && u.closes[c] == s.closes[c];
    forall t
      ensures OfConn(u, c, t) <==> OfConn(s, c, t)
      ensures OfConn(s, c, t) ==> u.tasks[t] == s.tasks[t]
    {
    }
    assert InHand(u, c) == InHand(s, c);
    SameKeeps(cfg, s, u, c, HasLeft(s.closes[c]), SeenOf(o, c));
  }

  /** Where the joins of a connection have put it does not change, its place does not either. */
  lemma SameKeeps(cfg: Config, s: State, u: State, c: ConnId, left: bool, seen: Seen)
    requires MembersMatch(cfg, s, c, left, seen)
    requires forall t, room :: PutIn(u, c, t, room) <==> PutIn(s, c, t, room)
    requires forall room, loop :: (room, loop, c) in u.members <==> (room, loop, c) in s.members
    ensures MembersMatch(cfg, u, c, left, seen)
  {
    forall room
      ensures IsKept(cfg, u, c, left, seen, room) <==> IsKept(cfg, s, c, left, seen, room)
    {
      forall t
        ensures Keeps(cfg, u, c, left, seen, t, room) <==> Keeps(cfg, s, c, left, seen, t, room)
      {
        assert PutIn(u, c, t, room) <==> PutIn(s, c, t, room);
      }
    }
  }

  lemma JoinPlace(cfg: Config, s: State, o: Observer, e: Event)
    requires Enabled(s, e) && e.Join? && e.c in s.closes && PlaceExact(cfg, s, o, e.c)
    ensures PlaceExact(cfg, Step(cfg, s, e), Observe(cfg, s, o, e), e.c)
  {
    hide Refusal, CountsAfter, MembersMatch;
    var u, p, c := Step(cfg, s, e), Observe(cfg, s, o, e), e.c;
    var left := HasLeft(s.closes[c]);
    forall t, room
      ensures PutIn(u, c, t, room) <==> PutIn(s, c, t, room)
    {
    }
    SameKeeps(cfg, s, u, c, left, SeenOf(o, c));
    if Accepted(cfg, s, e) {
      assert InHand(u, c) == InHand(s, c) + {|s.tasks|};
      MoreUnfinished(cfg, u, c, left, SeenOf(o, c), |s.tasks|);
    }
  }

  /** A join that has put its connection nowhere does not matter to where the connection is kept. */
  lemma MoreUnfinished(cfg: Config, s: State, c: ConnId, left: bool, seen: Seen, n: int)
    requires MembersMatch(cfg, s, c, left, seen) && forall room :: !PutIn(s, c, n, room)
    ensures MembersMatch(cfg, s, c, left, seen.(unfinished := seen.unfinished + {n}))
  {
    var more := seen.(unfinished := seen.unfinished + {n});
    forall room
      ensures IsKept(cfg, s, c, left, more, room) <==> IsKept(cfg, s, c, left, seen, room)
    {
      forall t
        ensures Keeps(cfg, s, c, left, more, t, room) <==> Keeps(cfg, s, c, left, seen, t, room)
      {
        assert t == n ==> !PutIn(s, c, n, room);
      }
    }
  }

  lemma WorkPlace(cfg: Config, s: State, o: Observer, t: nat)
    requires Enabled(s, Work(t)) && TaskFits(cfg, s, t) && s.tasks[t].c != ""
    requires s.tasks[t].c in s.closes && PlaceExact(cfg, s, o, s.tasks[t].c)
    ensures PlaceExact(cfg, Step(cfg, s, Work(t)), Observe(cfg, s, o, Work(t)), s.tasks[t].c)
  {
    hide CountsAfter, MembersMatch;
    var u, c := Step(cfg, s, Work(t)), s.tasks[t].c;
    var seen, left := SeenOf(o, c), HasLeft(s.closes[c]);
    assert t in InHand(s, c);
    forall k
      ensures OfConn(u, c, k) <==> OfConn(s, c, k)
    {
    }
    forall k, room | k != t
      ensures PutIn(u, c, k, room) <==> PutIn(s, c, k, room)
    {
    }
    if s.tasks[t].pc.Inserting? {
      assert InHand(u, c) == InHand(s, c) - {t};
      InsertedPlace(cfg, s, t, left, seen);
    } else {
      assert InHand(u, c) == InHand(s, c);
      SameKeeps(cfg, s, u, c, left, seen);
    }
  }

  lemma InsertedPlace(cfg: Config, s: State, t: nat, left: bool, seen: Seen)
    requires Enabled(s, Work(t)) && TaskFits(cfg, s, t) && s.tasks[t].c != "" && s.tasks[t].pc.Inserting?
    requires MembersMatch(cfg, s, s.tasks[t].c, left, seen) && (left ==> t in seen.unfinished)
    ensures MembersMatch(cfg, Step(cfg, s, Work(t)), s.tasks[t].c, left, seen)
  {
    hide CountsAfter;
    var u, c, put := Step(cfg, s, Work(t)), s.tasks[t].c, s.tasks[t].pc.room;
    forall room
      ensures IsKept(cfg, u, c, left, seen, room) <==> IsKept(cfg, s, c, left, seen, room) || room == put
    {
      forall k
        ensures Keeps(cfg, u, c, left, seen, k, room) <==>
          Keeps(cfg, s, c, left, seen, k, room) || (k == t && room == put)
      {
        assert k != t ==> (PutIn(u, c, k, room) <==> PutIn(s, c, k, room));
        assert PutIn(u, c, t, room) <==> room == put;
      }
      assert room == put ==> Keeps(cfg, u, c, left, seen, t, room);
    }
  }

  lemma SameKept(cfg: Config, s: State, c: ConnId, left: bool, seen: Seen, left': bool, seen': Seen)
    requires MembersMatch(cfg, s, c, left, seen)
    requires forall t, room :: Keeps(cfg, s, c, left, seen, t, room) <==> Keeps(cfg, s, c, left', seen', t, room)
    ensures MembersMatch(cfg, s, c, left', seen')
  {
    forall room
      ensures IsKept(cfg, s, c, left, seen, room) <==> IsKept(cfg, s, c, left', seen', room)
    {
      assert forall t :: Keeps(cfg, s, c, left, seen, t, room) <==> Keeps(cfg, s, c, left', seen', t, room);
    }
  }

  /** A close leaves the joins alone. */
  lemma CloseFrame(cfg: Config, s: State, e: Event, c: ConnId)
    requires Enabled(s, e) && (e.Close? || e.Leave?)
    ensures var u := Step(cfg, s, e);
      && u.tasks == s.tasks && InHand(u, c) == InHand(s, c)
      && (!(e.Leave? && s.closes[e.c].Removing?) ==> u.members == s.members)
  {
    hide CountsAfter;
  }

  lemma ClosePlace(cfg: Config, s: State, o: Observer, e: Event)
    requires Enabled(s, e) && (e.Close? || e.Leave?) && PlaceExact(cfg, s, o, e.c) && ReadsExact(cfg, s, o, e.c)
    requires forall t | 0 <= t < |s.tasks| :: TaskFits(cfg, s, t)
    requires forall t :: OfConn(s, e.c, t) && s.tasks[t].pc.Done? ==> FindsRoom(s.ctxs[e.c])
    ensures PlaceExact(cfg, Step(cfg, s, e), Observe(cfg, s, o, e), e.c)
  {
    hide CountsAfter, MembersMatch, Named, LoopWriters, IsKept;
    var u, p, c := Step(cfg, s, e), Observe(cfg, s, o, e), e.c;
    var left, seen, left', seen' := HasLeft(s.closes[c]), SeenOf(o, c), HasLeft(u.closes[c]), SeenOf(p, c);
    CloseFrame(cfg, s, e, c);
    forall t, room
      ensures PutIn(u, c, t, room) <==> PutIn(s, c, t, room)
      ensures PutIn(s, c, t, room) ==> room > 0 && t !in InHand(s, c)
    {
      assert 0 <= t < |s.tasks| ==> TaskFits(cfg, s, t);
    }
    if e.Leave? && s.closes[c].Removing? {
      RemovedPlace(cfg, s, u, c, seen, seen');
    } else {
      SameKept(cfg, s, c, left, seen, left', seen');
      SameKeeps(cfg, s, u, c, left', seen');
    }
  }

  lemma RemovedPlace(cfg: Config, s: State, u: State, c: ConnId, seen: Seen, seen': Seen)
    requires MembersMatch(cfg, s, c, false, seen) && u.members == s.members - {(seen.room, seen.loop, c)}
    requires seen'.room == seen.room && seen'.loop == seen.loop
    requires forall t, room :: PutIn(u, c, t, room) <==> PutIn(s, c, t, room)
    requires forall t, room :: PutIn(s, c, t, room) ==> t !in seen'.unfinished
    ensures MembersMatch(cfg, u, c, true, seen')
  {
    forall room
      ensures IsKept(cfg, u, c, true, seen', room)
         <==> IsKept(cfg, s, c, false, seen, room) && !Takes(cfg, seen, c, room)
    {
      forall t
        ensures Keeps(cfg, u, c, true, seen', t, room)
           <==> Keeps(cfg, s, c, false, seen, t, room) && !Takes(cfg, seen, c, room)
      {
        assert PutIn(u, c, t, room) <==> PutIn(s, c, t, room);
      }
    }
  }

  lemma OpenPlace(cfg: Config, s: State, o: Observer, c: ConnId)
    requires Enabled(s, Open(c)) && forall m | m in s.members :: m.2 in s.ctxs
    requires forall t | 0 <= t < |s.tasks| :: TaskFits(cfg, s, t)
    ensures PlaceExact(cfg, Step(cfg, s, Open(c)), Observe(cfg, s, o, Open(c)), c)
  {
    forall room, loop
      ensures (room, loop, c) !in s.members
    {
      var m := (room, loop, c);
      assert m in s.members ==> m.2 in s.ctxs;
    }
    var u := Step(cfg, s, Open(c));
    forall t
      ensures !OfConn(u, c, t)
    {
      assert 0 <= t < |s.tasks| ==> TaskFits(cfg, s, t);
    }
    forall room
      ensures !IsKept(cfg, u, c, false, UNSEEN, room)
    {
      assert forall t :: Keeps(cfg, u, c, false, UNSEEN, t, room) ==> OfConn(u, c, t);
    }
  }

  /** A connection that a join has put somewhere has a room in its context. */
  lemma DoneJoinsAreFound(cfg: Config, s: State, o: Observer, c: ConnId)
    requires Fits(cfg, s, o) && c in s.ctxs
    ensures forall t :: OfConn(s, c, t) && s.tasks[t].pc.Done? ==> FindsRoom(s.ctxs[c])
  {
    hide RoomWritten;
    forall t | OfConn(s, c, t) && s.tasks[t].pc.Done?
      ensures FindsRoom(s.ctxs[c])
    {
      assert TaskFits(cfg, s, t) && ConnFits(s, o, c);
      assert Wrote(s, c, t);
    }
  }

  lemma StepKeepsPlaces(cfg: Config, s: State, o: Observer, e: Event)
    requires Fits(cfg, s, o) && PlacesExact(cfg, s, o) && Enabled(s, e)
    ensures PlacesExact(cfg, Step(cfg, s, e), Observe(cfg, s, o, e))
  {
    hide PlaceExact, ReadsExact, ConnFits, TaskFits, Refusal, Observe, CountsAfter;
    var t, p := Step(cfg, s, e), Observe(cfg, s, o, e);
    forall c | c in t.closes
      ensures PlaceExact(cfg, t, p, c) && c in t.ctxs && ReadsExact(cfg, t, p, c)
    {
      if e.Open? && e.c == c {
        OpenPlace(cfg, s, o, c);
        OpenReads(cfg, s, o, c);
      } else {
        assert c in s.closes && c in s.ctxs;
        assert PlaceExact(cfg, s, o, c) && ReadsExact(cfg, s, o, c);
        assert ConnFits(s, o, c);
        CheckedFinds(s, o, c);
        StepKeepsReads(cfg, s, o, e, c);
        if c != ConnOf(s, e) {
          OtherPlace(cfg, s, o, e, c);
        } else if e.Join? {
          JoinPlace(cfg, s, o, e);
        } else if e.Work? {
          assert TaskFits(cfg, s, e.t);
          WorkPlace(cfg, s, o, e.t);
        } else {
          DoneJoinsAreFound(cfg, s, o, c);
          ClosePlace(cfg, s, o, e);
        }
      }
    }
  }

  lemma CheckedFinds(s: State, o: Observer, c: ConnId)
    requires c in s.ctxs && c in s.closes && ConnFits(s, o, c)
    ensures c != "" && (s.closes[c].Checked? ==> FindsRoom(s.ctxs[c]))
  {
  }

  // ----- runs ----------------------------------------------------------------------------------------------------

  ghost predicate Inv(cfg: Config, s: State, o: Observer) {
    Fits(cfg, s, o) && QuotaExact(cfg, s, o) && PlacesExact(cfg, s, o)
  }

  lemma StepKeepsInv(cfg: Config, s: State, o: Observer, e: Event)
    requires Inv(cfg, s, o) && Enabled(s, e)
    ensures Inv(cfg, Step(cfg, s, e), Observe(cfg, s, o, e))
  {
    hide Fits, QuotaExact, PlacesExact, Step, Observe;
    StepKeepsFits(cfg, s, o, e);
    StepKeepsQuota(cfg, s, o, e);
    StepKeepsPlaces(cfg, s, o, e);
  }

  predicate AllEnabled(cfg: Config, s: State, events: seq<Event>)
    decreases |events|
  {
    events == [] || (Enabled(s, events[0]) && AllEnabled(cfg, Step(cfg, s, events[0]), events[1..]))
  }

  function Run(cfg: Config, s: State, o: Observer, events: seq<Event>): (State, Observer)
    requires AllEnabled(cfg, s, events)
    decreases |events|
  {
    if events == [] then (s, o)
    else Run(cfg, Step(cfg, s, events[0]), Observe(cfg, s, o, events[0]), events[1..])
  }

  lemma {:induction false} RunKeepsInv(cfg: Config, s: State, o: Observer, events: seq<Event>)
    requires AllEnabled(cfg, s, events) && Inv(cfg, s, o)
    ensures var (t, p) := Run(cfg, s, o, events); Inv(cfg, t, p)
    decreases |events|
  {
    hide Inv, Step, Observe, Enabled;
    if events == [] {
    } else {
      StepKeepsInv(cfg, s, o, events[0]);
      RunKeepsInv(cfg, Step(cfg, s, events[0]), Observe(cfg, s, o, events[0]), events[1..]);
    }
  }

  lemma InitInv(cfg: Config)
    ensures Inv(cfg, INIT, NOTHING)
  {
    assert forall u :: Unpaid(INIT, NOTHING, u) == {};
  }

  lemma ReachableInv(cfg: Config, events: seq<Event>)
    requires AllEnabled(cfg, INIT, events)
    ensures var (s, o) := Run(cfg, INIT, NOTHING, events); Inv(cfg, s, o)
  {
    hide Inv;
    InitInv(cfg);
    RunKeepsInv(cfg, INIT, NOTHING, events);
  }

  // ----- the quota over whole runs ---------------------------------------------------------------------------------

  /** The connections of a user that have joined and whose close has not begun. */
  ghost function Live(s: State, user: int): set<ConnId> {
    set c | c in s.closes && s.closes[c].NotClosing? && c in s.ctxs && s.ctxs[c].user == user
  }

  /** Join t is the one that a live connection's context names. */
  predicate Current(s: State, o: Observer, t: int) {
    && 0 <= t < |s.tasks|
    && var c := s.tasks[t].c;
    c in s.closes && s.closes[c].NotClosing? && c in o.holder && o.holder[c] == t
  }

  /** Joins that are counted although no live connection's context names them. */
  ghost function Surplus(s: State, o: Observer, user: int): set<int> {
    set t | t in Unpaid(s, o, user) && !Current(s, o, t)
  }

  /** The sets of connections and of the joins they hold are of one size. */
  lemma {:induction false} HoldersCount(conns: set<ConnId>, holder: map<ConnId, nat>, joins: set<int>)
    requires conns <= holder.Keys && (forall a, b | a in conns && b in conns && a != b :: holder[a] != holder[b])
    requires forall t :: t in joins <==> exists c :: c in conns && holder[c] == t
    ensures |joins| == |conns|
    decreases |conns|
  {
    if conns == {} {
      forall t
        ensures t !in joins
      {
      }
      assert joins == {};
    } else {
      var c := HasElement(conns);
      var fewer, rest := conns - {c}, joins - {holder[c] as int};
      forall t
        ensures t in rest <==> exists d :: d in fewer && holder[d] == t
      {
        if d :| d in conns && holder[d] == t && t in rest {
          assert d in fewer;
        }
      }
      HoldersCount(fewer, holder, rest);
    }
  }

  lemma CurrentCount(cfg: Config, s: State, o: Observer, user: int)
    requires Fits(cfg, s, o) && user > 0
    ensures |set t | t in Unpaid(s, o, user) && Current(s, o, t)| == |Live(s, user)|
  {
    hide TaskFits, RoomWritten;
    var live, joins := Live(s, user), set t | t in Unpaid(s, o, user) && Current(s, o, t);
    forall c | c in live
      ensures c in o.holder && OfConn(s, c, o.holder[c]) && s.tasks[o.holder[c]].user == user && o.holder[c] in joins
    {
      assert ConnFits(s, o, c);
    }
    forall t | t in joins
      ensures s.tasks[t].c in live && o.holder[s.tasks[t].c] == t
    {
      assert ConnFits(s, o, s.tasks[t].c);
    }
    HoldersCount(live, o.holder, joins);
  }

  /** In every interleaving a user's live connections never exceed the stored count, which never exceeds the
      limit; the difference is exactly the number of joins counted that no live connection holds. */
  lemma QuotaHolds(cfg: Config, events: seq<Event>, user: int)
    requires AllEnabled(cfg, INIT, events) && user > 0 && cfg.maxConnsPerUser >= 0
    ensures var (s, o) := Run(cfg, INIT, NOTHING, events);
      && |Live(s, user)| <= CountOf(s.userConnCount, user) <= cfg.maxConnsPerUser
      && CountOf(s.userConnCount, user) - |Live(s, user)| == |Surplus(s, o, user)|
  {
    hide Fits, PlacesExact, Unpaid, Current, Live;
    ReachableInv(cfg, events);
    var (s, o) := Run(cfg, INIT, NOTHING, events);
    CountSplits(cfg, s, o, user);
  }

  // ----- joins that no close will ever pay back -----------------------------------------------------------------

  /** Some continuation can still pay join t back. */
  predicate MayBePaid(s: State, o: Observer, t: int)
    requires 0 <= t < |s.tasks|
  {
    var c := s.tasks[t].c;
    c in s.closes &&
    match s.closes[c]
    case Closed => false
    case Paying(_) => c in o.payee && o.payee[c] == t
    case _ => s.tasks[t].pc.Counted? || (c in o.holder && o.holder[c] == t)
  }

  /** Join t holds a slot that it will never give back. */
  predicate Lost(s: State, o: Observer, t: int) {
    0 <= t < |s.tasks| && !Paid(s, o, t) && !MayBePaid(s, o, t)
  }

  /** What is lost stays lost. */
  lemma LostStays(cfg: Config, s: State, o: Observer, e: Event, t: int)
    requires Fits(cfg, s, o) && Enabled(s, e) && Lost(s, o, t)
    ensures Lost(Step(cfg, s, e), Observe(cfg, s, o, e), t)
  {
    hide ConnFits, MayBePaid, Paid, Step, Observe, Enabled;
    assert TaskFits(cfg, s, t);
    assert ConnFits(s, o, s.tasks[t].c);
    PaidAfter(cfg, s, o, e, t);
    NoPaymentAfter(cfg, s, o, e, t);
    PayeeMayBePaid(s, o, e, t);
  }

  lemma PayeeMayBePaid(s: State, o: Observer, e: Event, t: int)
    requires 0 <= t < |s.tasks| && s.tasks[t].c in s.closes && s.tasks[t].c in s.ctxs
    requires ConnFits(s, o, s.tasks[t].c) && !MayBePaid(s, o, t)
    ensures !(e == Leave(s.tasks[t].c) && s.closes[s.tasks[t].c].Paying? && t == o.payee[s.tasks[t].c])
  {
  }

  lemma NoPaymentAfter(cfg: Config, s: State, o: Observer, e: Event, t: int)
    requires Enabled(s, e) && 0 <= t < |s.tasks| && s.tasks[t].c in s.ctxs && s.tasks[t].c in s.closes
    requires ConnFits(s, o, s.tasks[t].c) && !MayBePaid(s, o, t)
    ensures t < |Step(cfg, s, e).tasks| && !MayBePaid(Step(cfg, s, e), Observe(cfg, s, o, e), t)
  {
    hide RoomWritten, Refusal, Wrote;
  }

  /** No join is at work and no close is under way. */
  predicate AtRest(s: State) {
    (forall t | 0 <= t < |s.tasks| :: s.tasks[t].pc.Done?)
    && (forall c | c in s.closes :: s.closes[c].NotClosing? || s.closes[c].Closed?)
  }

  lemma SurplusIsLost(cfg: Config, s: State, o: Observer, user: int, t: int)
    requires Fits(cfg, s, o) && AtRest(s)
    ensures t in Surplus(s, o, user) <==> 0 <= t < |s.tasks| && Lost(s, o, t) && s.tasks[t].user == user
  {
    if 0 <= t < |s.tasks| {
      assert TaskFits(cfg, s, t);
    }
  }

  /** Each connection has joined at most once, and its close, if it was a member, found that in the context. */
  ghost predicate Tidy(s: State, o: Observer) {
    && (forall t, u | 0 <= t < u < |s.tasks| :: s.tasks[t].c != s.tasks[u].c)
    && (forall t | 0 <= t < |s.tasks| :: FoundByClose(s, o, s.tasks[t].c))
  }

  predicate FoundByClose(s: State, o: Observer, c: ConnId) {
    c in s.closes && s.closes[c].Closed? ==> c in o.payee
  }

  /** A close finds a room exactly when a join of the connection has written one. */
  lemma CloseFindsWrittenRoom(cfg: Config, events: seq<Event>, c: ConnId)
    requires AllEnabled(cfg, INIT, events)
    ensures var s := Run(cfg, INIT, NOTHING, events).0;
      Enabled(s, Close(c)) ==> (Step(cfg, s, Close(c)).closes[c].Checked? <==> RoomWritten(s, c))
  {
    ReachableInv(cfg, events);
    var (s, o) := Run(cfg, INIT, NOTHING, events);
    if Enabled(s, Close(c)) {
      assert ConnFits(s, o, c);
    }
  }

  lemma NothingLostIffTidy(cfg: Config, s: State, o: Observer)
    requires Fits(cfg, s, o) && AtRest(s)
    ensures (forall t :: !Lost(s, o, t)) <==> Tidy(s, o)
  {
    hide RoomWritten;
    forall t | 0 <= t < |s.tasks|
      ensures var c := s.tasks[t].c; c in s.closes && c in o.holder && OfConn(s, c, o.holder[c])
      ensures var c := s.tasks[t].c; c in o.payee ==> OfConn(s, c, o.payee[c])
    {
      assert TaskFits(cfg, s, t) && ConnFits(s, o, s.tasks[t].c);
      assert Wrote(s, s.tasks[t].c, t);
    }
    if forall t :: !Lost(s, o, t) {
      forall t, u | 0 <= t < u < |s.tasks|
        ensures s.tasks[t].c != s.tasks[u].c
      {
        assert !Lost(s, o, t) && !Lost(s, o, u);
      }
      forall t | 0 <= t < |s.tasks|
        ensures FoundByClose(s, o, s.tasks[t].c)
      {
        assert !Lost(s, o, t);
      }
    }
    if Tidy(s, o) {
      forall t
        ensures !Lost(s, o, t)
      {
        if 0 <= t < |s.tasks| {
          var c := s.tasks[t].c;
          assert FoundByClose(s, o, c);
          OnlyJoin(s, o, t, o.holder[c]);
          if c in o.payee {
            OnlyJoin(s, o, t, o.payee[c]);
          }
        }
      }
    }
  }

  lemma OnlyJoin(s: State, o: Observer, t: int, u: int)
    requires Tidy(s, o) && 0 <= t < |s.tasks| && OfConn(s, s.tasks[t].c, u)
    ensures t == u
  {
  }

  /** At rest every user's stored count is the number of live connections if and only if each connection has
      joined at most once and no close has come between a join's count and its write of the room. */
  lemma TidyQuotaIsExact(cfg: Config, events: seq<Event>)
    requires AllEnabled(cfg, INIT, events)
    ensures var (s, o) := Run(cfg, INIT, NOTHING, events);
      AtRest(s) ==>
        ((forall u | u > 0 :: CountOf(s.userConnCount, u) == |Live(s, u)|) <==> Tidy(s, o))
  {
    hide PlacesExact, Live, Surplus, Lost, Tidy, AtRest, TaskFits;
    ReachableInv(cfg, events);
    var (s, o) := Run(cfg, INIT, NOTHING, events);
    if AtRest(s) {
      NothingLostIffTidy(cfg, s, o);
      forall u | u > 0
        ensures CountOf(s.userConnCount, u) - |Live(s, u)| == |Surplus(s, o, u)|
      {
        CountSplits(cfg, s, o, u);
      }
      forall u, t
        ensures t in Surplus(s, o, u) <==> 0 <= t < |s.tasks| && Lost(s, o, t) && s.tasks[t].user == u
      {
        SurplusIsLost(cfg, s, o, u, t);
      }
      if t :| Lost(s, o, t) {
        LostHasUser(cfg, s, o, t);
        assert t in Surplus(s, o, s.tasks[t].user);
      } else {
        forall u | u > 0
          ensures Surplus(s, o, u) == {}
        {
          forall t
            ensures t !in Surplus(s, o, u)
          {
            SurplusIsLost(cfg, s, o, u, t);
          }
        }
      }
    }
  }

  lemma CountSplits(cfg: Config, s: State, o: Observer, user: int)
    requires Fits(cfg, s, o) && QuotaExact(cfg, s, o) && user > 0
    ensures CountOf(s.userConnCount, user) - |Live(s, user)| == |Surplus(s, o, user)|
  {
    hide Fits, Unpaid, Current, Live;
    CurrentCount(cfg, s, o, user);
    var current := set t | t in Unpaid(s, o, user) && Current(s, o, t);
    assert Unpaid(s, o, user) == current + Surplus(s, o, user);
  }

  lemma LostHasUser(cfg: Config, s: State, o: Observer, t: int)
    requires Fits(cfg, s, o) && Lost(s, o, t)
    ensures 0 <= t < |s.tasks| && s.tasks[t].user > 0
  {
    assert TaskFits(cfg, s, t);
  }

  // ----- rooms over whole runs ----------------------------------------------------------------------------------

  /** The close is done, and no join of the connection is at work. */
  predicate Over(s: State, c: ConnId) {
    c in s.closes && s.closes[c].Closed? && InHand(s, c) == {}
  }

  ghost predicate IsGone(s: State, c: ConnId) {
    forall room, loop :: (room, loop, c) !in s.members
  }

  /** Every join of the connection put it in the room. */
  ghost predicate AllPutIn(s: State, c: ConnId, room: int) {
    forall t :: OfConn(s, c, t) ==> s.tasks[t].pc == Done(room)
  }

  ghost predicate HasJoined(s: State, c: ConnId) {
    exists t :: OfConn(s, c, t)
  }

  /** OnClose looked on the loop the connection is on: some join had written LoopIdx, or the index is the one that an
      unwritten context holds. */
  predicate LooksRight(cfg: Config, seen: Seen, c: ConnId) {
    seen.writers != {} || cfg.loopOf(c) == 0
  }

  lemma OverJoinsAreDone(s: State, c: ConnId, t: int)
    requires Over(s, c) && OfConn(s, c, t)
    ensures s.tasks[t].pc.Done?
  {
    assert t !in InHand(s, c);
  }

  lemma GoneIffNothingKept(cfg: Config, s: State, o: Observer, c: ConnId)
    requires Over(s, c) && PlaceExact(cfg, s, o, c) && 0 <= cfg.loopOf(c) < cfg.loopCount
    ensures IsGone(s, c) <==> forall t, room :: !Keeps(cfg, s, c, true, SeenOf(o, c), t, room)
  {
    hide Keeps, InHand, OfConn;
    var seen := SeenOf(o, c);
    if t, room :| Keeps(cfg, s, c, true, seen, t, room) {
      assert IsKept(cfg, s, c, true, seen, room);
      assert (room, cfg.loopOf(c), c) in s.members;
    }
  }

  /** Once its close is done and no join of it is at work, a connection is in no shard of any room if and only if no
      join of it was in hand when the close left or accepted since, every join put it in the room that OnClose had
      read, and, if there was a join, one had written LoopIdx when OnClose read that or its loop index is 0. */
  lemma ClosedConnIsGoneIff(cfg: Config, events: seq<Event>, c: ConnId)
    requires AllEnabled(cfg, INIT, events) && 0 <= cfg.loopOf(c) < cfg.loopCount
    ensures var (s, o) := Run(cfg, INIT, NOTHING, events); var seen := SeenOf(o, c);
      Over(s, c) ==>
        (IsGone(s, c) <==>
          && seen.unfinished == {}
          && AllPutIn(s, c, seen.room)
          && (HasJoined(s, c) ==> LooksRight(cfg, seen, c)))
  {
    hide Fits, QuotaExact, MembersMatch;
    ReachableInv(cfg, events);
    var (s, o) := Run(cfg, INIT, NOTHING, events);
    if Over(s, c) {
      assert PlaceExact(cfg, s, o, c) && ReadsExact(cfg, s, o, c);
      GoneIffNothingKept(cfg, s, o, c);
      NothingKeptIff(cfg, s, o, c);
    }
  }

  lemma NothingKeptIff(cfg: Config, s: State, o: Observer, c: ConnId)
    requires Over(s, c) && c in s.ctxs && PlaceExact(cfg, s, o, c) && ReadsExact(cfg, s, o, c)
    ensures var seen := SeenOf(o, c);
      (forall t, room :: !Keeps(cfg, s, c, true, seen, t, room)) <==>
        && seen.unfinished == {}
        && AllPutIn(s, c, seen.room)
        && (HasJoined(s, c) ==> LooksRight(cfg, seen, c))
  {
    hide MembersMatch, Named, LoopWriters;
    var seen := SeenOf(o, c);
    forall t | OfConn(s, c, t)
      ensures s.tasks[t].pc.Done? && PutIn(s, c, t, s.tasks[t].pc.room)
      ensures Keeps(cfg, s, c, true, seen, t, s.tasks[t].pc.room) <==>
        (Takes(cfg, seen, c, s.tasks[t].pc.room) ==> t in seen.unfinished)
    {
      OverJoinsAreDone(s, c, t);
    }
    if seen.unfinished != {} {
      var t := HasElement(seen.unfinished);
      assert OfConn(s, c, t) && Keeps(cfg, s, c, true, seen, t, s.tasks[t].pc.room);
    } else {
      if HasJoined(s, c) {
        SeenLoopIff(cfg, s, o, c);
      }
      forall t, room
        ensures Keeps(cfg, s, c, true, seen, t, room) <==> PutIn(s, c, t, room) && !Takes(cfg, seen, c, room)
      {
      }
    }
  }

  /** If the close left no join behind, it read the room and then the loop, unless there was no join at all. */
  lemma SeenLoopIff(cfg: Config, s: State, o: Observer, c: ConnId)
    requires Over(s, c) && c in s.ctxs && PlaceExact(cfg, s, o, c) && ReadsExact(cfg, s, o, c)
    requires SeenOf(o, c).unfinished == {} && HasJoined(s, c)
    ensures SeenOf(o, c).room > 0 && Named(s, c, SeenOf(o, c).room)
    ensures SeenOf(o, c).loop == cfg.loopOf(c) <==> LooksRight(cfg, SeenOf(o, c), c)
  {
    hide MembersMatch, LoopWriters, Named;
    var t :| OfConn(s, c, t);
    assert t !in SeenOf(o, c).unfinished;
  }

  /** If all joins of the connection named one room, only the joins left behind and the loop read matter. */
  lemma OneRoomConnIsGoneIff(cfg: Config, events: seq<Event>, c: ConnId, room: int)
    requires AllEnabled(cfg, INIT, events) && 0 <= cfg.loopOf(c) < cfg.loopCount
    requires var s := Run(cfg, INIT, NOTHING, events).0;
      forall t :: OfConn(s, c, t) ==> s.tasks[t].room == room
    ensures var (s, o) := Run(cfg, INIT, NOTHING, events); var seen := SeenOf(o, c);
      Over(s, c) ==>
        (IsGone(s, c) <==> seen.unfinished == {} && (HasJoined(s, c) ==> LooksRight(cfg, seen, c)))
  {
    hide Fits, QuotaExact, MembersMatch, LoopWriters, IsGone, AllPutIn;
    ClosedConnIsGoneIff(cfg, events, c);
    ReachableInv(cfg, events);
    var (s, o) := Run(cfg, INIT, NOTHING, events);
    if Over(s, c) && SeenOf(o, c).unfinished == {} {
      assert PlaceExact(cfg, s, o, c) && ReadsExact(cfg, s, o, c);
      if HasJoined(s, c) {
        SeenLoopIff(cfg, s, o, c);
        OnlyRoom(s, c, room, SeenOf(o, c).room);
      }
      PutInOnlyRoom(cfg, events, c, room);
    }
  }

  lemma OnlyRoom(s: State, c: ConnId, room: int, other: int)
    requires Named(s, c, other) && forall t :: OfConn(s, c, t) ==> s.tasks[t].room == room
    ensures other == room
  {
  }

  lemma PutInOnlyRoom(cfg: Config, events: seq<Event>, c: ConnId, room: int)
    requires AllEnabled(cfg, INIT, events)
    requires var s := Run(cfg, INIT, NOTHING, events).0;
      forall t :: OfConn(s, c, t) ==> s.tasks[t].room == room
    ensures var s := Run(cfg, INIT, NOTHING, events).0; Over(s, c) ==> AllPutIn(s, c, room)
    ensures var (s, o) := Run(cfg, INIT, NOTHING, events); !HasJoined(s, c) ==> AllPutIn(s, c, SeenOf(o, c).room)
  {
    hide QuotaExact, PlaceExact, LoopWriters, Named, RoomWritten, ConnFits;
    ReachableInv(cfg, events);
    var (s, o) := Run(cfg, INIT, NOTHING, events);
    if Over(s, c) {
      assert ReadsExact(cfg, s, o, c);
      forall t | OfConn(s, c, t)
        ensures s.tasks[t].pc == Done(room)
      {
        OverJoinsAreDone(s, c, t);
        assert TaskFits(cfg, s, t);
        assert RoomOf(s.tasks[t].pc) > 0;
        OnlyRoom(s, c, room, RoomOf(s.tasks[t].pc));
      }
    }
  }

  /** A connection that its joins have put in two different rooms is never gone. */
  lemma TwoRoomsConnIsNeverGone(cfg: Config, events: seq<Event>, c: ConnId, t: int, u: int, room: int, other: int)
    requires AllEnabled(cfg, INIT, events) && 0 <= cfg.loopOf(c) < cfg.loopCount && room != other
    requires var s := Run(cfg, INIT, NOTHING, events).0;
      PutIn(s, c, t, room) && PutIn(s, c, u, other)
    ensures var s := Run(cfg, INIT, NOTHING, events).0;
      c in s.closes && !IsGone(s, c)
  {
    hide QuotaExact, LoopWriters, Named, RoomWritten, ConnFits, ReadsExact;
    ReachableInv(cfg, events);
    var (s, o) := Run(cfg, INIT, NOTHING, events);
    assert TaskFits(cfg, s, t);
    assert c in s.closes && PlaceExact(cfg, s, o, c);
    var seen, left := SeenOf(o, c), HasLeft(s.closes[c]);
    var kept := if Takes(cfg, seen, c, room) then other else room;
    assert Keeps(cfg, s, c, left, seen, if kept == room then t else u, kept);
    assert IsKept(cfg, s, c, left, seen, kept);
    assert (kept, cfg.loopOf(c), c) in s.members;
  }

  // ----- operations that nobody interrupts ---------------------------------------------------------------------------

  lemma {:induction false} RunsConcatenate(cfg: Config, s: State, o: Observer, a: seq<Event>, b: seq<Event>)
    requires AllEnabled(cfg, s, a)
    requires var (t, p) := Run(cfg, s, o, a); AllEnabled(cfg, t, b)
    ensures AllEnabled(cfg, s, a + b)
    ensures var (t, p) := Run(cfg, s, o, a); Run(cfg, s, o, a + b) == Run(cfg, t, p, b)
    decreases |a|
  {
    hide Step, Observe, Enabled;
    if a == [] {
      assert a + b == b;
    } else {
      assert (a + b)[1..] == a[1..] + b;
      RunsConcatenate(cfg, Step(cfg, s, a[0]), Observe(cfg, s, o, a[0]), a[1..], b);
    }
  }

  lemma RunOne(cfg: Config, s: State, o: Observer, e: Event)
    requires Enabled(s, e)
    ensures AllEnabled(cfg, s, [e]) && Run(cfg, s, o, [e]) == (Step(cfg, s, e), Observe(cfg, s, o, e))
  {
    assert [e][1..] == [];
  }

  /** From s a run leads to t. */
  ghost predicate Leads(cfg: Config, s: State, t: State) {
    exists events :: LeadsBy(cfg, s, t, events)
  }

  ghost predicate LeadsBy(cfg: Config, s: State, t: State, events: seq<Event>) {
    AllEnabled(cfg, s, events) && Run(cfg, s, NOTHING, events).0 == t
  }

  lemma LeadsItself(cfg: Config, s: State)
    ensures Leads(cfg, s, s)
  {
    assert LeadsBy(cfg, s, s, []);
  }

  lemma {:induction false} ObserversDoNotMatter(cfg: Config, s: State, o: Observer, p: Observer, events: seq<Event>)
    requires AllEnabled(cfg, s, events)
    ensures Run(cfg, s, o, events).0 == Run(cfg, s, p, events).0
    decreases |events|
  {
    hide Step, Observe, Enabled;
    if events == [] {
    } else {
      var e := events[0];
      ObserversDoNotMatter(cfg, Step(cfg, s, e), Observe(cfg, s, o, e), Observe(cfg, s, p, e), events[1..]);
    }
  }

  lemma LeadsOn(cfg: Config, s: State, t: State, e: Event)
    requires Leads(cfg, s, t) && Enabled(t, e)
    ensures Leads(cfg, s, Step(cfg, t, e))
  {
    hide Step, Observe, Enabled;
    var events :| LeadsBy(cfg, s, t, events);
    RunOne(cfg, t, Run(cfg, s, NOTHING, events).1, e);
    RunsConcatenate(cfg, s, NOTHING, events, [e]);
    assert LeadsBy(cfg, s, Step(cfg, t, e), events + [e]);
  }

  /** What a whole join leaves behind. */
  function Joined(cfg: Config, s: State, c: ConnId, user: int, room: int, token: string): State {
    if Refusal(cfg, s.userConnCount, user, room, token).Some? then s
    else
      var loop := cfg.loopOf(c);
      State(s.ctxs[c := Ctx(user, room, loop)], s.closes, Incremented(cfg.maxConnsPerUser, s.userConnCount, user).0,
            if ValidKey(cfg.loopCount, room, loop, c) then s.members + {(room, loop, c)} else s.members,
            s.tasks + [Task(c, user, room, Done(room))])
  }

  /** A join that nobody interrupts: its steps amount to the whole. */
  lemma JoinAlone(cfg: Config, start: State, s: State, c: ConnId, user: int, room: int, token: string)
    requires Leads(cfg, start, s) && c in s.ctxs
    ensures Leads(cfg, start, Joined(cfg, s, c, user, room, token))
  {
    hide Leads, Refusal, Incremented;
    var join := Join(c, user, room, token);
    LeadsOn(cfg, start, s, join);
    if Accepted(cfg, s, join) {
      var t, n := Step(cfg, s, join), |s.tasks|;
      assert t.tasks[n] == Task(c, user, room, Counted);
      FinishJoin(cfg, start, t, n);
      assert t.tasks[n := Task(c, user, room, Done(room))] == s.tasks + [Task(c, user, room, Done(room))];
    }
  }

  lemma FinishJoin(cfg: Config, start: State, s: State, n: nat)
    requires Leads(cfg, start, s) && n < |s.tasks| && s.tasks[n].pc.Counted? && s.tasks[n].c in s.ctxs
    ensures var task, loop := s.tasks[n], cfg.loopOf(s.tasks[n].c);
      Leads(cfg, start,
            s.(ctxs := s.ctxs[task.c := Ctx(task.user, task.room, loop)],
               members := if ValidKey(cfg.loopCount, task.room, loop, task.c)
                          then s.members + {(task.room, loop, task.c)} else s.members,
               tasks := s.tasks[n := task.(pc := Done(task.room))]))
  {
    hide Leads;
    var s1 := Advance(cfg, start, s, n);
    var s2 := Advance(cfg, start, s1, n);
    var s3 := Advance(cfg, start, s2, n);
    var s4 := Advance(cfg, start, s3, n);
    var s5 := Advance(cfg, start, s4, n);
    var s6 := Advance(cfg, start, s5, n);
    var task := s.tasks[n];
    assert s6.tasks == s.tasks[n := task.(pc := Done(task.room))];
    assert s6.ctxs == s.ctxs[task.c := Ctx(task.user, task.room, cfg.loopOf(task.c))];
  }

  lemma Advance(cfg: Config, start: State, s: State, n: nat) returns (t: State)
    requires Leads(cfg, start, s) && Enabled(s, Work(n))
    ensures t == Step(cfg, s, Work(n)) && Leads(cfg, start, t)
  {
    hide Leads;
    LeadsOn(cfg, start, s, Work(n));
    t := Step(cfg, s, Work(n));
  }

  /** What a whole close leaves behind. */
  function Left(cfg: Config, s: State, c: ConnId): State
    requires c in s.ctxs
  {
    var ctx := s.ctxs[c];
    var closed := s.(closes := s.closes[c := Closed]);
    if FindsRoom(ctx)
    then closed.(members := s.members - {(ctx.room, ctx.loop, c)},
                 userConnCount := Decremented(s.userConnCount, ctx.user))
    else closed
  }

  /** A close that nobody interrupts. */
  lemma CloseAlone(cfg: Config, start: State, s: State, c: ConnId)
    requires Leads(cfg, start, s) && Enabled(s, Close(c))
    ensures Leads(cfg, start, Left(cfg, s, c))
  {
    hide Leads;
    LeadsOn(cfg, start, s, Close(c));
    if FindsRoom(s.ctxs[c]) {
      var s1 := Step(cfg, s, Close(c));
      LeadsOn(cfg, start, s1, Leave(c));
      var s2 := Step(cfg, s1, Leave(c));
      LeadsOn(cfg, start, s2, Leave(c));
      var s3 := Step(cfg, s2, Leave(c));
      LeadsOn(cfg, start, s3, Leave(c));
      var s4 := Step(cfg, s3, Leave(c));
      LeadsOn(cfg, start, s4, Leave(c));
      var s5 := Step(cfg, s4, Leave(c));
      LeadsOn(cfg, start, s5, Leave(c));
      assert Step(cfg, s5, Leave(c)).closes == s.closes[c := Closed];
    }
  }

  // ----- what goes wrong ----------------------------------------------------------------------------------------

  /** No token, nobody banned, five connections a user, one loop. */
  const PLAIN := Config("", [], 5, 1, (c: ConnId) => 0)

  const OPENED := State(map["a" := Ctx(0, 0, 0)], map["a" := NotClosing], map[], {}, [])

  lemma OpenedIsReached()
    ensures Leads(PLAIN, INIT, OPENED)
  {
    hide Leads;
    LeadsItself(PLAIN, INIT);
    LeadsOn(PLAIN, INIT, INIT, Open("a"));
  }

  /** Two whole joins and a whole close: the first room keeps the connection, and the user a slot. */
  lemma SecondJoinLeaks()
    ensures exists s ::
      && Leads(PLAIN, INIT, s) && AtRest(s) && s.closes == map["a" := Closed]
      && (1, 0, "a") in s.members && CountOf(s.userConnCount, 1) == 1
  {
    hide Leads;
    OpenedIsReached();
    JoinAlone(PLAIN, INIT, OPENED, "a", 1, 1, "");
    var s1 := Joined(PLAIN, OPENED, "a", 1, 1, "");
    assert s1.userConnCount == map[1 := 1] && s1.members == {(1, 0, "a")};
    JoinAlone(PLAIN, INIT, s1, "a", 1, 2, "");
    var s2 := Joined(PLAIN, s1, "a", 1, 2, "");
    CloseAlone(PLAIN, INIT, s2, "a");
    var s3 := Left(PLAIN, s2, "a");
    assert s3.closes == map["a" := Closed];
  }

  /** A close between a join's write of the context and its entry to the room: the slot is given back, and the
      room keeps the connection. */
  lemma OvertakenJoinStays()
    ensures exists s ::
      && Leads(PLAIN, INIT, s) && AtRest(s) && s.closes == map["a" := Closed] && |s.tasks| == 1
      && (1, 0, "a") in s.members && CountOf(s.userConnCount, 1) == 0
  {
    hide Leads;
    var s1 := CountedJoin();
    var s2 := Advance(PLAIN, INIT, s1, 0);
    var s3 := Advance(PLAIN, INIT, s2, 0);
    var s4 := Advance(PLAIN, INIT, s3, 0);
    CloseAlone(PLAIN, INIT, s4, "a");
    var s5 := Left(PLAIN, s4, "a");
    var s6 := Advance(PLAIN, INIT, s5, 0);
    var s7 := Advance(PLAIN, INIT, s6, 0);
    var s8 := Advance(PLAIN, INIT, s7, 0);
    assert s8.closes == map["a" := Closed];
  }

  /** A close between a join's count and its write of the room: the slot is taken for ever, by a connection that
      joined once. */
  lemma UnnoticedJoinLeaks()
    ensures exists s ::
      && Leads(PLAIN, INIT, s) && AtRest(s) && s.closes == map["a" := Closed] && |s.tasks| == 1
      && CountOf(s.userConnCount, 1) == 1
  {
    hide Leads;
    var s1 := CountedJoin();
    CloseAlone(PLAIN, INIT, s1, "a");
    var s2 := Left(PLAIN, s1, "a");
    FinishJoin(PLAIN, INIT, s2, 0);
  }

  /** Two loops, and every connection on the second. */
  const SECOND_LOOP := Config("", [], 5, 2, (c: ConnId) => 1)

  /** Some run from the beginning leaves this state and this record of it. */
  ghost predicate Reached(cfg: Config, s: State, o: Observer) {
    exists events :: ReachedBy(cfg, s, o, events)
  }

  ghost predicate ReachedBy(cfg: Config, s: State, o: Observer, events: seq<Event>) {
    AllEnabled(cfg, INIT, events) && Run(cfg, INIT, NOTHING, events) == (s, o)
  }

  lemma Goes(cfg: Config, s: State, o: Observer, e: Event) returns (t: State, p: Observer)
    requires Reached(cfg, s, o) && Enabled(s, e)
    ensures t == Step(cfg, s, e) && p == Observe(cfg, s, o, e) && Reached(cfg, t, p)
  {
    hide Step, Observe, Enabled;
    var events :| ReachedBy(cfg, s, o, events);
    RunOne(cfg, s, o, e);
    RunsConcatenate(cfg, INIT, NOTHING, events, [e]);
    t, p := Step(cfg, s, e), Observe(cfg, s, o, e);
    assert ReachedBy(cfg, t, p, events + [e]);
  }

  /** A close that reads the loop before the join has written it, and leaves after the join is done: it looks on
      loop 0 and finds nothing. The slot is given back, and the room keeps a connection that joined once and left no
      join in hand. */
  lemma MisreadLoopStays()
    ensures exists s, o ::
      && Reached(SECOND_LOOP, s, o) && AtRest(s) && Over(s, "a") && |s.tasks| == 1 && SeenOf(o, "a").unfinished == {}
      && (1, 1, "a") in s.members && CountOf(s.userConnCount, 1) == 0
  {
    hide Reached, InHand, LoopWriters;
    ReachedAtOnce(SECOND_LOOP);
    var s, o := Goes(SECOND_LOOP, INIT, NOTHING, Open("a"));
    s, o := Goes(SECOND_LOOP, s, o, Join("a", 1, 1, ""));
    s, o := Goes(SECOND_LOOP, s, o, Work(0));
    s, o := Goes(SECOND_LOOP, s, o, Work(0));
    s, o := Goes(SECOND_LOOP, s, o, Close("a"));
    s, o := Goes(SECOND_LOOP, s, o, Leave("a"));
    s, o := Goes(SECOND_LOOP, s, o, Leave("a"));
    assert s.closes["a"] == Removing(1, 0) && s.tasks == [Task("a", 1, 1, RoomSet)] && s.members == {};
    assert s.userConnCount == map[1 := 1] && s.ctxs["a"].user == 1 && s.ctxs["a"].room == 1;
    FinishMisread(s, o);
  }

  lemma ReachedAtOnce(cfg: Config)
    ensures Reached(cfg, INIT, NOTHING)
  {
    assert ReachedBy(cfg, INIT, NOTHING, []);
  }

  lemma FinishMisread(start: State, record: Observer)
    requires Reached(SECOND_LOOP, start, record)
    requires start.ctxs.Keys == start.closes.Keys == {"a"}
    requires start.closes["a"] == Removing(1, 0) && start.tasks == [Task("a", 1, 1, RoomSet)] && start.members == {}
    requires start.userConnCount == map[1 := 1] && start.ctxs["a"].user == 1 && start.ctxs["a"].room == 1
    ensures exists s, o ::
      && Reached(SECOND_LOOP, s, o) && AtRest(s) && Over(s, "a") && |s.tasks| == 1 && SeenOf(o, "a").unfinished == {}
      && (1, 1, "a") in s.members && CountOf(s.userConnCount, 1) == 0
  {
    hide Reached, LoopWriters, InHand;
    var s, o := JoinBesideRemoval(start, record);
    NobodyInHand(s);
    s, o := Goes(SECOND_LOOP, s, o, Leave("a"));
    assert SeenOf(o, "a").unfinished == {} && s.members == {(1, 1, "a")};
    s, o := Goes(SECOND_LOOP, s, o, Leave("a"));
    s, o := Goes(SECOND_LOOP, s, o, Leave("a"));
    NobodyInHand(s);
  }

  lemma NobodyInHand(s: State)
    requires s.tasks == [Task("a", 1, 1, Done(1))]
    ensures InHand(s, "a") == {}
  {
  }

  /** The join goes on while the close holds what it has read. */
  lemma JoinBesideRemoval(start: State, record: Observer) returns (s: State, o: Observer)
    requires Reached(SECOND_LOOP, start, record)
    requires start.ctxs.Keys == start.closes.Keys == {"a"}
    requires start.closes["a"] == Removing(1, 0) && start.tasks == [Task("a", 1, 1, RoomSet)] && start.members == {}
    requires start.ctxs["a"].user == 1 && start.ctxs["a"].room == 1
    ensures Reached(SECOND_LOOP, s, o) && s.ctxs.Keys == {"a"} && s.ctxs["a"].user == 1
    ensures s.closes == start.closes && s.userConnCount == start.userConnCount
    ensures s.tasks == [Task("a", 1, 1, Done(1))] && s.members == {(1, 1, "a")}
  {
    hide Reached, LoopWriters, InHand, SeenAfter, PayeeAfter, HolderAfter;
    s, o := Goes(SECOND_LOOP, start, record, Work(0));
    s, o := Goes(SECOND_LOOP, s, o, Work(0));
    assert s.tasks == [Task("a", 1, 1, RoomRead(1))];
    s, o := Goes(SECOND_LOOP, s, o, Work(0));
    s, o := Goes(SECOND_LOOP, s, o, Work(0));
  }

  lemma CountedJoin() returns (s: State)
    ensures Leads(PLAIN, INIT, s)
    ensures s == OPENED.(userConnCount := map[1 := 1], tasks := [Task("a", 1, 1, Counted)])
  {
    hide Leads;
    OpenedIsReached();
    LeadsOn(PLAIN, INIT, OPENED, Join("a", 1, 1, ""));
    s := Step(PLAIN, OPENED, Join("a", 1, 1, ""));
  }

  // ----- the imperative code ----------------------------------------------------------------------------------

  /** The application's maps, with the room manager represented by its flat membership. Each method is run by
      itself here; Joined and Left are what its steps amount to then. */
  class App {
    const cfg: Config
    var ctxs: map<ConnId, Ctx>
    var userConnCount: map<int, int>
    var members: set<Member>
    ghost var closes: map<ConnId, ClosePc>
    ghost var tasks: seq<Task>

    ghost function View(): State
      reads this
    {
      State(ctxs, closes, userConnCount, members, tasks)
    }

    constructor (cfg: Config)
      ensures this.cfg == cfg && View() == INIT
    {
      this.cfg := cfg;
      ctxs, userConnCount, members := map[], map[], {};
      closes, tasks := map[], [];
    }

    method AddUserConn(user: int) returns (ok: bool)
      modifies `userConnCount
      ensures (userConnCount, ok) == Incremented(cfg.maxConnsPerUser, old(userConnCount), user)
      ensures var count := if user in old(userConnCount) then old(userConnCount)[user] else 0;
        && (ok <==> count < cfg.maxConnsPerUser)
        && userConnCount == if ok then old(userConnCount)[user := count + 1] else old(userConnCount)
    {
      var count := (if user in userConnCount then userConnCount[user] else 0) + 1;
      if count > cfg.maxConnsPerUser {
        return false;
      }
      userConnCount := userConnCount[user := count];
      return true;
    }

    method RemoveUserConn(user: int)
      modifies `userConnCount
      ensures userConnCount == Decremented(old(userConnCount), user)
      ensures var count := if user in old(userConnCount) then old(userConnCount)[user] else 0;
        userConnCount == if count > 1 then old(userConnCount)[user := count - 1] else old(userConnCount) - {user}
    {
      var count := (if user in userConnCount then userConnCount[user] else 0) - 1;
      if count > 0 {
        userConnCount := userConnCount[user := count];
      } else {
        userConnCount := userConnCount - {user};
      }
    }

    method IsUserBanned(user: int) returns (banned: bool)
      ensures banned <==> user in cfg.bannedUsers
    {
      for i := 0 to |cfg.bannedUsers|
        invariant user !in cfg.bannedUsers[..i]
      {
        if cfg.bannedUsers[i] == user {
          return true;
        }
      }
      assert cfg.bannedUsers[..|cfg.bannedUsers|] == cfg.bannedUsers;
      return false;
    }

    method OnOpen(c: ConnId)
      requires Enabled(View(), Open(c))
      modifies this
      ensures View() == Step(cfg, old(View()), Open(c))
      ensures ctxs == old(ctxs)[c := Ctx(0, 0, 0)]
    {
      ctxs := ctxs[c := Ctx(0, 0, 0)];
      closes := closes[c := NotClosing];
    }

    /** handleJoinRoom; the error is the code of the message sent back. */
    method HandleJoinRoom(c: ConnId, user: int, room: int, token: string) returns (error: Option<int>)
      requires c in ctxs
      modifies this
      ensures View() == Joined(cfg, old(View()), c, user, room, token)
      ensures error == Refusal(cfg, old(userConnCount), user, room, token)
      ensures error == Some(401) <==> cfg.authToken != "" && token != cfg.authToken
      ensures error == Some(403) <==>
        (cfg.authToken == "" || token == cfg.authToken) && (user <= 0 || user in cfg.bannedUsers)
      ensures error.Some? ==> ctxs == old(ctxs) && userConnCount == old(userConnCount) && members == old(members)
      ensures error.None? ==>
        && user > 0 && user !in cfg.bannedUsers && room > 0
        && ctxs == old(ctxs)[c := Ctx(user, room, cfg.loopOf(c))]
        && members == if c != "" && 0 <= cfg.loopOf(c) < cfg.loopCount
                      then old(members) + {(room, cfg.loopOf(c), c)} else old(members)
    {
      RefusalByCause(cfg, userConnCount, user, room, token);
      if cfg.authToken != "" && token != cfg.authToken {
        return Some(401);
      }
      if user <= 0 {
        return Some(403);
      }
      var banned := IsUserBanned(user);
      if banned {
        return Some(403);
      }
      if room <= 0 {
        return Some(404);
      }
      var ok := AddUserConn(user);
      if !ok {
        return Some(429);
      }
      ctxs := ctxs[c := ctxs[c].(user := user)];
      ctxs := ctxs[c := ctxs[c].(room := room)];
      ctxs := ctxs[c := ctxs[c].(loop := cfg.loopOf(c))];
      if ValidKey(cfg.loopCount, ctxs[c].room, ctxs[c].loop, c) {
        members := members + {(ctxs[c].room, ctxs[c].loop, c)};
      }
      tasks := tasks + [Task(c, user, room, Done(room))];
      assert ctxs == old(ctxs)[c := Ctx(user, room, cfg.loopOf(c))];
      return None;
    }

    method OnClose(c: ConnId)
      requires Enabled(View(), Close(c))
      modifies this
      ensures View() == Left(cfg, old(View()), c)
      ensures var Ctx(user, room, loop) := old(ctxs)[c];
        && ctxs == old(ctxs)
        && members == (if room > 0 && user > 0 then old(members) - {(room, loop, c)} else old(members))
        && userConnCount ==
             if room <= 0 || user <= 0 then old(userConnCount)
             else if user in old(userConnCount) && old(userConnCount)[user] > 1
             then old(userConnCount)[user := old(userConnCount)[user] - 1]
             else old(userConnCount) - {user}
    {
      if ctxs[c].room > 0 && ctxs[c].user > 0 {
        members := members - {(ctxs[c].room, ctxs[c].loop, c)};
        RemoveUserConn(ctxs[c].user);
      }
      closes := closes[c := Closed];
    }
  }
}
