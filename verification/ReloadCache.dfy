/** internal/filter/reloadable_filter.go: the word list of a file, cached under the file's modification time
    and size. The file may change between any two system calls of a load. */
module ReloadCache {
  import opened Collections

  type Words = seq<string>

  datatype Key = Key(modTime: int, size: int)

  /** The key of a filter that has loaded nothing yet: the zero time and size 0. */
  const ZERO_KEY := Key(0, 0)

  /** One state of the file. A present file without words is one that LoadWordsFromFile cannot read. */
  datatype Version = Absent | Present(key: Key, words: Option<Words>)

  /** How the last poll or load ended. */
  datatype Verdict = Nothing | Unchanged | Loaded | Missing | Failed

  /** Where the holder of f.mu is: each phase but Idle ends with one system call. */
  datatype Phase =
    | Idle(verdict: Verdict)
    | PollStat                // reloadIfChanged: os.Stat
    | LoadStat(force: bool)   // loadLocked: os.Stat
    | Read(key: Key)          // loadLocked: LoadWordsFromFile, with the key of the stat before it

  /** The file's versions so far, the latest last, and the fields of the filter. */
  datatype State = State(hist: seq<Version>, words: Words, lastKey: Key, phase: Phase)

  datatype Event =
    | Change(v: Version)      // someone else replaces, rewrites or removes the file
    | StartPoll               // reloadIfChanged; waits while another caller holds f.mu
    | StartLoad               // LoadNow; likewise
    | Proceed                 // the system call that is due succeeds, or finds no file
    | Fail                    // it fails for any other reason

  function Init(v: Version, fallback: Words): State {
    State([v], fallback, ZERO_KEY, Idle(Nothing))
  }

  function File(s: State): Version
    requires s.hist != []
  {
    s.hist[|s.hist| - 1]
  }

  function Next(s: State, e: Event): (s': State)
    requires s.hist != []
    ensures s.hist <= s'.hist
  {
    match e
    case Change(v) => s.(hist := s.hist + [v])
    case StartPoll => if s.phase.Idle? then s.(phase := PollStat) else s
    case StartLoad => if s.phase.Idle? then s.(phase := LoadStat(true)) else s
    case Fail => if s.phase.Idle? then s else s.(phase := Idle(Failed))
    case Proceed =>
      var file := File(s);
      match s.phase
      case Idle(_) => s
      case PollStat =>
        if file.Absent? then s.(phase := Idle(Missing))
        else if file.key == s.lastKey then s.(phase := Idle(Unchanged))
        else s.(phase := LoadStat(false))
      case LoadStat(force) =>
        if file.Absent? then s.(phase := Idle(Failed))
        else if !force && file.key == s.lastKey then s.(phase := Idle(Unchanged))
        else s.(phase := Read(file.key))
      case Read(key) =>
        if file.Absent? || file.words.None? then s.(phase := Idle(Failed))
        else s.(words := file.words.value, lastKey := key, phase := Idle(Loaded))
  }

  function Exec(s: State, es: seq<Event>): (s': State)
    requires s.hist != []
    ensures s.hist <= s'.hist
    decreases es
  {
    if es == [] then s else Exec(Next(s, es[0]), es[1..])
  }

  // ----- when the cache can go stale ----------------------------------------------------------------------

  /** A load whose stat saw version i and whose read saw version j leaves the filter with another list than
      version k has, under version k's key. */
  predicate Confuses(h: seq<Version>, i: int, j: int, k: int)
    requires 0 <= i <= j <= k < |h|
  {
    && h[i].Present? && h[j].Present? && h[k].Present?
    && h[i].key == h[k].key
    && h[j].words.Some? && h[j].words != h[k].words
  }

  /** Version k has the key of a filter that never loaded, but not its list. */
  predicate LooksUnloaded(h: seq<Version>, fallback: Words, k: int)
    requires 0 <= k < |h|
  {
    h[k].Present? && h[k].key == ZERO_KEY && h[k].words != Some(fallback)
  }

  ghost predicate Hazard(h: seq<Version>, fallback: Words) {
    || (exists k | 0 <= k < |h| :: LooksUnloaded(h, fallback, k))
    || (exists i, j, k | 0 <= i <= j <= k < |h| :: Confuses(h, i, j, k))
  }

  /** Where the cached list and its key come from. */
  ghost predicate Sourced(s: State, fallback: Words) {
    || (s.words == fallback && s.lastKey == ZERO_KEY)
    || exists i, j | 0 <= i <= j < |s.hist| :: LoadedFrom(s, i, j)
  }

  ghost predicate LoadedFrom(s: State, i: int, j: int)
    requires 0 <= i <= j < |s.hist|
  {
    && s.hist[i].Present? && s.hist[i].key == s.lastKey
    && s.hist[j].Present? && s.hist[j].words == Some(s.words)
  }

  ghost predicate Seen(h: seq<Version>, key: Key) {
    exists i | 0 <= i < |h| :: h[i].Present? && h[i].key == key
  }

  ghost predicate Inv(s: State, fallback: Words) {
    s.hist != [] && Sourced(s, fallback) && (s.phase.Read? ==> Seen(s.hist, s.phase.key))
  }

  lemma NextKeepsInv(s: State, e: Event, fallback: Words)
    requires Inv(s, fallback)
    ensures Inv(Next(s, e), fallback)
  {
    var s' := Next(s, e);
    var n := |s.hist| - 1;
    if s.phase.Read? {
      var i :| 0 <= i < |s.hist| && s.hist[i].Present? && s.hist[i].key == s.phase.key;
      assert s'.hist[i] == s.hist[i];
      if s'.phase == Idle(Loaded) {
        assert LoadedFrom(s', i, n);
      }
    }
    if s'.words == s.words && s'.lastKey == s.lastKey && !(s.words == fallback && s.lastKey == ZERO_KEY) {
      var i, j :| 0 <= i <= j < |s.hist| && LoadedFrom(s, i, j);
      assert LoadedFrom(s', i, j);
    }
    if s'.phase.Read? && !s.phase.Read? {
      assert s'.hist[n].Present? && s'.hist[n].key == s'.phase.key;
    }
  }

  lemma {:induction false} ExecKeepsInv(s: State, es: seq<Event>, fallback: Words)
    requires Inv(s, fallback)
    ensures Inv(Exec(s, es), fallback)
    decreases es
  {
    if es == [] {
    } else {
      NextKeepsInv(s, es[0], fallback);
      ExecKeepsInv(Next(s, es[0]), es[1..], fallback);
    }
  }

  /** Some run over a prefix of the history has a poll find the stat unchanged under a stale list. */
  ghost predicate GoesStale(h: seq<Version>, fallback: Words)
    requires h != []
  {
    exists es :: StaleRun(h, fallback, es)
  }

  ghost predicate StaleRun(h: seq<Version>, fallback: Words, es: seq<Event>)
    requires h != []
  {
    var s := Exec(Init(h[0], fallback), es);
    s.hist <= h && FindsUnchanged(s) && !Current(s)
  }

  /** The next system call reports an unchanged file. */
  predicate FindsUnchanged(s: State)
    requires s.hist != []
  {
    !s.phase.Idle? && Next(s, Proceed).phase == Idle(Unchanged)
  }

  predicate Current(s: State)
    requires s.hist != []
  {
    File(s).Present? && File(s).words == Some(s.words)
  }

  /** Without a hazard in the file's history, an unchanged stat means the active list is the file's. */
  lemma UnchangedMeansCurrent(v: Version, fallback: Words, es: seq<Event>)
    ensures var s := Exec(Init(v, fallback), es);
      FindsUnchanged(s) && !Hazard(s.hist, fallback) ==> Current(s)
  {
    ExecKeepsInv(Init(v, fallback), es, fallback);
    var s := Exec(Init(v, fallback), es);
    if FindsUnchanged(s) && !Current(s) {
      var k := |s.hist| - 1;
      if s.words == fallback && s.lastKey == ZERO_KEY {
        assert LooksUnloaded(s.hist, fallback, k);
      } else {
        var i, j :| 0 <= i <= j < |s.hist| && LoadedFrom(s, i, j);
        assert Confuses(s.hist, i, j, k);
      }
    }
  }

  lemma HazardGrows(h: seq<Version>, h': seq<Version>, fallback: Words)
    requires h <= h' && Hazard(h, fallback)
    ensures Hazard(h', fallback)
  {
    if k :| 0 <= k < |h| && LooksUnloaded(h, fallback, k) {
      assert LooksUnloaded(h', fallback, k);
    } else {
      var i, j, k :| 0 <= i <= j <= k < |h| && Confuses(h, i, j, k);
      assert Confuses(h', i, j, k);
    }
  }

  // ----- every hazard can happen --------------------------------------------------------------------------

  function Changes(vs: seq<Version>): seq<Event> {
    if vs == [] then [] else [Change(vs[0])] + Changes(vs[1..])
  }

  lemma {:induction false} ExecAppend(s: State, a: seq<Event>, b: seq<Event>)
    requires s.hist != []
    ensures Exec(s, a + b) == Exec(Exec(s, a), b)
    decreases a
  {
    if a == [] {
      assert a + b == b;
    } else {
      assert (a + b)[1..] == a[1..] + b;
      ExecAppend(Next(s, a[0]), a[1..], b);
    }
  }

  lemma {:induction false} ExecChanges(s: State, vs: seq<Version>)
    requires s.hist != []
    ensures Exec(s, Changes(vs)) == s.(hist := s.hist + vs)
    decreases vs
  {
    if vs == [] {
      assert s.hist + vs == s.hist;
    } else {
      ExecChanges(Next(s, Change(vs[0])), vs[1..]);
      assert s.hist + [vs[0]] + vs[1..] == s.hist + vs;
      assert Changes(vs)[1..] == Changes(vs[1..]);
    }
  }

  lemma ExecOne(s: State, e: Event)
    requires s.hist != []
    ensures Exec(s, [e]) == Next(s, e)
  {
    assert [e][1..] == [];
  }

  /** The run that lets the file reach version k from version m, then takes one step. */
  lemma Advance(h: seq<Version>, s: State, m: int, k: int, e: Event)
    requires 0 <= m <= k < |h| && s.hist == h[..m + 1]
    ensures Exec(s, Changes(h[m + 1..k + 1]) + [e]) == Next(s.(hist := h[..k + 1]), e)
  {
    hide Exec, Changes, Next;
    var vs := h[m + 1..k + 1];
    ExecAppend(s, Changes(vs), [e]);
    ExecChanges(s, vs);
    assert s.hist + vs == h[..k + 1];
    ExecOne(s.(hist := h[..k + 1]), e);
  }

  lemma UnloadedGoesStale(h: seq<Version>, fallback: Words, k: int)
    requires 0 <= k < |h| && LooksUnloaded(h, fallback, k)
    ensures GoesStale(h, fallback)
  {
    hide Exec, Changes;
    var es := Changes(h[1..k + 1]) + [StartPoll];
    Advance(h, Init(h[0], fallback), 0, k, StartPoll);
    assert StaleRun(h, fallback, es);
  }

  /** A forced load whose stat meets version i and whose read meets version j. */
  lemma LoadAcross(h: seq<Version>, fallback: Words, i: int, j: int) returns (es: seq<Event>)
    requires 0 <= i <= j < |h| && h[i].Present? && h[j].Present? && h[j].words.Some?
    ensures Exec(Init(h[0], fallback), es) == State(h[..j + 1], h[j].words.value, h[i].key, Idle(Loaded))
  {
    hide Exec, Changes;
    var s0 := Init(h[0], fallback);
    var a, b, c := Changes(h[1..i + 1]) + [StartLoad], [Proceed], Changes(h[i + 1..j + 1]) + [Proceed];
    Advance(h, s0, 0, i, StartLoad);
    var s1 := State(h[..i + 1], fallback, ZERO_KEY, LoadStat(true));
    ExecOne(s1, Proceed);
    var s2 := s1.(phase := Read(h[i].key));
    Advance(h, s2, i, j, Proceed);
    ExecAppend(s0, a, b);
    ExecAppend(s0, a + b, c);
    es := a + b + c;
  }

  lemma ConfusionGoesStale(h: seq<Version>, fallback: Words, i: int, j: int, k: int)
    requires 0 <= i <= j <= k < |h| && Confuses(h, i, j, k)
    ensures GoesStale(h, fallback)
  {
    hide Exec, Changes;
    var es := LoadAcross(h, fallback, i, j);
    var s := State(h[..j + 1], h[j].words.value, h[i].key, Idle(Loaded));
    var poll := Changes(h[j + 1..k + 1]) + [StartPoll];
    Advance(h, s, j, k, StartPoll);
    ExecAppend(Init(h[0], fallback), es, poll);
    assert StaleRun(h, fallback, es + poll);
  }

  /** Exactly the histories with a hazard can leave a stale list behind an unchanged stat. */
  lemma StaleIffHazard(h: seq<Version>, fallback: Words)
    requires h != []
    ensures GoesStale(h, fallback) <==> Hazard(h, fallback)
  {
    hide Exec;
    if Hazard(h, fallback) {
      if k :| 0 <= k < |h| && LooksUnloaded(h, fallback, k) {
        UnloadedGoesStale(h, fallback, k);
      } else {
        var i, j, k :| 0 <= i <= j <= k < |h| && Confuses(h, i, j, k);
        ConfusionGoesStale(h, fallback, i, j, k);
      }
    }
    if GoesStale(h, fallback) {
      var es :| StaleRun(h, fallback, es);
      UnchangedMeansCurrent(h[0], fallback, es);
      HazardGrows(Exec(Init(h[0], fallback), es).hist, h, fallback);
    }
  }

  /** If modification time and size identify a stretch of one version, and none has the zero key, no run goes
      stale: positions with equal keys enclose only that version. */
  lemma IdentifyingKeysAreSafe(h: seq<Version>, fallback: Words)
    requires h != []
    requires forall i, m, j | 0 <= i <= m <= j < |h| && SameKey(h, i, j) :: h[m] == h[i]
    requires forall i | 0 <= i < |h| && h[i].Present? :: h[i].key != ZERO_KEY
    ensures !GoesStale(h, fallback)
  {
    StaleIffHazard(h, fallback);
    forall i, j, k | 0 <= i <= j <= k < |h|
      ensures !Confuses(h, i, j, k)
    {
      assert SameKey(h, i, k) ==> h[j] == h[i] && h[k] == h[i];
    }
  }

  predicate SameKey(h: seq<Version>, i: int, j: int)
    requires 0 <= i < |h| && 0 <= j < |h|
  {
    h[i].Present? && h[j].Present? && h[i].key == h[j].key
  }

  /** That the key determines the words is not enough: a file that is replaced between stat and read, and then
      put back with its old time, keeps the replacement's words active. */
  lemma KeysForContentAreNotEnough()
    ensures var a, b := Present(Key(1, 5), Some(["alpha"])), Present(Key(2, 4), Some(["beta"]));
      GoesStale([a, b, a], [])
  {
    var a, b := Present(Key(1, 5), Some(["alpha"])), Present(Key(2, 4), Some(["beta"]));
    assert Confuses([a, b, a], 0, 1, 2);
    ConfusionGoesStale([a, b, a], [], 0, 1, 2);
  }

  // ----- what a step may do ---------------------------------------------------------------------------------

  /** Only a read that succeeds touches the list and the key, and it makes the list the file's. */
  lemma OnlyReadsTouchTheCache(s: State, e: Event)
    requires s.hist != []
    ensures var s' := Next(s, e);
      (s'.words != s.words || s'.lastKey != s.lastKey) ==>
        e == Proceed && s.phase.Read? && Current(s') && s'.lastKey == s.phase.key
  {
  }

  const UNDISTURBED_POLL := [StartPoll, Proceed, Proceed, Proceed]

  /** One poll that nothing disturbs brings the filter up to date with any readable file, except when the
      stat already looks unchanged; afterwards polls find it unchanged. */
  lemma UndisturbedPollCatchesUp(s: State)
    requires s.hist != [] && s.phase.Idle? && File(s).Present? && File(s).words.Some?
    ensures var s' := Exec(s, UNDISTURBED_POLL);
      && s'.phase.Idle? && s'.hist == s.hist && s'.lastKey == File(s).key
      && (Current(s') <==> (File(s).key == s.lastKey ==> Current(s)))
  {
    var s1 := Next(s, StartPoll);
    var s2 := Next(s1, Proceed);
    var s3 := Next(s2, Proceed);
    assert Exec(s, UNDISTURBED_POLL) == Exec(s1, [Proceed, Proceed, Proceed]);
    assert Exec(s1, [Proceed, Proceed, Proceed]) == Exec(s2, [Proceed, Proceed]);
    assert Exec(s2, [Proceed, Proceed]) == Exec(s3, [Proceed]);
    ExecOne(s3, Proceed);
  }

  // ----- the imperative code ----------------------------------------------------------------------------------

  /** What one system call meets: the file as it is then, and whether the call fails anyway. */
  datatype Look = Look(file: Version, fails: bool)

  function After(s: State, l: Look): State
    requires s.hist != []
  {
    Next(Next(s, Change(l.file)), if l.fails then Fail else Proceed)
  }

  class ReloadableFilter {
    const path: string
    var current: Words
    var lastModTime: int
    var lastFileSize: int

    ghost function Abstract(hist: seq<Version>, phase: Phase): State
      reads this
    {
      State(hist, current, Key(lastModTime, lastFileSize), phase)
    }

    constructor (path: string, fallbackWords: Words)
      ensures this.path == path
      ensures forall v :: Abstract([v], Idle(Nothing)) == Init(v, fallbackWords)
      ensures current == fallbackWords && lastModTime == 0 && lastFileSize == 0
    {
      this.path := path;
      current, lastModTime, lastFileSize := fallbackWords, 0, 0;
    }

    /** The system call meets a readable file. */
    static predicate Meets(l: Look) {
      !l.fails && l.file.Present?
    }

    /** The key of the last load is the one the stat shows. */
    predicate Same(l: Look)
      requires Meets(l)
      reads this
    {
      l.file.key.modTime == lastModTime && l.file.key.size == lastFileSize
    }

    /** With a new list taken, it is the one read, under the key of the stat; otherwise the old ones stay. */
    predicate Took(stat: Look, read: Look, taken: bool, words: Words, modTime: int, size: int)
      reads this
    {
      if taken then
        && Meets(stat) && Meets(read) && read.file.words == Some(current)
        && stat.file.key == Key(lastModTime, lastFileSize)
      else current == words && lastModTime == modTime && lastFileSize == size
    }

    /** LoadNow, with what its two system calls meet. */
    method LoadNow(stat: Look, read: Look, ghost hist: seq<Version>) returns (failed: bool)
      requires hist != []
      modifies this
      ensures path == "" ==> !failed && unchanged(this)
      ensures path != "" ==>
        var s := After(After(Next(old(Abstract(hist, Idle(Nothing))), StartLoad), stat), read);
        Abstract(s.hist, s.phase) == s && s.phase.Idle? && (failed <==> s.phase == Idle(Failed))
      ensures path != "" ==>
        && (failed <==> !Meets(stat) || !Meets(read) || read.file.words.None?)
        && Took(stat, read, path != "" && !failed, old(current), old(lastModTime), old(lastFileSize))
    {
      if path == "" {
        return false;
      }
      failed := LoadLocked(true, stat, read, hist);
    }

    /** reloadIfChanged, with what its up to three system calls meet. */
    method ReloadIfChanged(first: Look, stat: Look, read: Look, ghost hist: seq<Version>) returns (failed: bool)
      requires hist != []
      modifies this
      ensures var s := After(After(After(Next(old(Abstract(hist, Idle(Nothing))), StartPoll), first), stat), read);
        Abstract(s.hist, s.phase) == s && s.phase.Idle? && (failed <==> s.phase == Idle(Failed))
      ensures var looks := Meets(first) && !old(Same(first));
        && (failed <==>
             || first.fails
             || (looks && (!Meets(stat) || (!old(Same(stat)) && (!Meets(read) || read.file.words.None?)))))
        && Took(stat, read, looks && !failed && !old(Same(stat)), old(current), old(lastModTime), old(lastFileSize))
    {
      if first.fails {
        return true;
      }
      if first.file.Absent? {
        return false;
      }
      if first.file.key.modTime == lastModTime && first.file.key.size == lastFileSize {
        return false;
      }
      failed := LoadLocked(false, stat, read, hist + [first.file]);
    }

    method LoadLocked(force: bool, stat: Look, read: Look, ghost hist: seq<Version>) returns (failed: bool)
      requires hist != []
      modifies this
      ensures var s := After(After(old(Abstract(hist, LoadStat(force))), stat), read);
        Abstract(s.hist, s.phase) == s && s.phase.Idle? && (failed <==> s.phase == Idle(Failed))
      ensures var skips := Meets(stat) && !force && old(Same(stat));
        && (failed <==> !Meets(stat) || (!skips && (!Meets(read) || read.file.words.None?)))
        && Took(stat, read, !failed && !skips, old(current), old(lastModTime), old(lastFileSize))
    {
      if stat.fails || stat.file.Absent? {
        return true;
      }
      if !force && stat.file.key.modTime == lastModTime && stat.file.key.size == lastFileSize {
        return false;
      }
      if read.fails || read.file.Absent? || read.file.words.None? {
        return true;
      }
      current := read.file.words.value;
      lastModTime := stat.file.key.modTime;
      lastFileSize := stat.file.key.size;
      return false;
    }
  }
}
