/** internal/app/app.go: the per-user token bucket. Tokens only ever change by whole messages and whole
    seconds, so the float64 field userBucket.tokens holds integers and an integer model is exact. */
module RateLimiter {
  import opened Collections

  /** A user's bucket after some call. */
  datatype Bucket = Bucket(tokens: int, lastUpdate: int)

  datatype Limits = Limits(rate: int, capacity: int)

  function Min(a: int, b: int): int {
    if a < b then a else b
  }

  /** The tokens available to a call before it takes one. */
  function Refilled(l: Limits, b: Bucket, now: int): int {
    Min(b.tokens + (now - b.lastUpdate) * l.rate, l.capacity)
  }

  function AllowStep(l: Limits, b: Option<Bucket>, now: int): (Bucket, bool) {
    match b
    case None => (Bucket(l.capacity - 1, now), true)
    case Some(bucket) =>
      var tokens := Refilled(l, bucket, now);
      if tokens >= 1 then (Bucket(tokens - 1, now), true) else (Bucket(tokens, now), false)
  }

  // ----- one user's calls -----------------------------------------------------------------------------

  /** The bucket after the first n of the calls made at these times. */
  function BucketAfter(l: Limits, times: seq<int>, n: nat): Option<Bucket>
    requires n <= |times|
  {
    if n == 0 then None else Some(AllowStep(l, BucketAfter(l, times, n - 1), times[n - 1]).0)
  }

  /** The answer to call j. */
  predicate Allowed(l: Limits, times: seq<int>, j: nat)
    requires j < |times|
  {
    AllowStep(l, BucketAfter(l, times, j), times[j]).1
  }

  /** The messages allowed among calls i to j - 1. */
  function AllowedIn(l: Limits, times: seq<int>, i: nat, j: nat): nat
    requires i <= j <= |times|
    decreases j - i
  {
    if i == j then 0 else AllowedIn(l, times, i, j - 1) + if Allowed(l, times, j - 1) then 1 else 0
  }

  /** What the window from call i still has room for when call j arrives. */
  function Room(l: Limits, times: seq<int>, i: nat, j: nat): int
    requires i <= j < |times|
  {
    l.capacity + l.rate * (times[j] - times[i]) - AllowedIn(l, times, i, j)
  }

  ghost predicate Nondecreasing(times: seq<int>) {
    forall i, j | 0 <= i < j < |times| :: times[i] <= times[j]
  }

  /** The tokens call j finds: a first call finds a full bucket. */
  function Tokens(l: Limits, times: seq<int>, j: nat): int
    requires j < |times|
  {
    match BucketAfter(l, times, j)
    case None => l.capacity
    case Some(b) => Refilled(l, b, times[j])
  }

  lemma AllowedIffTokens(l: Limits, times: seq<int>, j: nat)
    requires j < |times| && l.capacity >= 1
    ensures Allowed(l, times, j) <==> Tokens(l, times, j) >= 1
    ensures BucketAfter(l, times, j + 1) ==
      Some(Bucket(Tokens(l, times, j) - if Allowed(l, times, j) then 1 else 0, times[j]))
  {
  }

  lemma TokensStep(l: Limits, times: seq<int>, j: nat)
    requires j + 1 < |times| && l.capacity >= 1
    ensures Tokens(l, times, j + 1) ==
      Min(Tokens(l, times, j) - (if Allowed(l, times, j) then 1 else 0) + (times[j + 1] - times[j]) * l.rate,
          l.capacity)
  {
    AllowedIffTokens(l, times, j);
  }

  lemma RoomStep(l: Limits, times: seq<int>, i: nat, j: nat)
    requires i <= j && j + 1 < |times|
    ensures Room(l, times, i, j + 1) ==
      Room(l, times, i, j) - (if Allowed(l, times, j) then 1 else 0) + (times[j + 1] - times[j]) * l.rate
  {
    hide Allowed;
    assert l.rate * (times[j + 1] - times[i]) == l.rate * (times[j] - times[i]) + (times[j + 1] - times[j]) * l.rate;
  }

  /** The tokens are the room of the tightest window ending now: never more than any window allows, and
      exactly what one of them allows. */
  lemma {:induction false} TokensAreTightestWindow(l: Limits, times: seq<int>, j: nat)
    requires l.capacity >= 1 && j < |times|
    ensures forall i | 0 <= i <= j :: Tokens(l, times, j) <= Room(l, times, i, j)
    ensures exists i | 0 <= i <= j :: Tokens(l, times, j) == Room(l, times, i, j)
  {
    hide Tokens, Allowed, Room;
    if j == 0 {
      FirstCall(l, times);
      assert Tokens(l, times, 0) == Room(l, times, 0, 0);
    } else {
      TokensAreTightestWindow(l, times, j - 1);
      TokensStep(l, times, j - 1);
      NewestWindow(l, times, j);
      forall i | 0 <= i < j
        ensures Tokens(l, times, j) <= Room(l, times, i, j)
      {
        RoomStep(l, times, i, j - 1);
      }
      var k :| 0 <= k <= j - 1 && Tokens(l, times, j - 1) == Room(l, times, k, j - 1);
      RoomStep(l, times, k, j - 1);
      assert Tokens(l, times, j) == Room(l, times, k, j) || Tokens(l, times, j) == Room(l, times, j, j);
    }
  }

  lemma FirstCall(l: Limits, times: seq<int>)
    requires |times| > 0
    ensures Tokens(l, times, 0) == l.capacity
    ensures Room(l, times, 0, 0) == l.capacity
  {
  }

  lemma NewestWindow(l: Limits, times: seq<int>, j: nat)
    requires j < |times|
    ensures Room(l, times, j, j) == l.capacity
  {
  }

  /** A message is denied if and only if some window ending now is already full. */
  lemma DeniedIffSomeWindowIsFull(l: Limits, times: seq<int>, j: nat)
    requires l.capacity >= 1 && j < |times|
    ensures !Allowed(l, times, j) <==> exists i | 0 <= i <= j :: Room(l, times, i, j) <= 0
  {
    hide Tokens, Allowed, Room;
    TokensAreTightestWindow(l, times, j);
    AllowedIffTokens(l, times, j);
  }

  /** In every window of calls the messages allowed are within capacity plus rate times the elapsed time. */
  lemma WindowBound(l: Limits, times: seq<int>, i: nat, j: nat)
    requires l.capacity >= 1 && l.rate >= 0 && Nondecreasing(times) && i <= j < |times|
    ensures WindowBounded(l, times, i, j)
  {
    hide Allowed;
    TokensAreTightestWindow(l, times, j);
    AllowedIffTokens(l, times, j);
    assert Tokens(l, times, j) <= Room(l, times, i, j);
    if !Allowed(l, times, j) {
      RoomNonNegative(l, times, i, j);
    }
  }

  lemma {:induction false} RoomNonNegative(l: Limits, times: seq<int>, i: nat, j: nat)
    requires l.capacity >= 1 && l.rate >= 0 && Nondecreasing(times) && i <= j < |times|
    ensures Room(l, times, i, j) >= 0
    decreases j - i
  {
    hide Allowed, Tokens, Room;
    if i == j {
      NewestWindow(l, times, j);
    } else {
      RoomNonNegative(l, times, i, j - 1);
      TokensAreTightestWindow(l, times, j - 1);
      AllowedIffTokens(l, times, j - 1);
      RoomStep(l, times, i, j - 1);
      assert Tokens(l, times, j - 1) <= Room(l, times, i, j - 1);
      RefillNonNegative(times[j] - times[j - 1], l.rate);
    }
  }

  lemma RefillNonNegative(elapsed: int, rate: int)
    requires elapsed >= 0 && rate >= 0
    ensures elapsed * rate >= 0
  {
  }

  predicate WindowBounded(l: Limits, times: seq<int>, i: nat, j: nat)
    requires i <= j < |times|
  {
    AllowedIn(l, times, i, j + 1) <= l.capacity + l.rate * (times[j] - times[i])
  }

  ghost predicate AllWindowsBounded(l: Limits) {
    forall times: seq<int>, i: nat, j: nat | Nondecreasing(times) && i <= j < |times| ::
      WindowBounded(l, times, i, j)
  }

  /** The bound holds of all histories exactly when the capacity is at least one: a user's first
      message is let through whatever the capacity. */
  lemma BoundedIffCapacity(l: Limits)
    requires l.rate >= 0
    ensures AllWindowsBounded(l) <==> l.capacity >= 1
  {
    hide AllowedIn;
    if l.capacity >= 1 {
      forall times: seq<int>, i: nat, j: nat | Nondecreasing(times) && i <= j < |times|
        ensures WindowBounded(l, times, i, j)
      {
        WindowBound(l, times, i, j);
      }
    } else {
      FirstMessagePasses(l, 0);
      var once := [0];
      assert Nondecreasing(once) && !WindowBounded(l, once, 0, 0);
    }
  }

  lemma FirstMessagePasses(l: Limits, now: int)
    ensures AllowedIn(l, [now], 0, 1) == 1
  {
    assert BucketAfter(l, [now], 0) == None;
    assert Allowed(l, [now], 0);
    assert AllowedIn(l, [now], 0, 0) == 0;
  }

  /** With a capacity below 1 the first message is the only one. */
  lemma OnlyTheFirstPasses(l: Limits, times: seq<int>, j: nat)
    requires l.capacity < 1 && j < |times|
    ensures Allowed(l, times, j) <==> j == 0
  {
  }

  // ----- many users -------------------------------------------------------------------------------------

  datatype Call = Call(user: int, now: int)

  function AllowAt(l: Limits, users: map<int, Bucket>, call: Call): (map<int, Bucket>, bool) {
    var (b, ok) := AllowStep(l, if call.user in users then Some(users[call.user]) else None, call.now);
    (users[call.user := b], ok)
  }

  function UsersAfter(l: Limits, calls: seq<Call>): map<int, Bucket> {
    if calls == [] then map[]
    else AllowAt(l, UsersAfter(l, calls[..|calls| - 1]), calls[|calls| - 1]).0
  }

  lemma UsersAppend(l: Limits, calls: seq<Call>, call: Call)
    ensures UsersAfter(l, calls + [call]) == AllowAt(l, UsersAfter(l, calls), call).0
  {
    var all := calls + [call];
    assert all[..|all| - 1] == calls;
  }

  /** The times of one user's calls. */
  function TimesOf(calls: seq<Call>, user: int): seq<int> {
    if calls == [] then []
    else
      var before, last := TimesOf(calls[..|calls| - 1], user), calls[|calls| - 1];
      if last.user == user then before + [last.now] else before
  }

  lemma {:induction false} BucketPrefix(l: Limits, a: seq<int>, b: seq<int>, n: nat)
    requires n <= |a| <= |b| && a == b[..|a|]
    ensures BucketAfter(l, a, n) == BucketAfter(l, b, n)
  {
    if n == 0 {
    } else {
      BucketPrefix(l, a, b, n - 1);
    }
  }

  /** Other users' calls change nothing: each user's bucket is that of the user's own calls alone. */
  lemma {:induction false} UsersAreIndependent(l: Limits, calls: seq<Call>, user: int)
    ensures var users, times := UsersAfter(l, calls), TimesOf(calls, user);
      (if user in users then Some(users[user]) else None) == BucketAfter(l, times, |times|)
  {
    if calls == [] {
    } else {
      var before, last := calls[..|calls| - 1], calls[|calls| - 1];
      UsersAreIndependent(l, before, user);
      if last.user == user {
        BucketPrefix(l, TimesOf(before, user), TimesOf(calls, user), |TimesOf(before, user)|);
      }
    }
  }

  /** The answer a user gets in a mixed history is the answer to the user's own last call alone. */
  lemma AnswersAreIndependent(l: Limits, calls: seq<Call>, call: Call)
    ensures var times := TimesOf(calls + [call], call.user);
      |times| > 0 && (AllowAt(l, UsersAfter(l, calls), call).1 <==> Allowed(l, times, |times| - 1))
  {
    var all := calls + [call];
    assert all[..|all| - 1] == calls;
    UsersAreIndependent(l, calls, call.user);
    var times := TimesOf(all, call.user);
    assert times == TimesOf(calls, call.user) + [call.now];
    BucketPrefix(l, TimesOf(calls, call.user), times, |times| - 1);
  }

  // ----- the imperative code ------------------------------------------------------------------------------

  class UserBucket {
    var tokens: int
    var lastUpdate: int

    ghost function View(): Bucket
      reads this
    {
      Bucket(tokens, lastUpdate)
    }

    constructor (tokens: int, lastUpdate: int)
      ensures View() == Bucket(tokens, lastUpdate)
    {
      this.tokens, this.lastUpdate := tokens, lastUpdate;
    }
  }

  class Limiter {
    const limits: Limits
    var users: map<int, UserBucket>
    ghost var calls: seq<Call>

    /** Buckets are not shared, and hold what the calls so far leave in them. */
    ghost predicate Valid()
      reads this, users.Values
    {
      && (forall u, v | u in users && v in users && u != v :: users[u] != users[v])
      && users.Keys == UsersAfter(limits, calls).Keys
      && (forall u | u in users :: users[u].View() == UsersAfter(limits, calls)[u])
    }

    constructor (rate: int, capacity: int)
      ensures Valid() && calls == [] && limits == Limits(rate, capacity) && users == map[]
    {
      limits, users, calls := Limits(rate, capacity), map[], [];
    }

    method Allow(userId: int, now: int) returns (ok: bool)
      requires Valid()
      modifies this, users.Values
      ensures Valid() && calls == old(calls) + [Call(userId, now)]
      ensures fresh(users.Values - old(users.Values))
      ensures ok == AllowAt(limits, UsersAfter(limits, old(calls)), Call(userId, now)).1
    {
      hide UsersAfter;
      UsersAppend(limits, calls, Call(userId, now));
      calls := calls + [Call(userId, now)];
      if userId !in users {
        var b := new UserBucket(limits.capacity - 1, now);
        users := users[userId := b];
        return true;
      }
      var bucket := users[userId];
      var elapsed := now - bucket.lastUpdate;
      bucket.tokens := bucket.tokens + elapsed * limits.rate;
      if bucket.tokens > limits.capacity {
        bucket.tokens := limits.capacity;
      }
      bucket.lastUpdate := now;
      if bucket.tokens >= 1 {
        bucket.tokens := bucket.tokens - 1;
        return true;
      }
      return false;
    }
  }
}
