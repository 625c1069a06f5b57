/** The per-user sliding-window rate limiter: a bucket of recent grant times that is pruned on
    every call, compared with the complete log of grants. Times are nanoseconds. */
module Limiter {
  import opened Multiples

  type UserID = string
  type Time = int

  datatype Grant = Grant(user: UserID, at: Time)

  // ---------------------------------------------------------------- the unbounded log

  /** Grants to `user` in the half-open interval (lo, hi]. */
  function Count(log: seq<Grant>, user: UserID, lo: Time, hi: Time): nat {
    if log == [] then 0
    else
      var last := log[|log| - 1];
      Count(log[..|log| - 1], user, lo, hi) + if last.user == user && lo < last.at <= hi then 1 else 0
  }

  /** The grants to `user` in (lo, hi], by their places in the log. */
  ghost function Within(log: seq<Grant>, user: UserID, lo: Time, hi: Time): set<int> {
    set i | 0 <= i < |log| && log[i].user == user && lo < log[i].at <= hi
  }

  lemma {:induction false} CountIsWithin(log: seq<Grant>, user: UserID, lo: Time, hi: Time)
    ensures Count(log, user, lo, hi) == |Within(log, user, lo, hi)|
    decreases |log|
  {
    if log != [] {
      var n := |log| - 1;
      CountIsWithin(log[..n], user, lo, hi);
      var before := Within(log[..n], user, lo, hi);
      if log[n].user == user && lo < log[n].at <= hi {
        assert Within(log, user, lo, hi) == before + {n};
      } else {
        assert Within(log, user, lo, hi) == before;
      }
    }
  }

  /** The rule: a call is granted when fewer than `limit` grants lie in the window that ends now. */
  predicate Admits(log: seq<Grant>, user: UserID, now: Time, limit: int, window: int) {
    Count(log, user, now - window, now) < limit
  }

  lemma AdmitsMeans(log: seq<Grant>, user: UserID, now: Time, limit: int, window: int)
    ensures Admits(log, user, now, limit, window) <==> |Within(log, user, now - window, now)| < limit
  {
    CountIsWithin(log, user, now - window, now);
  }

  datatype Call = Call(user: UserID, now: Time)

  /** What one call does to the log under the rule. */
  function Extend(log: seq<Grant>, c: Call, limit: int, window: int): seq<Grant> {
    if Admits(log, c.user, c.now, limit, window) then log + [Grant(c.user, c.now)] else log
  }

  /** The grants a run of calls leads to under the rule. */
  function Grants(calls: seq<Call>, limit: int, window: int): seq<Grant> {
    if calls == [] then []
    else Extend(Grants(calls[..|calls| - 1], limit, window), calls[|calls| - 1], limit, window)
  }

  predicate ClockOrdered(calls: seq<Call>) {
    forall i, j :: 0 <= i < j < |calls| ==> calls[i].now <= calls[j].now
  }

  /** A log in time order every entry of which obeyed the rule when it was made. */
  ghost predicate Legal(log: seq<Grant>, limit: int, window: int) {
    log == [] ||
    var rest, last := log[..|log| - 1], log[|log| - 1];
    && Legal(rest, limit, window)
    && Admits(rest, last.user, last.at, limit, window)
    && forall e :: e in rest ==> e.at <= last.at
  }

  lemma LegalGrows(log: seq<Grant>, g: Grant, limit: int, window: int)
    requires Legal(log, limit, window) && Admits(log, g.user, g.at, limit, window)
    requires forall e :: e in log ==> e.at <= g.at
    ensures Legal(log + [g], limit, window)
  {
    assert (log + [g])[..|log|] == log;
  }

  lemma CountOne(log: seq<Grant>, g: Grant, user: UserID, lo: Time, hi: Time)
    ensures Count(log + [g], user, lo, hi) ==
            Count(log, user, lo, hi) + if g.user == user && lo < g.at <= hi then 1 else 0
  {
    assert (log + [g])[..|log|] == log;
  }

  lemma {:induction false} GrantsAreLegal(calls: seq<Call>, limit: int, window: int)
    requires ClockOrdered(calls)
    ensures var log := Grants(calls, limit, window);
            && Legal(log, limit, window)
            && forall e :: e in log ==> calls != [] && e.at <= calls[|calls| - 1].now
    decreases |calls|
  {
    if calls != [] {
      var rest, c := calls[..|calls| - 1], calls[|calls| - 1];
      GrantsAreLegal(rest, limit, window);
      var log := Grants(rest, limit, window);
      if Admits(log, c.user, c.now, limit, window) { LegalGrows(log, Grant(c.user, c.now), limit, window); }
    }
  }

  lemma {:induction false} CountWiden(log: seq<Grant>, user: UserID, lo: Time, hi: Time, lo': Time, hi': Time)
    requires lo' <= lo && forall e :: e in log ==> e.at <= hi'
    ensures Count(log, user, lo, hi) <= Count(log, user, lo', hi')
    decreases |log|
  {
    if log != [] {
      assert log[|log| - 1] in log;
      CountWiden(log[..|log| - 1], user, lo, hi, lo', hi');
    }
  }

  lemma {:induction false} CountSplit(log: seq<Grant>, user: UserID, lo: Time, mid: Time, hi: Time)
    requires lo <= mid <= hi
    ensures Count(log, user, lo, hi) == Count(log, user, lo, mid) + Count(log, user, mid, hi)
    decreases |log|
  {
    if log != [] { CountSplit(log[..|log| - 1], user, lo, mid, hi); }
  }

  lemma {:induction false} CountEmptyInterval(log: seq<Grant>, user: UserID, lo: Time, hi: Time)
    requires hi <= lo
    ensures Count(log, user, lo, hi) == 0
    decreases |log|
  {
    if log != [] { CountEmptyInterval(log[..|log| - 1], user, lo, hi); }
  }

  function AtLeastZero(x: int): nat {
    if x < 0 then 0 else x
  }

  lemma {:induction false} OneWindow(log: seq<Grant>, user: UserID, from: Time, limit: int, window: int)
    requires Legal(log, limit, window)
    ensures Count(log, user, from, from + window) <= AtLeastZero(limit)
    decreases |log|
  {
    if log != [] {
      var rest, last := log[..|log| - 1], log[|log| - 1];
      OneWindow(rest, user, from, limit, window);
      if last.user == user && from < last.at <= from + window {
        CountWiden(rest, user, from, from + window, last.at - window, last.at);
      }
    }
  }

  /** Over any stretch of k windows a user gets at most k * limit grants, several at one instant included. */
  lemma {:induction false} WindowBound(log: seq<Grant>, user: UserID, from: Time, k: nat, limit: int, window: int)
    requires Legal(log, limit, window) && window > 0
    ensures Count(log, user, from, from + Times(k, window)) <= Times(k, AtLeastZero(limit))
    decreases k
  {
    if k == 0 {
      CountEmptyInterval(log, user, from, from);
    } else {
      var mid := from + Times(k - 1, window);
      WindowBound(log, user, from, k - 1, limit, window);
      OneWindow(log, user, mid, limit, window);
      TimesIsProduct(k - 1, window);
      CountSplit(log, user, from, mid, mid + window);
    }
  }

  /** For every run with a non-decreasing clock, any user and any k: at most k * limit grants in
      (from, to] and in [from, to), where to is k windows after from. */
  lemma RateBound(calls: seq<Call>, user: UserID, from: Time, to: Time, k: nat, limit: int, window: int)
    requires ClockOrdered(calls) && to - from == k * window
    ensures |Within(Grants(calls, limit, window), user, from, to)| <= if limit < 0 then 0 else k * limit
    ensures |Within(Grants(calls, limit, window), user, from - 1, to - 1)| <= if limit < 0 then 0 else k * limit
  {
    GrantsAreLegal(calls, limit, window);
    CountIsWithin(Grants(calls, limit, window), user, from, to);
    CountIsWithin(Grants(calls, limit, window), user, from - 1, to - 1);
    LegalBound(Grants(calls, limit, window), user, from, to, k, limit, window);
  }

  lemma LegalBound(log: seq<Grant>, user: UserID, from: Time, to: Time, k: nat, limit: int, window: int)
    requires Legal(log, limit, window) && to - from == k * window
    ensures Count(log, user, from, to) <= k * AtLeastZero(limit)
    ensures Count(log, user, from - 1, to - 1) <= k * AtLeastZero(limit)
  {
    TimesIsProduct(k, window);
    TimesIsProduct(k, AtLeastZero(limit));
    Windows(log, user, from, to, Times(k, AtLeastZero(limit)), k, limit, window);
  }

  lemma Windows(log: seq<Grant>, user: UserID, from: Time, to: Time, most: int, k: nat, limit: int, window: int)
    requires Legal(log, limit, window)
    requires to - from == Times(k, window) && most == Times(k, AtLeastZero(limit)) && most >= 0
    ensures Count(log, user, from, to) <= most && Count(log, user, from - 1, to - 1) <= most
  {
    if window > 0 {
      WindowBound(log, user, from, k, limit, window);
      WindowBound(log, user, from - 1, k, limit, window);
    } else {
      TimesNegative(k, window);
      CountEmptyInterval(log, user, from, to);
      CountEmptyInterval(log, user, from - 1, to - 1);
    }
  }

  lemma {:induction false} TimesNegative(k: nat, x: int)
    requires x <= 0
    ensures Times(k, x) <= 0
    decreases k
  {
    if k > 0 { TimesNegative(k - 1, x); }
  }

  /** Calls of other users never change the answer. */
  lemma {:induction false} OthersIrrelevant(calls: seq<Call>, user: UserID, now: Time, limit: int, window: int)
    ensures Admits(Grants(calls, limit, window), user, now, limit, window) <==>
            Admits(Grants(Only(calls, user), limit, window), user, now, limit, window)
  {
    SameTimes(calls, user, now - window, now, limit, window);
  }

  function Only(calls: seq<Call>, user: UserID): seq<Call> {
    if calls == [] then []
    else
      var rest, c := Only(calls[..|calls| - 1], user), calls[|calls| - 1];
      if c.user == user then rest + [c] else rest
  }

  /** `Only` keeps the calls of one user, in order, and drops the others. */
  lemma {:induction false} OnlyJoins(a: seq<Call>, b: seq<Call>, user: UserID)
    ensures Only(a + b, user) == Only(a, user) + Only(b, user)
    decreases |b|
  {
    if b != [] {
      OnlyJoins(a, b[..|b| - 1], user);
      assert (a + b)[..|a + b| - 1] == a + b[..|b| - 1];
    } else {
      assert a + b == a;
    }
  }

  lemma OnlyOne(c: Call, user: UserID)
    ensures Only([c], user) == if c.user == user then [c] else []
  {
    assert [c][..0] == [];
  }

  lemma {:induction false} SameTimes(calls: seq<Call>, user: UserID, lo: Time, hi: Time, limit: int, window: int)
    ensures Count(Grants(calls, limit, window), user, lo, hi) ==
            Count(Grants(Only(calls, user), limit, window), user, lo, hi)
    decreases |calls|
  {
    if calls != [] {
      var rest, c := calls[..|calls| - 1], calls[|calls| - 1];
      SameTimes(rest, user, lo, hi, limit, window);
      SameTimes(rest, user, c.now - window, c.now, limit, window);
      var own := Only(rest, user);
      SameStep(Grants(rest, limit, window), Grants(own, limit, window), c, user, lo, hi, limit, window);
      assert (own + [c])[..|own|] == own;
    }
  }

  lemma SameStep(log: seq<Grant>, own: seq<Grant>, c: Call, user: UserID, lo: Time, hi: Time, limit: int, window: int)
    requires Count(log, user, lo, hi) == Count(own, user, lo, hi)
    requires Count(log, user, c.now - window, c.now) == Count(own, user, c.now - window, c.now)
    ensures Count(Extend(log, c, limit, window), user, lo, hi) ==
            Count(if c.user == user then Extend(own, c, limit, window) else own, user, lo, hi)
  {
    CountOne(log, Grant(c.user, c.now), user, lo, hi);
    CountOne(own, Grant(c.user, c.now), user, lo, hi);
  }

  // ---------------------------------------------------------------- the limiter

  /** Grant times of one user, oldest first. */
  function TimesOf(log: seq<Grant>, user: UserID): seq<Time> {
    if log == [] then []
    else
      var rest, last := TimesOf(log[..|log| - 1], user), log[|log| - 1];
      if last.user == user then rest + [last.at] else rest
  }

  /** Entries strictly newer than the cutoff. */
  function Newer(times: seq<Time>, cutoff: Time): seq<Time> {
    if times == [] then []
    else
      var rest, last := Newer(times[..|times| - 1], cutoff), times[|times| - 1];
      if last > cutoff then rest + [last] else rest
  }

  lemma NewerOne(times: seq<Time>, t: Time, cutoff: Time)
    ensures Newer(times + [t], cutoff) == if t > cutoff then Newer(times, cutoff) + [t] else Newer(times, cutoff)
  {
    assert (times + [t])[..|times|] == times;
  }

  lemma TimesOfOne(log: seq<Grant>, g: Grant, user: UserID)
    ensures TimesOf(log + [g], user) == if g.user == user then TimesOf(log, user) + [g.at] else TimesOf(log, user)
  {
    assert (log + [g])[..|log|] == log;
  }

  /** Pruning twice with growing cutoffs is pruning once. */
  lemma {:induction false} NewerTwice(times: seq<Time>, c: Time, d: Time)
    requires c <= d
    ensures Newer(Newer(times, c), d) == Newer(times, d)
    decreases |times|
  {
    if times != [] {
      var rest, last := times[..|times| - 1], times[|times| - 1];
      NewerTwice(rest, c, d);
      if last > c { NewerOne(Newer(rest, c), last, d); }
    }
  }

  lemma {:induction false} CountIsNewer(log: seq<Grant>, user: UserID, lo: Time, hi: Time)
    requires forall e :: e in log ==> e.at <= hi
    ensures Count(log, user, lo, hi) == |Newer(TimesOf(log, user), lo)|
    decreases |log|
  {
    if log != [] {
      var rest, last := log[..|log| - 1], log[|log| - 1];
      CountIsNewer(rest, user, lo, hi);
      assert last in log;
      if last.user == user { NewerOne(TimesOf(rest, user), last.at, lo); }
    }
  }

  ghost predicate Sorted(times: seq<Time>) {
    forall i, j :: 0 <= i < j < |times| ==> times[i] <= times[j]
  }

  lemma SortedAppend(times: seq<Time>, last: Time)
    requires Sorted(times) && forall t :: t in times ==> t <= last
    ensures Sorted(times + [last])
  {
    forall i, j | 0 <= i < j < |times + [last]| ensures (times + [last])[i] <= (times + [last])[j] {
      assert times[i] in times;
    }
  }

  lemma {:induction false} NewerSorted(times: seq<Time>, cutoff: Time)
    requires Sorted(times)
    ensures Sorted(Newer(times, cutoff)) && forall t :: t in Newer(times, cutoff) ==> t in times
    decreases |times|
  {
    if times != [] {
      var rest, last := times[..|times| - 1], times[|times| - 1];
      NewerSorted(rest, cutoff);
      forall t | t in rest ensures t in times && t <= last {
        var k :| 0 <= k < |rest| && rest[k] == t;
        assert times[k] == t;
      }
      SortedAppend(Newer(rest, cutoff), last);
    }
  }

  /** A pruned bucket against the complete log: nothing newer than `clock - window` was lost. */
  ghost predicate Keeps(bucket: seq<Time>, log: seq<Grant>, user: UserID, clock: Time, window: int) {
    forall c :: clock - window <= c ==> Newer(bucket, c) == Newer(TimesOf(log, user), c)
  }

  /** Pruning a bucket is pruning the complete log; what is left is counted by the rule. */
  lemma Pruned(bucket: seq<Time>, log: seq<Grant>, user: UserID, clock: Time, now: Time, window: int)
    requires Keeps(bucket, log, user, clock, window) && clock <= now
    requires forall e :: e in log ==> e.at <= clock
    ensures |Newer(bucket, now - window)| == Count(log, user, now - window, now)
    ensures Keeps(bucket, log, user, now, window)
    ensures Keeps(Newer(bucket, now - window), log, user, now, window)
  {
    CountIsNewer(log, user, now - window, now);
    forall c | now - window <= c
      ensures Newer(Newer(bucket, now - window), c) == Newer(TimesOf(log, user), c)
    {
      NewerTwice(bucket, now - window, c);
    }
  }

  /** A grant keeps every bucket in step with the log: the caller's grows, the others stay. */
  lemma Granted(bucket: seq<Time>, log: seq<Grant>, user: UserID, who: UserID, now: Time, window: int)
    requires Keeps(bucket, log, user, now, window)
    ensures Keeps(if user == who then bucket + [now] else bucket, log + [Grant(who, now)], user, now, window)
  {
    TimesOfOne(log, Grant(who, now), user);
    forall c | user == who && now - window <= c
      ensures Newer(bucket + [now], c) == Newer(TimesOf(log, user) + [now], c)
    {
      NewerOne(bucket, now, c);
      NewerOne(TimesOf(log, user), now, c);
    }
  }

  function BucketOf(buckets: map<UserID, seq<Time>>, user: UserID): seq<Time> {
    if user in buckets then buckets[user] else []
  }

  /** Every bucket is in step with the log and within the limit. */
  ghost predicate Fits(buckets: map<UserID, seq<Time>>, log: seq<Grant>, clock: Time, limit: int, window: int) {
    && (forall e :: e in log ==> e.at <= clock)
    && forall user :: Fit(BucketOf(buckets, user), log, user, clock, limit, window)
  }

  ghost predicate Fit(bucket: seq<Time>, log: seq<Grant>, user: UserID, clock: Time, limit: int, window: int) {
    && Keeps(bucket, log, user, clock, window)
    && |bucket| <= AtLeastZero(limit) && Sorted(bucket) && forall t :: t in bucket ==> t <= clock
  }

  /** What is left of the caller's bucket decides as the complete log does. */
  lemma Decides(buckets: map<UserID, seq<Time>>, log: seq<Grant>, clock: Time, limit: int, window: int,
                user: UserID, now: Time, recent: seq<Time>)
    requires Fits(buckets, log, clock, limit, window) && clock <= now
    requires recent == Newer(BucketOf(buckets, user), now - window)
    ensures |recent| < limit <==> Admits(log, user, now, limit, window)
  {
    assert Fit(BucketOf(buckets, user), log, user, clock, limit, window);
    Pruned(BucketOf(buckets, user), log, user, clock, now, window);
  }

  lemma DenialFits(buckets: map<UserID, seq<Time>>, log: seq<Grant>, clock: Time, limit: int, window: int,
                   user: UserID, now: Time, recent: seq<Time>)
    requires Fits(buckets, log, clock, limit, window) && clock <= now
    requires recent == Newer(BucketOf(buckets, user), now - window)
    ensures Fits(buckets[user := recent], log, now, limit, window)
  {
    var after := buckets[user := recent];
    forall u ensures Fit(BucketOf(after, u), log, u, now, limit, window) {
      var bucket := BucketOf(buckets, u);
      assert Fit(bucket, log, u, clock, limit, window);
      PrunedFit(bucket, log, u, clock, now, limit, window);
    }
  }

  /** Time passing and pruning both keep a bucket fit. */
  lemma PrunedFit(bucket: seq<Time>, log: seq<Grant>, user: UserID, clock: Time, now: Time, limit: int, window: int)
    requires Fit(bucket, log, user, clock, limit, window) && clock <= now
    requires forall e :: e in log ==> e.at <= clock
    ensures Fit(bucket, log, user, now, limit, window)
    ensures Fit(Newer(bucket, now - window), log, user, now, limit, window)
  {
    Pruned(bucket, log, user, clock, now, window);
    PruneLength(bucket, now - window);
    NewerSorted(bucket, now - window);
  }

  lemma GrantFits(buckets: map<UserID, seq<Time>>, log: seq<Grant>, clock: Time, limit: int, window: int,
                  user: UserID, now: Time, recent: seq<Time>)
    requires Fits(buckets, log, clock, limit, window) && clock <= now
    requires recent == Newer(BucketOf(buckets, user), now - window) && |recent| < limit
    ensures Fits(buckets[user := recent + [now]], log + [Grant(user, now)], now, limit, window)
    ensures Legal(log, limit, window) ==> Legal(log + [Grant(user, now)], limit, window)
  {
    var after, grown := buckets[user := recent + [now]], log + [Grant(user, now)];
    forall u ensures Fit(BucketOf(after, u), grown, u, now, limit, window) {
      var bucket := BucketOf(buckets, u);
      assert Fit(bucket, log, u, clock, limit, window);
      PrunedFit(bucket, log, u, clock, now, limit, window);
      GrantedFit(if u == user then recent else bucket, log, u, user, now, limit, window);
    }
    Decides(buckets, log, clock, limit, window, user, now, recent);
    if Legal(log, limit, window) { LegalGrows(log, Grant(user, now), limit, window); }
  }

  lemma GrantedFit(bucket: seq<Time>, log: seq<Grant>, user: UserID, who: UserID, now: Time, limit: int, window: int)
    requires Fit(bucket, log, user, now, limit, window) && (user == who ==> |bucket| < limit)
    ensures Fit(if user == who then bucket + [now] else bucket, log + [Grant(who, now)], user, now, limit, window)
  {
    Granted(bucket, log, user, who, now, window);
    SortedAppend(bucket, now);
  }

  class RateLimiter {
    const limit: int
    const window: int
    var buckets: map<UserID, seq<Time>>
    /** Every grant ever made, and the last clock reading. */
    ghost var log: seq<Grant>
    ghost var clock: Time

    function Bucket(user: UserID): seq<Time>
      reads this
    {
      BucketOf(buckets, user)
    }

    ghost predicate Valid()
      reads this
    {
      Legal(log, limit, window) && Fits(buckets, log, clock, limit, window)
    }

    constructor (limit: int, window: int, ghost start: Time)
      ensures Valid() && log == [] && clock == start && this.limit == limit && this.window == window
    {
      this.limit := limit;
      this.window := window;
      buckets := map[];
      log := [];
      clock := start;
      new;
      forall user ensures Fit(BucketOf(buckets, user), log, user, clock, limit, window) {
        assert BucketOf(buckets, user) == TimesOf(log, user) == [];
      }
    }

    /** One call: granted exactly when the complete log has fewer than `limit` grants to this user in
        (now - window, now]; a grant is added to the log, a denial adds nothing. */
    method Allow(user: UserID, now: Time) returns (ok: bool)
      requires Valid() && clock <= now
      modifies this
      ensures Valid() && clock == now
      ensures ok <==> Admits(old(log), user, now, limit, window)
      ensures log == if ok then old(log) + [Grant(user, now)] else old(log)
      ensures Bucket(user) == Newer(old(Bucket(user)), now - window) + if ok then [now] else []
      ensures forall u :: u != user ==> Bucket(u) == old(Bucket(u))
    {
      var recent := Prune(Bucket(user), now - window);
      ghost var before, grant := log, Grant(user, now);
      Decides(buckets, log, clock, limit, window, user, now, recent);
      if |recent| >= limit {
        DenialFits(buckets, log, clock, limit, window, user, now, recent);
        buckets := buckets[user := recent];
        ok := false;
      } else {
        GrantFits(buckets, log, clock, limit, window, user, now, recent);
        recent := recent + [now];
        buckets := if |recent| == 0 then buckets - {user} else buckets[user := recent];
        log := before + [grant];
        ok := true;
      }
      clock := now;
      assert Fits(buckets, log, clock, limit, window);
      assert Legal(log, limit, window);
    }

    /** The bucket of every user is sorted and holds at most `limit` entries, none in the future. */
    lemma BucketShape(user: UserID)
      requires Valid()
      ensures Sorted(Bucket(user)) && |Bucket(user)| <= AtLeastZero(limit)
      ensures forall t :: t in Bucket(user) ==> t <= clock
    {
      assert Fit(Bucket(user), log, user, clock, limit, window);
    }
  }

  lemma {:induction false} PruneLength(times: seq<Time>, cutoff: Time)
    ensures |Newer(times, cutoff)| <= |times|
    decreases |times|
  {
    if times != [] { PruneLength(times[..|times| - 1], cutoff); }
  }

  /** The filtering loop. */
  method Prune(times: seq<Time>, cutoff: Time) returns (recent: seq<Time>)
    ensures recent == Newer(times, cutoff)
  {
    recent := [];
    for i := 0 to |times|
      invariant recent == Newer(times[..i], cutoff)
    {
      NewerOne(times[..i], times[i], cutoff);
      assert times[..i + 1] == times[..i] + [times[i]];
      if times[i] > cutoff {
        recent := recent + [times[i]];
      }
    }
    assert times[..|times|] == times;
  }
}
