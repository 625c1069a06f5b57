/** The duplicate memory that the message router and the WebSocket client both keep: ids seen in the
    last 30 minutes, older ones evicted on every call. It is compared with the complete log of
    acceptances, and the message router's 60 s freshness cut-off is shown to cover, up to an exact
    bound, what the eviction forgets. Times are nanoseconds. */
module Dedup {
  import opened Options

  type Time = int

  const MEMORY: Time := 1_800_000_000_000
  const STALE: Time := 60_000_000_000
  const GRACE: Time := 5_000_000_000

  datatype Acceptance = Acceptance(id: string, at: Time)

  /** One call: the clock is read once for the cutoff and once more for the new entry. */
  datatype Attempt = Attempt(id: string, checkAt: Time, storeAt: Time)

  // ---------------------------------------------------------------- the unbounded log

  /** Some acceptance of `id` is at most 30 minutes old. */
  predicate Remembered(log: seq<Acceptance>, id: string, now: Time) {
    exists e :: e in log && e.id == id && now - MEMORY <= e.at
  }

  /** The rule: anonymous messages always pass and leave no trace; others pass unless remembered. */
  function Accept(log: seq<Acceptance>, a: Attempt): seq<Acceptance> {
    if a.id == "" || Remembered(log, a.id, a.checkAt) then log else log + [Acceptance(a.id, a.storeAt)]
  }

  function Acceptances(attempts: seq<Attempt>): seq<Acceptance> {
    if attempts == [] then []
    else Accept(Acceptances(attempts[..|attempts| - 1]), attempts[|attempts| - 1])
  }

  /** Calls hold a lock, so one call's readings come before the next one's. */
  ghost predicate Ordered(attempts: seq<Attempt>) {
    && (forall i :: 0 <= i < |attempts| ==> attempts[i].checkAt <= attempts[i].storeAt)
    && (forall i, j :: 0 <= i < j < |attempts| ==> attempts[i].storeAt <= attempts[j].checkAt)
  }

  ghost predicate Spaced(log: seq<Acceptance>) {
    forall i, j :: 0 <= i < j < |log| && log[i].id == log[j].id ==> log[i].at + MEMORY < log[j].at
  }

  /** Two acceptances of one id are always more than 30 minutes apart. */
  lemma {:induction false} AcceptancesSpaced(attempts: seq<Attempt>)
    requires Ordered(attempts)
    ensures Spaced(Acceptances(attempts))
    decreases |attempts|
  {
    if attempts != [] {
      var rest, a := attempts[..|attempts| - 1], attempts[|attempts| - 1];
      AcceptancesSpaced(rest);
      var log := Acceptances(rest);
      if a.id != "" && !Remembered(log, a.id, a.checkAt) {
        forall i | 0 <= i < |log| && log[i].id == a.id ensures log[i].at + MEMORY < a.storeAt {
          assert log[i] in log;
        }
      }
    }
  }

  /** Within 30 minutes of its first acceptance an id is never accepted again. */
  lemma {:induction false} OncePerWindow(attempts: seq<Attempt>, i: nat, j: nat)
    requires Ordered(attempts) && i < j < |Acceptances(attempts)|
    requires Acceptances(attempts)[i].id == Acceptances(attempts)[j].id
    ensures Acceptances(attempts)[i].at + 1_800_000_000_000 < Acceptances(attempts)[j].at
  {
    AcceptancesSpaced(attempts);
  }

  // ---------------------------------------------------------------- the filter

  /** The map answers for every acceptance that is still inside the window. */
  ghost predicate Fits(seen: map<string, Time>, log: seq<Acceptance>, clock: Time) {
    && (forall id :: id in seen ==> Acceptance(id, seen[id]) in log)
    && (forall e :: e in log && clock - MEMORY <= e.at ==> e.id in seen && e.at <= seen[e.id])
    && (forall e :: e in log ==> e.at <= clock && e.id != "")
  }

  function Evicted(seen: map<string, Time>, cutoff: Time): map<string, Time> {
    map id | id in seen && cutoff <= seen[id] :: seen[id]
  }

  /** After eviction the map holds exactly the remembered ids, and still fits. */
  lemma EvictedMeans(seen: map<string, Time>, log: seq<Acceptance>, clock: Time, now: Time, id: string)
    requires Fits(seen, log, clock) && clock <= now
    ensures id in Evicted(seen, now - MEMORY) <==> Remembered(log, id, now)
    ensures Fits(Evicted(seen, now - MEMORY), log, now)
  {
    if id in Evicted(seen, now - MEMORY) { assert Acceptance(id, seen[id]) in log; }
  }

  class DuplicateFilter {
    var seen: map<string, Time>
    /** Every acceptance ever made, and the last clock reading. */
    ghost var log: seq<Acceptance>
    ghost var clock: Time

    ghost predicate Valid()
      reads this
    {
      Fits(seen, log, clock)
    }

    constructor (ghost start: Time)
      ensures Valid() && log == [] && clock == start
    {
      seen := map[];
      log := [];
      clock := start;
    }

    /** Says "duplicate" exactly when the complete log remembers the id, and logs what it lets pass. */
    method IsDuplicate(id: string, checkAt: Time, storeAt: Time) returns (duplicate: bool)
      requires Valid() && clock <= checkAt <= storeAt
      modifies this
      ensures Valid() && clock == storeAt
      ensures duplicate <==>
              id != "" && exists e :: e in old(log) && e.id == id && checkAt - 1_800_000_000_000 <= e.at
      ensures log == if duplicate || id == "" then old(log) else old(log) + [Acceptance(id, storeAt)]
      ensures duplicate <==> id != "" && Remembered(old(log), id, checkAt)
      ensures log == Accept(old(log), Attempt(id, checkAt, storeAt))
    {
      clock := storeAt;
      if id == "" {
        return false;
      }
      Evict(checkAt - MEMORY);
      EvictedMeans(old(seen), log, old(clock), checkAt, id);
      if id in seen {
        duplicate := true;
      } else {
        seen := seen[id := storeAt];
        log := log + [Acceptance(id, storeAt)];
        duplicate := false;
      }
    }

    /** The eviction loop; a map is walked in no particular order. */
    method Evict(cutoff: Time)
      modifies this`seen
      ensures seen == Evicted(old(seen), cutoff)
    {
      var ids := seen.Keys;
      while ids != {}
        invariant ids <= old(seen).Keys
        invariant seen == map id | id in old(seen) && (id in ids || cutoff <= old(seen)[id]) :: old(seen)[id]
        decreases |ids|
      {
        var id :| id in ids;
        ids := ids - {id};
        if seen[id] < cutoff {
          seen := seen - {id};
        }
      }
    }
  }

  // ---------------------------------------------------------------- freshness covers eviction

  /** The creation time of a message, when it parses, in milliseconds since the epoch. */
  type CreateTime = Option<int>

  function Nanos(milliseconds: int): Time {
    milliseconds * 1_000_000
  }

  predicate BeforeStartup(created: CreateTime, startedAt: Time) {
    created.Some? && Nanos(created.value) < startedAt - GRACE
  }

  predicate Stale(created: CreateTime, now: Time) {
    created.Some? && now - Nanos(created.value) > STALE
  }

  /** One delivery of a message on its way to the duplicate memory: freshness is judged at `freshAt`,
      outside the lock. */
  datatype Delivery = Delivery(id: string, created: CreateTime, freshAt: Time, checkAt: Time, storeAt: Time)

  predicate Fresh(d: Delivery, startedAt: Time) {
    !BeforeStartup(d.created, startedAt) && !Stale(d.created, d.freshAt)
  }

  /** Fresh is: not created over 5 s before start-up, and not over 60 s ago. */
  lemma FreshMeans(d: Delivery, startedAt: Time)
    ensures Fresh(d, startedAt) <==>
            (d.created.Some? ==>
               && d.created.value * 1_000_000 >= startedAt - 5_000_000_000
               && d.freshAt - d.created.value * 1_000_000 <= 60_000_000_000)
  {
  }

  /** The attempts the duplicate memory sees: only deliveries that are fresh, in lock order. */
  function Attempts(deliveries: seq<Delivery>, startedAt: Time): seq<Attempt> {
    if deliveries == [] then []
    else
      var rest, d := Attempts(deliveries[..|deliveries| - 1], startedAt), deliveries[|deliveries| - 1];
      if Fresh(d, startedAt) then rest + [Attempt(d.id, d.checkAt, d.storeAt)] else rest
  }

  /** Delivery number k gets past freshness and past the duplicate memory. */
  predicate Passes(deliveries: seq<Delivery>, startedAt: Time, k: nat)
    requires k < |deliveries|
  {
    var d := deliveries[k];
    && Fresh(d, startedAt)
    && !(d.id != "" && Remembered(Acceptances(Attempts(deliveries[..k], startedAt)), d.id, d.checkAt))
  }

  /** Deliveries run concurrently: only the locked parts are ordered, and between the freshness test and
      the lock at most `delay` passes. */
  ghost predicate Run(deliveries: seq<Delivery>, startedAt: Time, delay: Time) {
    && (forall i :: 0 <= i < |deliveries| ==>
          && startedAt <= deliveries[i].freshAt <= deliveries[i].checkAt <= deliveries[i].storeAt
          && deliveries[i].checkAt <= deliveries[i].freshAt + delay)
    && (forall i, j :: 0 <= i < j < |deliveries| ==> deliveries[i].storeAt <= deliveries[j].checkAt)
  }

  /** What has passed stays in the log. */
  lemma {:induction false} PassedIsLogged(deliveries: seq<Delivery>, startedAt: Time, i: nat, n: nat)
    requires i < n <= |deliveries| && Passes(deliveries, startedAt, i) && deliveries[i].id != ""
    ensures Acceptance(deliveries[i].id, deliveries[i].storeAt) in
            Acceptances(Attempts(deliveries[..n], startedAt))
    decreases n
  {
    if i < n - 1 { PassedIsLogged(deliveries, startedAt, i, n - 1); }
    LogStep(deliveries, startedAt, n - 1);
  }

  lemma LogStep(deliveries: seq<Delivery>, startedAt: Time, k: nat)
    requires k < |deliveries|
    ensures var d := deliveries[k];
            var log := Acceptances(Attempts(deliveries[..k], startedAt));
            Acceptances(Attempts(deliveries[..k + 1], startedAt)) ==
            if Fresh(d, startedAt) then Accept(log, Attempt(d.id, d.checkAt, d.storeAt)) else log
  {
    var d := deliveries[k];
    assert deliveries[..k + 1][..k] == deliveries[..k];
    var before := Attempts(deliveries[..k], startedAt);
    var a := Attempt(d.id, d.checkAt, d.storeAt);
    assert (before + [a])[..|before|] == before;
  }

  /** A second pass under one id is only possible when its creation time lies in the future of the first
      pass by all that eviction leaves uncovered, whatever creation time the first one had. */
  lemma SecondPass(deliveries: seq<Delivery>, startedAt: Time, delay: Time, i: nat, j: nat)
    requires Run(deliveries, startedAt, delay) && i < j < |deliveries|
    requires Passes(deliveries, startedAt, i) && Passes(deliveries, startedAt, j)
    requires deliveries[i].id == deliveries[j].id != "" && deliveries[j].created.Some?
    ensures deliveries[i].storeAt + 1_740_000_000_000 < deliveries[j].created.value * 1_000_000 + delay
  {
    PassedIsLogged(deliveries, startedAt, i, j);
  }

  /** Some run lets the message pass twice, first at `first`. */
  ghost predicate CanPassTwice(id: string, created: int, startedAt: Time, delay: Time, first: Time) {
    exists deliveries, i: nat, j: nat :: PassesTwice(deliveries, i, j, id, created, startedAt, delay, first)
  }

  ghost predicate PassesTwice(deliveries: seq<Delivery>, i: nat, j: nat,
                              id: string, created: int, startedAt: Time, delay: Time, first: Time)
  {
    && i < j < |deliveries| && Run(deliveries, startedAt, delay)
    && Passes(deliveries, startedAt, i) && Passes(deliveries, startedAt, j)
    && deliveries[i].id == deliveries[j].id == id
    && deliveries[i].created == deliveries[j].created == Some(created)
    && deliveries[i].storeAt == first
  }

  /** Exactly when a named message can get past the duplicate memory a second time, over unbounded runs:
      its creation time is more than 29 minutes, less the scheduling delay, after the first acceptance. */
  lemma PassesTwiceIff(id: string, created: int, startedAt: Time, delay: Time, first: Time)
    requires id != "" && 0 <= delay && startedAt <= first
    requires startedAt - 5_000_000_000 <= created * 1_000_000
    ensures CanPassTwice(id, created, startedAt, delay, first) <==>
            first + 1_740_000_000_000 < created * 1_000_000 + delay
  {
    if CanPassTwice(id, created, startedAt, delay, first) {
      var deliveries, i: nat, j: nat :|
        PassesTwice(deliveries, i, j, id, created, startedAt, delay, first);
      SecondPass(deliveries, startedAt, delay, i, j);
    }
    if first + MEMORY < Nanos(created) + STALE + delay {
      Witness(id, created, startedAt, delay, first);
    }
  }

  function AtEarliest(start: Time, t: Time): Time {
    if t < start then start else t
  }

  lemma Witness(id: string, created: int, startedAt: Time, delay: Time, first: Time)
    requires id != "" && 0 <= delay && startedAt <= first
    requires startedAt - GRACE <= Nanos(created)
    requires first + MEMORY < Nanos(created) + STALE + delay
    ensures CanPassTwice(id, created, startedAt, delay, first)
  {
    var again := first + MEMORY + 1;
    var one := Delivery(id, Some(created), AtEarliest(startedAt, first - delay), first, first);
    var two := Delivery(id, Some(created), AtEarliest(startedAt, again - delay), again, again);
    assert Fresh(one, startedAt) && Fresh(two, startedAt);
    PairPasses(one, two, startedAt);
    assert PassesTwice([one, two], 0, 1, id, created, startedAt, delay, first);
  }

  lemma PairPasses(one: Delivery, two: Delivery, startedAt: Time)
    requires Fresh(one, startedAt) && Fresh(two, startedAt)
    requires one.storeAt + MEMORY < two.checkAt
    ensures Passes([one, two], startedAt, 0) && Passes([one, two], startedAt, 1)
  {
    var deliveries := [one, two];
    assert deliveries[..0] == [] && deliveries[..1] == [one];
    LogStep(deliveries, startedAt, 0);
    assert forall e :: e in Acceptances(Attempts([one], startedAt)) ==> e.at == one.storeAt;
  }

  /** With one clock reading per delivery: a message created at most 29 minutes after the first pass of its id
      does not pass. */
  lemma PassesAtMostOnce(deliveries: seq<Delivery>, startedAt: Time, i: nat, j: nat)
    requires Run(deliveries, startedAt, 0) && i < j < |deliveries|
    requires Passes(deliveries, startedAt, i) && deliveries[i].id == deliveries[j].id != ""
    requires deliveries[j].created.Some?
    requires deliveries[j].created.value * 1_000_000 <= deliveries[i].storeAt + 1_740_000_000_000
    ensures !Passes(deliveries, startedAt, j)
  {
    if Passes(deliveries, startedAt, j) { SecondPass(deliveries, startedAt, 0, i, j); }
  }
}
