/** The event bus: a cooldown per event type that keeps only the last delivery of each type, against
    the complete list of publications, and the fan-out to the subscribed handlers. */
module Bus {
  import opened Words

  type Time = int
  type Handler = nat

  const SECOND: Time := 1_000_000_000

  datatype Kind =
    | DeviceJoin | DeviceLeave | WANIPChange | HighCPU | HighMemory
    | IfaceDown | IfaceUp | RebootDetected | ServiceDown | ServiceUp

  datatype Payload =
    | NoPayload
    | DevicePayload(mac: string, ip: string, hostname: string, vendor: string)
    | WANIPPayload(oldIP: string, newIP: string, iface: string)
    | CPUPayload(percent: real, duration: Time)
    | MemPayload(percent: real, freeMB: int)
    | ServicePayload(name: string)
    | IfacePayload(name: string, state: string)

  datatype Event = Event(kind: Kind, payload: Payload)

  /** One call of Publish and its clock readings: one for the cooldown test, one for the record. */
  datatype Publication = Publication(event: Event, testAt: Time, storeAt: Time)

  datatype Delivery = Delivery(event: Event, at: Time)

  type Cooldowns = map<Kind, Time>

  // ---------------------------------------------------------------- the unbounded log

  /** The rule: delivered unless its type has a cooldown and was delivered less than that long ago. */
  predicate Delivers(log: seq<Delivery>, cooldowns: Cooldowns, kind: Kind, now: Time) {
    kind in cooldowns ==> forall d :: d in log && d.event.kind == kind ==> cooldowns[kind] <= now - d.at
  }

  function Deliver(log: seq<Delivery>, cooldowns: Cooldowns, p: Publication): seq<Delivery> {
    if Delivers(log, cooldowns, p.event.kind, p.testAt) then log + [Delivery(p.event, p.storeAt)] else log
  }

  function Deliveries(cooldowns: Cooldowns, published: seq<Publication>): seq<Delivery> {
    if published == [] then []
    else Deliver(Deliveries(cooldowns, published[..|published| - 1]), cooldowns, published[|published| - 1])
  }

  lemma DeliveriesOne(cooldowns: Cooldowns, published: seq<Publication>, p: Publication)
    ensures Deliveries(cooldowns, published + [p]) == Deliver(Deliveries(cooldowns, published), cooldowns, p)
  {
    assert (published + [p])[..|published|] == published;
  }

  ghost predicate Timely(published: seq<Publication>) {
    && (forall i :: 0 <= i < |published| ==> published[i].testAt <= published[i].storeAt)
    && (forall i, j :: 0 <= i < j < |published| ==> published[i].storeAt <= published[j].testAt)
  }

  ghost predicate Spaced(log: seq<Delivery>, kind: Kind, cooldown: Time) {
    forall i, j :: 0 <= i < j < |log| && log[i].event.kind == kind && log[j].event.kind == kind ==>
      log[i].at + cooldown <= log[j].at
  }

  /** Deliveries of a cooled-down type are at least its cooldown apart. */
  lemma {:induction false} DeliveriesSpaced(cooldowns: Cooldowns, published: seq<Publication>, kind: Kind)
    requires Timely(published) && kind in cooldowns
    ensures Spaced(Deliveries(cooldowns, published), kind, cooldowns[kind])
    decreases |published|
  {
    if published != [] {
      var rest, p := published[..|published| - 1], published[|published| - 1];
      DeliveriesSpaced(cooldowns, rest, kind);
      assert p.testAt <= p.storeAt;
      OneMoreSpaced(Deliveries(cooldowns, rest), cooldowns, p, kind);
    }
  }

  lemma OneMoreSpaced(log: seq<Delivery>, cooldowns: Cooldowns, p: Publication, kind: Kind)
    requires kind in cooldowns && Spaced(log, kind, cooldowns[kind]) && p.testAt <= p.storeAt
    ensures Spaced(Deliver(log, cooldowns, p), kind, cooldowns[kind])
  {
    forall i | 0 <= i < |log| && Delivers(log, cooldowns, kind, p.testAt) && log[i].event.kind == kind
      ensures log[i].at + cooldowns[kind] <= p.storeAt
    {
      assert log[i] in log;
    }
  }

  /** The events of the given types, in order, as published and as delivered. */
  function PublishedOf(published: seq<Publication>, kinds: set<Kind>): seq<Event> {
    if published == [] then []
    else
      var rest, e := PublishedOf(published[..|published| - 1], kinds), published[|published| - 1].event;
      if e.kind in kinds then rest + [e] else rest
  }

  lemma {:induction false} PublishedIn(published: seq<Publication>, kinds: set<Kind>, k: nat)
    requires k < |published| && published[k].event.kind in kinds
    ensures published[k].event in PublishedOf(published, kinds)
    decreases |published|
  {
    if k < |published| - 1 { PublishedIn(published[..|published| - 1], kinds, k); }
  }

  function DeliveredOf(log: seq<Delivery>, kinds: set<Kind>): seq<Event> {
    if log == [] then []
    else
      var rest, e := DeliveredOf(log[..|log| - 1], kinds), log[|log| - 1].event;
      if e.kind in kinds then rest + [e] else rest
  }

  /** Of types without a cooldown nothing is ever dropped, whatever else is published. */
  lemma {:induction false} NothingDropped(cooldowns: Cooldowns, published: seq<Publication>, kinds: set<Kind>)
    requires kinds !! cooldowns.Keys
    ensures DeliveredOf(Deliveries(cooldowns, published), kinds) == PublishedOf(published, kinds)
    decreases |published|
  {
    if published != [] {
      var rest, p := published[..|published| - 1], published[|published| - 1];
      NothingDropped(cooldowns, rest, kinds);
      var log := Deliveries(cooldowns, rest);
      var d := Delivery(p.event, p.storeAt);
      assert (log + [d])[..|log|] == log;
      if p.event.kind in kinds {
        assert p.event.kind !in cooldowns.Keys;
      }
    }
  }

  /** When events of one kind were published. */
  function TimesOf(published: seq<Publication>, kind: Kind): seq<Time> {
    if published == [] then []
    else
      var rest, p := TimesOf(published[..|published| - 1], kind), published[|published| - 1];
      if p.event.kind == kind then rest + [p.testAt] else rest
  }

  function DeliveredTimes(log: seq<Delivery>, kind: Kind): seq<Time> {
    if log == [] then []
    else
      var rest, d := DeliveredTimes(log[..|log| - 1], kind), log[|log| - 1];
      if d.event.kind == kind then rest + [d.at] else rest
  }

  /** What a cooldown keeps of a list of times: each that is late enough after the last one kept. */
  function Kept(times: seq<Time>, cooldown: Time): seq<Time> {
    if times == [] then []
    else
      var rest, t := Kept(times[..|times| - 1], cooldown), times[|times| - 1];
      if rest == [] || rest[|rest| - 1] + cooldown <= t then rest + [t] else rest
  }

  lemma KeptOne(times: seq<Time>, t: Time, cooldown: Time)
    ensures var rest := Kept(times, cooldown);
            Kept(times + [t], cooldown) == if rest == [] || rest[|rest| - 1] + cooldown <= t then rest + [t] else rest
  {
    assert (times + [t])[..|times|] == times;
  }

  /** The publication was made with one clock reading. */
  predicate SingleReading(p: Publication) {
    p.testAt == p.storeAt
  }

  lemma DeliversOne(log: seq<Delivery>, d: Delivery, cooldowns: Cooldowns, kind: Kind, now: Time)
    requires kind in cooldowns
    ensures Delivers(log + [d], cooldowns, kind, now) <==>
            Delivers(log, cooldowns, kind, now) && (d.event.kind == kind ==> cooldowns[kind] <= now - d.at)
  {
    assert d in log + [d];
  }

  ghost predicate InOrder(log: seq<Delivery>) {
    log == [] ||
    var rest, last := log[..|log| - 1], log[|log| - 1];
    InOrder(rest) && forall d :: d in rest ==> d.at <= last.at
  }

  /** Of deliveries in order the last one of a type decides. */
  lemma {:induction false} LastDecides(log: seq<Delivery>, cooldowns: Cooldowns, kind: Kind, now: Time)
    requires InOrder(log) && kind in cooldowns
    ensures var times := DeliveredTimes(log, kind);
            Delivers(log, cooldowns, kind, now) <==> times == [] || times[|times| - 1] + cooldowns[kind] <= now
    decreases |log|
  {
    if log != [] {
      var rest, last := log[..|log| - 1], log[|log| - 1];
      LastDecides(rest, cooldowns, kind, now);
      assert log == rest + [last];
      DeliversOne(rest, last, cooldowns, kind, now);
    }
  }

  lemma {:induction false} LogInOrder(cooldowns: Cooldowns, published: seq<Publication>, now: Time)
    requires Timely(published) && forall p :: p in published ==> p.storeAt <= now
    ensures InOrder(Deliveries(cooldowns, published))
    ensures forall d :: d in Deliveries(cooldowns, published) ==> d.at <= now
    decreases |published|
  {
    if published != [] {
      var rest, p := published[..|published| - 1], published[|published| - 1];
      assert p in published;
      forall q | q in rest ensures q.storeAt <= p.storeAt {
        var k :| 0 <= k < |rest| && rest[k] == q;
        assert published[k] == q && published[k].storeAt <= p.testAt;
      }
      LogInOrder(cooldowns, rest, p.storeAt);
      var log, d := Deliveries(cooldowns, rest), Delivery(p.event, p.storeAt);
      assert (log + [d])[..|log|] == log;
    }
  }

  lemma DeliveredTimesOne(log: seq<Delivery>, d: Delivery, kind: Kind)
    ensures DeliveredTimes(log + [d], kind) ==
            if d.event.kind == kind then DeliveredTimes(log, kind) + [d.at] else DeliveredTimes(log, kind)
  {
    assert (log + [d])[..|log|] == log;
  }

  /** The deliveries of a cooled-down type are what its cooldown keeps of its publications. */
  lemma {:induction false} DeliveredIsKept(cooldowns: Cooldowns, published: seq<Publication>, kind: Kind, now: Time)
    requires Timely(published) && kind in cooldowns
    requires forall p :: p in published ==> SingleReading(p) && p.storeAt <= now
    ensures DeliveredTimes(Deliveries(cooldowns, published), kind) == Kept(TimesOf(published, kind), cooldowns[kind])
    decreases |published|
  {
    if published != [] {
      var rest, p := published[..|published| - 1], published[|published| - 1];
      DeliveredIsKept(cooldowns, rest, kind, now);
      LogInOrder(cooldowns, rest, now);
      assert p in published;
      OneMoreKept(Deliveries(cooldowns, rest), TimesOf(rest, kind), cooldowns, p, kind);
      assert Deliveries(cooldowns, published) == Deliver(Deliveries(cooldowns, rest), cooldowns, p);
    }
  }

  lemma OneMoreKept(log: seq<Delivery>, times: seq<Time>, cooldowns: Cooldowns, p: Publication, kind: Kind)
    requires InOrder(log) && kind in cooldowns && SingleReading(p)
    requires DeliveredTimes(log, kind) == Kept(times, cooldowns[kind])
    ensures DeliveredTimes(Deliver(log, cooldowns, p), kind) ==
            Kept(if p.event.kind == kind then times + [p.testAt] else times, cooldowns[kind])
  {
    DeliveredTimesOne(log, Delivery(p.event, p.storeAt), kind);
    LastDecides(log, cooldowns, kind, p.testAt);
    KeptOne(times, p.testAt, cooldowns[kind]);
  }

  // ---------------------------------------------------------------- the bus

  /** The map holds the last delivery of every cooled-down type. */
  ghost predicate Fits(lastAt: map<Kind, Time>, log: seq<Delivery>, cooldowns: Cooldowns, clock: Time) {
    && (forall kind :: kind in lastAt ==> exists d :: d in log && d.event.kind == kind && d.at == lastAt[kind])
    && (forall d :: d in log && d.event.kind in cooldowns ==> d.event.kind in lastAt && d.at <= lastAt[d.event.kind])
    && (forall d :: d in log ==> d.at <= clock)
  }

  lemma FitsMeans(lastAt: map<Kind, Time>, log: seq<Delivery>, cooldowns: Cooldowns, clock: Time, kind: Kind, now: Time)
    requires Fits(lastAt, log, cooldowns, clock) && kind in cooldowns
    ensures Delivers(log, cooldowns, kind, now) <==> (kind in lastAt ==> cooldowns[kind] <= now - lastAt[kind])
  {
    if kind in lastAt {
      var d :| d in log && d.event.kind == kind && d.at == lastAt[kind];
    }
  }

  lemma FitsGrows(lastAt: map<Kind, Time>, log: seq<Delivery>, cooldowns: Cooldowns, clock: Time,
                  event: Event, at: Time)
    requires Fits(lastAt, log, cooldowns, clock) && clock <= at
    ensures Fits(if event.kind in cooldowns then lastAt[event.kind := at] else lastAt,
                 log + [Delivery(event, at)], cooldowns, at)
  {
    var grown, d := log + [Delivery(event, at)], Delivery(event, at);
    assert d in grown;
    var after := if event.kind in cooldowns then lastAt[event.kind := at] else lastAt;
    forall kind | kind in after ensures exists d :: d in grown && d.event.kind == kind && d.at == after[kind] {
      if kind == event.kind && kind in cooldowns {
        assert d.event.kind == kind && d.at == after[kind];
      } else {
        var e :| e in log && e.event.kind == kind && e.at == lastAt[kind];
        assert e in grown;
      }
    }
  }

  /** One handler call per handler, in order of subscription. */
  function FanOut(handlers: seq<Handler>, event: Event): (r: seq<(Handler, Event)>)
    ensures |r| == |handlers| && forall i :: 0 <= i < |handlers| ==> r[i] == (handlers[i], event)
  {
    seq(|handlers|, i requires 0 <= i < |handlers| => (handlers[i], event))
  }

  class EventBus {
    var handlers: seq<Handler>
    const cooldowns: Cooldowns
    var lastAt: map<Kind, Time>
    /** Handler calls made so far. */
    var calls: seq<(Handler, Event)>
    /** Every publication ever made, and the last clock reading. */
    ghost var published: seq<Publication>
    ghost var clock: Time

    ghost predicate Valid()
      reads this
    {
      && Fits(lastAt, Deliveries(cooldowns, published), cooldowns, clock)
      && Timely(published) && forall p :: p in published ==> p.storeAt <= clock
    }

    /** Alerts cool down for five minutes, or as long as configured; interface changes for 30 s. The
        product is a 64-bit one. */
    constructor (cooldownSecs: int, ghost start: Time)
      ensures Valid() && published == [] && calls == [] && handlers == [] && clock == start
      ensures cooldowns.Keys == {HighCPU, HighMemory, IfaceDown, IfaceUp}
      ensures cooldowns[IfaceDown] == cooldowns[IfaceUp] == 30_000_000_000
      ensures cooldowns[HighCPU] == cooldowns[HighMemory]
      ensures cooldownSecs <= 0 ==> cooldowns[HighCPU] == 300_000_000_000
      ensures 0 < cooldownSecs <= 9_223_372_036 ==> cooldowns[HighCPU] == cooldownSecs * 1_000_000_000
      ensures cooldowns == DefaultCooldowns(cooldownSecs)
    {
      var cd := map[HighCPU := 300 * SECOND, HighMemory := 300 * SECOND,
                    IfaceDown := 30 * SECOND, IfaceUp := 30 * SECOND];
      if cooldownSecs > 0 {
        var d := ToInt64(cooldownSecs * 1_000_000_000 % TWO_64);
        cd := cd[HighCPU := d];
        cd := cd[HighMemory := d];
      }
      cooldowns := cd;
      handlers, calls, lastAt := [], [], map[];
      published, clock := [], start;
    }

    method Subscribe(h: Handler)
      requires Valid()
      modifies this`handlers
      ensures Valid() && handlers == old(handlers) + [h]
    {
      handlers := handlers + [h];
    }

    /** Delivered exactly when the complete log allows it: then every subscribed handler is called once,
        in order; otherwise none is. */
    method Publish(event: Event, testAt: Time, storeAt: Time)
      requires Valid() && clock <= testAt <= storeAt
      modifies this`lastAt, this`calls, this`published, this`clock
      ensures Valid() && clock == storeAt
      ensures published == old(published) + [Publication(event, testAt, storeAt)]
      ensures calls == if Delivers(Deliveries(cooldowns, old(published)), cooldowns, event.kind, testAt)
                       then old(calls) + FanOut(handlers, event) else old(calls)
      ensures old(calls) <= calls && (handlers != [] && |calls| == |old(calls)| ==> event.kind in cooldowns)
      ensures |calls| == |old(calls)| || |calls| == |old(calls)| + |handlers|
      ensures |calls| > |old(calls)| ==>
                forall i :: 0 <= i < |handlers| ==> calls[|old(calls)| + i] == (handlers[i], event)
      ensures handlers != [] && event.kind in cooldowns ==>
                (|calls| > |old(calls)| <==>
                 forall d :: d in Deliveries(cooldowns, old(published)) && d.event.kind == event.kind ==>
                   testAt - d.at >= cooldowns[event.kind])
    {
      var kind := event.kind;
      ghost var log := Deliveries(cooldowns, published);
      DeliveriesOne(cooldowns, published, Publication(event, testAt, storeAt));
      FitsGrows(lastAt, log, cooldowns, clock, event, storeAt);
      published := published + [Publication(event, testAt, storeAt)];
      if kind in cooldowns {
        FitsMeans(lastAt, log, cooldowns, clock, kind, testAt);
        if kind in lastAt && testAt - lastAt[kind] < cooldowns[kind] {
          clock := storeAt;
          return;
        }
        lastAt := lastAt[kind := storeAt];
      }
      clock := storeAt;
      CallHandlers(event);
    }

    method CallHandlers(event: Event)
      modifies this`calls
      ensures calls == old(calls) + FanOut(handlers, event)
    {
      for i := 0 to |handlers|
        invariant calls == old(calls) + FanOut(handlers, event)[..i]
      {
        calls := calls + [(handlers[i], event)];
      }
    }
  }

  /** Device, address, service and reboot events never cool down. */
  function DefaultCooldowns(cooldownSecs: int): (cd: Cooldowns)
    ensures cd.Keys == {HighCPU, HighMemory, IfaceDown, IfaceUp}
    ensures cooldownSecs <= 0 ==> cd[HighCPU] == cd[HighMemory] == 300_000_000_000
    ensures 0 < cooldownSecs <= 9_223_372_036 ==> cd[HighCPU] == cd[HighMemory] == cooldownSecs * 1_000_000_000
    ensures cd[IfaceDown] == cd[IfaceUp] == 30_000_000_000
  {
    var alert := if cooldownSecs <= 0 then 300 * SECOND else ToInt64(cooldownSecs * 1_000_000_000 % TWO_64);
    map[HighCPU := alert, HighMemory := alert, IfaceDown := 30 * SECOND, IfaceUp := 30 * SECOND]
  }
}
