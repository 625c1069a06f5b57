/** Interface up and down events. Nothing is announced when a state follows an empty one, and the two
    types of event share a cooldown over all interfaces, so that the bus may drop them: exactly when the
    delivered events still show the stored states. */
module Interfaces {
  import opened Options
  import opened Text
  import opened Bus
  import Changes

  const IFACES: set<Kind> := {IfaceDown, IfaceUp}

  // ---------------------------------------------------------------- what the detector announces

  /** One state read of one interface, upper case. */
  datatype Reading = Reading(name: string, state: string)

  /** The states read of one interface. */
  function SeenOf(readings: seq<Reading>, name: string): seq<string> {
    if readings == [] then []
    else
      var rest, r := SeenOf(readings[..|readings| - 1], name), readings[|readings| - 1];
      if r.name == name then rest + [r.state] else rest
  }

  /** The state stored for one interface. */
  function Stored(readings: seq<Reading>, name: string): Option<string> {
    var seen := SeenOf(readings, name);
    if seen == [] then None else Some(seen[|seen| - 1])
  }

  function IfaceEvent(name: string, cur: string): Event {
    Event(if cur == "UP" then IfaceUp else IfaceDown, IfacePayload(name, Lower(cur)))
  }

  /** The events after a state was read: one more if it is a change. */
  function AfterIface(es: seq<Event>, prev: Option<string>, name: string, cur: string): seq<Event> {
    if prev.Some? && prev.value != "" && prev.value != cur then es + [IfaceEvent(name, cur)] else es
  }

  /** All interface events a history of readings leads to. */
  function EventsOf(readings: seq<Reading>): seq<Event> {
    if readings == [] then []
    else
      var rest, r := readings[..|readings| - 1], readings[|readings| - 1];
      AfterIface(EventsOf(rest), Stored(rest, r.name), r.name, r.state)
  }

  lemma OneReading(readings: seq<Reading>, r: Reading, name: string)
    ensures SeenOf(readings + [r], name) ==
            if r.name == name then SeenOf(readings, name) + [r.state] else SeenOf(readings, name)
    ensures EventsOf(readings + [r]) == AfterIface(EventsOf(readings), Stored(readings, r.name), r.name, r.state)
  {
    assert (readings + [r])[..|readings|] == readings;
  }

  ghost predicate UpperCase(readings: seq<Reading>) {
    forall r :: r in readings ==> Upper(r.state) == r.state
  }

  /** The states announced over the first n states seen of an interface (upper case): every change, none
      from an empty state. */
  function Turns(seen: seq<string>, n: nat): seq<string>
    requires n <= |seen|
  {
    if n <= 1 then []
    else
      var rest, old_, new_ := Turns(seen, n - 1), seen[n - 2], seen[n - 1];
      if old_ != "" && old_ != new_ then rest + [Lower(new_)] else rest
  }

  lemma {:induction false} TurnsPrefix(seen: seq<string>, x: string, n: nat)
    requires n <= |seen|
    ensures Turns(seen + [x], n) == Turns(seen, n)
    decreases n
  {
    if n > 1 { TurnsPrefix(seen, x, n - 1); }
  }

  lemma TurnsOne(seen: seq<string>, x: string)
    ensures Turns(seen + [x], |seen + [x]|) ==
            if seen != [] && seen[|seen| - 1] != "" && seen[|seen| - 1] != x
            then Turns(seen, |seen|) + [Lower(x)] else Turns(seen, |seen|)
  {
    TurnsPrefix(seen, x, |seen|);
    var n := |seen| + 1;
    assert Turns(seen + [x], n - 1) == Turns(seen, n - 1);
    if n > 1 { assert (seen + [x])[n - 2] == seen[n - 2] && (seen + [x])[n - 1] == x; }
  }

  /** The state one arrives at by following the announcements. */
  function Shown(first: string, states: seq<string>): string {
    if states == [] then first else states[|states| - 1]
  }

  /** The rule for one interface: the announcements always lead to the current state exactly when none
      follows an empty one. */
  lemma TurnsShowIff(seen: seq<string>)
    requires seen != [] && forall s :: s in seen ==> Upper(s) == s
    ensures (forall n: nat :: 0 < n <= |seen| ==> TurnsLead(seen, n)) <==> Changes.NeverReturns(seen, |seen|)
  {
    if Changes.NeverReturns(seen, |seen|) {
      forall n: nat | 0 < n <= |seen| ensures TurnsLead(seen, n) { TurnsShow(seen, n); }
    } else {
      var i: nat :| 0 < i < |seen| && seen[i - 1] == "" && seen[i] != "";
      assert Turns(seen, i + 1) == Turns(seen, i);
      assert !TurnsLead(seen, i) || !TurnsLead(seen, i + 1);
    }
  }

  ghost predicate TurnsLead(seen: seq<string>, n: nat)
    requires 0 < n <= |seen|
  {
    Shown(Lower(seen[0]), Turns(seen, n)) == Lower(seen[n - 1])
  }

  lemma {:induction false} TurnsShow(seen: seq<string>, n: nat)
    requires 0 < n <= |seen| && Changes.NeverReturns(seen, n)
    ensures TurnsLead(seen, n)
    decreases n
  {
    if n > 1 { TurnsShow(seen, n - 1); }
  }

  /** What an event list says about one interface. */
  function Said(es: seq<Event>, name: string): seq<string> {
    if es == [] then []
    else
      var rest, e := Said(es[..|es| - 1], name), es[|es| - 1];
      if Naming(e, name) then rest + [e.payload.state] else rest
  }

  predicate Naming(e: Event, name: string) {
    e.payload.IfacePayload? && e.payload.name == name
  }

  lemma SaidOne(es: seq<Event>, e: Event, name: string)
    ensures Said(es + [e], name) == if Naming(e, name) then Said(es, name) + [e.payload.state] else Said(es, name)
  {
    assert (es + [e])[..|es|] == es;
  }

  /** What the events say of an interface are the turns of the states read of it. */
  lemma {:induction false} SaidIsTurns(readings: seq<Reading>, name: string)
    ensures Said(EventsOf(readings), name) == Turns(SeenOf(readings, name), |SeenOf(readings, name)|)
    decreases |readings|
  {
    if readings != [] {
      var rest, r := readings[..|readings| - 1], readings[|readings| - 1];
      SaidIsTurns(rest, name);
      assert readings == rest + [r];
      OneReading(rest, r, name);
      SaidAfter(EventsOf(rest), Stored(rest, r.name), r.name, r.state, name);
      if r.name == name { TurnsOne(SeenOf(rest, name), r.state); }
    }
  }

  lemma SaidAfter(es: seq<Event>, prev: Option<string>, name: string, cur: string, other: string)
    ensures Said(AfterIface(es, prev, name, cur), other) ==
            if name == other && prev.Some? && prev.value != "" && prev.value != cur
            then Said(es, other) + [Lower(cur)] else Said(es, other)
  {
    SaidOne(es, IfaceEvent(name, cur), other);
  }

  /** The event tells the state of the reading in small letters, and is an up event if and only if that is "UP". */
  ghost predicate Tells(e: Event, r: Reading) {
    && e.payload.IfacePayload? && e.payload.name == r.name && Spells(r.state, e.payload.state)
    && (e.kind == IfaceUp <==> r.state == ['U', 'P']) && (e.kind == IfaceDown <==> r.state != ['U', 'P'])
  }

  /** Every event tells the state of one of the readings. */
  lemma {:induction false} EventsTell(readings: seq<Reading>, e: Event)
    requires e in EventsOf(readings)
    ensures exists r :: r in readings && Tells(e, r)
    decreases |readings|
  {
    var rest, r := readings[..|readings| - 1], readings[|readings| - 1];
    if e in EventsOf(rest) {
      EventsTell(rest, e);
      var q :| q in rest && Tells(e, q);
      assert q in readings;
    } else {
      assert Tells(e, r);
    }
  }

  /** So an up event is one that says "up". */
  lemma UpSaysUp(readings: seq<Reading>, e: Event)
    requires e in EventsOf(readings) && UpperCase(readings)
    ensures e.payload.IfacePayload? && (e.kind == IfaceUp || e.kind == IfaceDown)
    ensures e.kind == IfaceUp <==> e.payload.state == ['u', 'p']
  {
    EventsTell(readings, e);
    var r :| r in readings && Tells(e, r);
    var said := e.payload.state;
    if said == ['u', 'p'] {
      assert said[0] == 'u' && said[1] == 'p';
      assert Upper(r.state)[0] == 'U' && Upper(r.state)[1] == 'P';
      assert r.state == ['U', 'P'];
    }
    if r.state == ['U', 'P'] { assert said == [said[0], said[1]]; }
  }

  lemma {:induction false} EventsName(readings: seq<Reading>)
    ensures forall e :: e in EventsOf(readings) ==> e.payload.IfacePayload?
    decreases |readings|
  {
    if readings != [] { EventsName(readings[..|readings| - 1]); }
  }

  // ---------------------------------------------------------------- what the bus drops

  /** Publication k passes the cooldown test. */
  ghost predicate DeliversAt(cooldowns: Cooldowns, published: seq<Publication>, k: nat)
    requires k < |published|
  {
    Delivers(Deliveries(cooldowns, published[..k]), cooldowns, published[k].event.kind, published[k].testAt)
  }

  ghost predicate NoneDropped(cooldowns: Cooldowns, published: seq<Publication>, kind: Kind) {
    forall k: nat :: k < |published| && published[k].event.kind == kind ==> DeliversAt(cooldowns, published, k)
  }

  /** Publications of the type are at least its cooldown apart. */
  ghost predicate FarApart(published: seq<Publication>, kind: Kind, cooldown: Time) {
    forall j: nat, k: nat :: j < k < |published| && OfKind(published, j, kind) && OfKind(published, k, kind) ==>
      published[j].storeAt + cooldown <= published[k].testAt
  }

  predicate OfKind(published: seq<Publication>, k: nat, kind: Kind) {
    k < |published| && published[k].event.kind == kind
  }

  lemma LogStep(cooldowns: Cooldowns, published: seq<Publication>, k: nat)
    requires k < |published|
    ensures Deliveries(cooldowns, published[..k + 1]) ==
            Deliver(Deliveries(cooldowns, published[..k]), cooldowns, published[k])
  {
    assert published[..k + 1][..k] == published[..k];
  }

  /** A delivery is one of the publications. */
  lemma {:induction false} LoggedIsPublished(cooldowns: Cooldowns, published: seq<Publication>, n: nat, d: Delivery)
    returns (j: nat)
    requires n <= |published| && d in Deliveries(cooldowns, published[..n])
    ensures j < n && published[j].event == d.event && published[j].storeAt == d.at
    decreases n
  {
    LogStep(cooldowns, published, n - 1);
    if d in Deliveries(cooldowns, published[..n - 1]) {
      j := LoggedIsPublished(cooldowns, published, n - 1, d);
    } else {
      j := n - 1;
    }
  }

  /** What was delivered stays in the log. */
  lemma {:induction false} DeliveredIsLogged(cooldowns: Cooldowns, published: seq<Publication>, j: nat, n: nat)
    requires j < n <= |published| && DeliversAt(cooldowns, published, j)
    ensures Delivery(published[j].event, published[j].storeAt) in Deliveries(cooldowns, published[..n])
    decreases n
  {
    LogStep(cooldowns, published, n - 1);
    if j < n - 1 { DeliveredIsLogged(cooldowns, published, j, n - 1); }
  }

  /** The bus drops none of a type exactly when its publications are at least the cooldown apart. */
  lemma NoneDroppedIff(cooldowns: Cooldowns, published: seq<Publication>, kind: Kind)
    requires kind in cooldowns
    ensures NoneDropped(cooldowns, published, kind) <==> FarApart(published, kind, cooldowns[kind])
  {
    if FarApart(published, kind, cooldowns[kind]) {
      forall k: nat | k < |published| && published[k].event.kind == kind ensures DeliversAt(cooldowns, published, k) {
        forall d | d in Deliveries(cooldowns, published[..k]) && d.event.kind == kind
          ensures cooldowns[kind] <= published[k].testAt - d.at
        {
          var j := LoggedIsPublished(cooldowns, published, k, d);
          assert OfKind(published, j, kind) && OfKind(published, k, kind);
        }
      }
    }
    if NoneDropped(cooldowns, published, kind) {
      forall j: nat, k: nat | j < k < |published| && OfKind(published, j, kind) && OfKind(published, k, kind)
        ensures published[j].storeAt + cooldowns[kind] <= published[k].testAt
      {
        assert DeliversAt(cooldowns, published, j) && DeliversAt(cooldowns, published, k);
        DeliveredIsLogged(cooldowns, published, j, k);
      }
    }
  }

  // ---------------------------------------------------------------- what the delivered events show

  /** Of the first n publications: what was published, and what of it was delivered, about one interface. */
  function PublishedStates(published: seq<Publication>, n: nat, name: string): seq<string>
    requires n <= |published|
  {
    Said(PublishedOf(published[..n], IFACES), name)
  }

  function DeliveredStates(cooldowns: Cooldowns, published: seq<Publication>, n: nat, name: string): seq<string>
    requires n <= |published|
  {
    Said(DeliveredOf(Deliveries(cooldowns, published[..n]), IFACES), name)
  }

  lemma PublishedStep(published: seq<Publication>, k: nat, name: string)
    requires k < |published|
    ensures PublishedStates(published, k + 1, name) ==
            if Concerns(published[k].event, name)
            then PublishedStates(published, k, name) + [published[k].event.payload.state]
            else PublishedStates(published, k, name)
  {
    assert published[..k + 1][..k] == published[..k];
    SaidOne(PublishedOf(published[..k], IFACES), published[k].event, name);
  }

  lemma DeliveredStep(cooldowns: Cooldowns, published: seq<Publication>, k: nat, name: string)
    requires k < |published|
    ensures DeliveredStates(cooldowns, published, k + 1, name) ==
            if Concerns(published[k].event, name) && DeliversAt(cooldowns, published, k)
            then DeliveredStates(cooldowns, published, k, name) + [published[k].event.payload.state]
            else DeliveredStates(cooldowns, published, k, name)
  {
    LogStep(cooldowns, published, k);
    var log, d := Deliveries(cooldowns, published[..k]), Delivery(published[k].event, published[k].storeAt);
    assert (log + [d])[..|log|] == log;
    SaidOne(DeliveredOf(log, IFACES), published[k].event, name);
  }

  predicate Concerns(e: Event, name: string) {
    e.kind in IFACES && Naming(e, name)
  }

  lemma {:induction false} StatesPrefix(published: seq<Publication>, k: nat, n: nat, name: string)
    requires k <= n <= |published|
    ensures PublishedStates(published, k, name) <= PublishedStates(published, n, name)
    decreases n
  {
    if k < n {
      StatesPrefix(published, k, n - 1, name);
      PublishedStep(published, n - 1, name);
    }
  }

  /** While one thing is said of an interface, at most that is delivered. */
  lemma {:induction false} Between(cooldowns: Cooldowns, published: seq<Publication>, k: nat, n: nat, name: string)
    requires k <= n <= |published|
    ensures PublishedStates(published, k, name) <= PublishedStates(published, n, name)
    ensures var p, q := PublishedStates(published, k, name), PublishedStates(published, n, name);
            var d, e := DeliveredStates(cooldowns, published, k, name), DeliveredStates(cooldowns, published, n, name);
            && (p == q ==> d == e)
            && (|q| == |p| + 1 ==> e == d || e == d + [q[|p|]])
    decreases n
  {
    StatesPrefix(published, k, n, name);
    if k < n {
      Between(cooldowns, published, k, n - 1, name);
      PublishedStep(published, n - 1, name);
      DeliveredStep(cooldowns, published, n - 1, name);
    }
  }

  /** What was dropped is missing from then on. */
  lemma {:induction false} DropIsMissing(cooldowns: Cooldowns, published: seq<Publication>, k: nat, n: nat,
                                         name: string)
    requires k < n <= |published| && Concerns(published[k].event, name) && !DeliversAt(cooldowns, published, k)
    ensures |DeliveredStates(cooldowns, published, n, name)| < |PublishedStates(published, n, name)|
    decreases n
  {
    PublishedStep(published, n - 1, name);
    DeliveredStep(cooldowns, published, n - 1, name);
    if k < n - 1 {
      DropIsMissing(cooldowns, published, k, n - 1, name);
    } else {
      NoMoreDelivered(cooldowns, published, k, name);
    }
  }

  lemma {:induction false} NoMoreDelivered(cooldowns: Cooldowns, published: seq<Publication>, n: nat, name: string)
    requires n <= |published|
    ensures |DeliveredStates(cooldowns, published, n, name)| <= |PublishedStates(published, n, name)|
    decreases n
  {
    if n > 0 {
      NoMoreDelivered(cooldowns, published, n - 1, name);
      PublishedStep(published, n - 1, name);
      DeliveredStep(cooldowns, published, n - 1, name);
    }
  }

  lemma {:induction false} AllDeliveredShow(cooldowns: Cooldowns, published: seq<Publication>, n: nat, name: string)
    requires NoneDropped(cooldowns, published, IfaceUp) && NoneDropped(cooldowns, published, IfaceDown)
    requires n <= |published|
    ensures DeliveredStates(cooldowns, published, n, name) == PublishedStates(published, n, name)
    decreases n
  {
    if n > 0 {
      AllDeliveredShow(cooldowns, published, n - 1, name);
      PublishedStep(published, n - 1, name);
      DeliveredStep(cooldowns, published, n - 1, name);
      if published[n - 1].event.kind in IFACES { assert DeliversAt(cooldowns, published, n - 1); }
    }
  }

  /** After n publications the interface events are exactly those of the first i readings: a moment after
      reading i and before the next change. */
  ghost predicate Moment(published: seq<Publication>, n: nat, readings: seq<Reading>, i: nat)
    requires n <= |published| && i <= |readings|
  {
    PublishedOf(published[..n], IFACES) == EventsOf(readings[..i])
  }

  /** At such a moment the delivered events show the state stored for the interface. */
  ghost predicate RightAt(cooldowns: Cooldowns, published: seq<Publication>, n: nat,
                          readings: seq<Reading>, i: nat, name: string)
    requires n <= |published| && i <= |readings|
  {
    var seen := SeenOf(readings[..i], name);
    Moment(published, n, readings, i) && seen != [] ==>
      Shown(Lower(seen[0]), DeliveredStates(cooldowns, published, n, name)) == Lower(seen[|seen| - 1])
  }

  /** After every reading the delivered events show the stored state of every interface. */
  ghost predicate AlwaysShown(cooldowns: Cooldowns, published: seq<Publication>, readings: seq<Reading>) {
    forall i: nat, n: nat, name ::
      i <= |readings| && n <= |published| ==> RightAt(cooldowns, published, n, readings, i, name)
  }

  /** No state of any interface follows an empty one. */
  ghost predicate NoReturns(readings: seq<Reading>) {
    forall name :: Changes.NeverReturns(SeenOf(readings, name), |SeenOf(readings, name)|)
  }

  /** The moment just before the last interface event. */
  lemma {:induction false} Earlier(published: seq<Publication>, n: nat, es: seq<Event>, e: Event) returns (m: nat)
    requires n <= |published| && PublishedOf(published[..n], IFACES) == es + [e]
    ensures m <= n && PublishedOf(published[..m], IFACES) == es
    decreases n
  {
    assert n > 0;
    assert published[..n][..n - 1] == published[..n - 1];
    if published[n - 1].event.kind in IFACES {
      m := n - 1;
      assert es == (es + [e])[..|es|] == PublishedOf(published[..m], IFACES);
    } else {
      m := Earlier(published, n - 1, es, e);
    }
  }

  /** Some moment after the reading before. */
  lemma MomentBefore(published: seq<Publication>, n: nat, readings: seq<Reading>, i: nat) returns (m: nat)
    requires n <= |published| && 0 < i <= |readings| && Moment(published, n, readings, i)
    ensures m <= n && Moment(published, m, readings, i - 1)
  {
    var rest, r := readings[..i - 1], readings[i - 1];
    assert readings[..i] == rest + [r];
    OneReading(rest, r, r.name);
    if EventsOf(readings[..i]) == EventsOf(rest) {
      m := n;
    } else {
      m := Earlier(published, n, EventsOf(rest), IfaceEvent(r.name, r.state));
    }
  }

  /** There is a moment after every reading. */
  lemma {:induction false} MomentAfter(published: seq<Publication>, readings: seq<Reading>, i: nat) returns (n: nat)
    requires i <= |readings| && PublishedOf(published, IFACES) == EventsOf(readings)
    ensures n <= |published| && Moment(published, n, readings, i)
    decreases |readings| - i
  {
    if i == |readings| {
      n := |published|;
      assert published[..n] == published && readings[..i] == readings;
    } else {
      n := MomentAfter(published, readings, i + 1);
      n := MomentBefore(published, n, readings, i + 1);
    }
  }

  /** What one interface shows before and after a reading of it. */
  ghost predicate InStep(cooldowns: Cooldowns, published: seq<Publication>, n: nat, readings: seq<Reading>, i: nat,
                         name: string)
    requires n <= |published| && i <= |readings|
  {
    && DeliveredStates(cooldowns, published, n, name) == PublishedStates(published, n, name)
    && Changes.NeverReturns(SeenOf(readings[..i], name), |SeenOf(readings[..i], name)|)
  }

  /** As long as all is shown, everything has been delivered and no state has returned. */
  lemma {:induction false} ShownIsInStep(cooldowns: Cooldowns, published: seq<Publication>, n: nat,
                                         readings: seq<Reading>, i: nat, name: string)
    requires n <= |published| && i <= |readings| && Moment(published, n, readings, i)
    requires AlwaysShown(cooldowns, published, readings) && UpperCase(readings)
    ensures InStep(cooldowns, published, n, readings, i, name)
    decreases i
  {
    if i == 0 {
      assert readings[..0] == [];
      NoMoreDelivered(cooldowns, published, n, name);
    } else {
      var m := MomentBefore(published, n, readings, i);
      ShownIsInStep(cooldowns, published, m, readings, i - 1, name);
      Between(cooldowns, published, m, n, name);
      SaidOver(published, m, n, readings, i, name);
      if readings[i - 1].name == name && SeenOf(readings[..i - 1], name) != [] {
        assert RightAt(cooldowns, published, m, readings, i - 1, name);
        assert RightAt(cooldowns, published, n, readings, i, name);
        ReadInStep(cooldowns, published, m, n, readings, i, name);
      }
    }
  }

  /** What is said and seen of an interface from one reading to the next. */
  lemma {:induction false} SaidOver(published: seq<Publication>, m: nat, n: nat, readings: seq<Reading>, i: nat,
                                    name: string)
    requires m <= n <= |published| && 0 < i <= |readings|
    requires Moment(published, m, readings, i - 1) && Moment(published, n, readings, i)
    ensures var rest, r := readings[..i - 1], readings[i - 1];
            var seen, told := SeenOf(rest, name), PublishedStates(published, m, name);
            && SeenOf(readings[..i], name) == (if r.name == name then seen + [r.state] else seen)
            && PublishedStates(published, n, name) ==
               if r.name == name && seen != [] && seen[|seen| - 1] != "" && seen[|seen| - 1] != r.state
               then told + [Lower(r.state)] else told
  {
    var rest, r := readings[..i - 1], readings[i - 1];
    assert readings[..i] == rest + [r];
    SaidOneReading(rest, r, name);
  }

  lemma {:induction false} SaidOneReading(rest: seq<Reading>, r: Reading, name: string)
    ensures var seen, told := SeenOf(rest, name), Said(EventsOf(rest), name);
            && SeenOf(rest + [r], name) == (if r.name == name then seen + [r.state] else seen)
            && Said(EventsOf(rest + [r]), name) ==
               if r.name == name && seen != [] && seen[|seen| - 1] != "" && seen[|seen| - 1] != r.state
               then told + [Lower(r.state)] else told
  {
    OneReading(rest, r, name);
    SaidAfter(EventsOf(rest), Stored(rest, r.name), r.name, r.state, name);
  }

  lemma {:induction false} ReadInStep(cooldowns: Cooldowns, published: seq<Publication>, m: nat, n: nat,
                                      readings: seq<Reading>, i: nat, name: string)
    requires m <= n <= |published| && 0 < i <= |readings| && UpperCase(readings)
    requires Moment(published, m, readings, i - 1) && Moment(published, n, readings, i)
    requires readings[i - 1].name == name && SeenOf(readings[..i - 1], name) != []
    requires RightAt(cooldowns, published, m, readings, i - 1, name)
    requires RightAt(cooldowns, published, n, readings, i, name)
    requires InStep(cooldowns, published, m, readings, i - 1, name)
    ensures InStep(cooldowns, published, n, readings, i, name)
  {
    var seen := SeenOf(readings[..i - 1], name);
    Between(cooldowns, published, m, n, name);
    SaidOver(published, m, n, readings, i, name);
    SeenIsRead(readings[..i - 1], name, |seen| - 1);
    StaysInStep(seen, readings[i - 1].state,
                DeliveredStates(cooldowns, published, m, name), DeliveredStates(cooldowns, published, n, name),
                PublishedStates(published, n, name));
  }

  lemma StaysInStep(seen: seq<string>, cur: string, d: seq<string>, e: seq<string>, q: seq<string>)
    requires seen != [] && Upper(cur) == cur && Upper(seen[|seen| - 1]) == seen[|seen| - 1]
    requires Shown(Lower(seen[0]), d) == Lower(seen[|seen| - 1]) && Shown(Lower(seen[0]), e) == Lower(cur)
    requires Changes.NeverReturns(seen, |seen|)
    requires var last := seen[|seen| - 1];
             if last != "" && last != cur then q == d + [Lower(cur)] && (e == d || e == q) else q == d && e == d
    ensures e == q && Changes.NeverReturns(seen + [cur], |seen + [cur]|)
  {
    var last := seen[|seen| - 1];
    if last != "" && last != cur && e == d {
      LowerOfUpper(last, cur);
    }
    if last == "" && cur != "" {
      assert |Lower(cur)| == |Lower(last)|;
    }
  }

  lemma {:induction false} SeenIsRead(readings: seq<Reading>, name: string, k: nat)
    requires k < |SeenOf(readings, name)|
    ensures exists o :: o in readings && o.state == SeenOf(readings, name)[k]
    decreases |readings|
  {
    var rest, r := readings[..|readings| - 1], readings[|readings| - 1];
    assert r in readings;
    if k < |SeenOf(rest, name)| {
      SeenIsRead(rest, name, k);
      var o :| o in rest && o.state == SeenOf(rest, name)[k];
      assert o in readings;
    }
  }

  lemma {:induction false} SeenPrefix(readings: seq<Reading>, i: nat, name: string)
    requires i <= |readings|
    ensures SeenOf(readings[..i], name) <= SeenOf(readings, name)
    decreases |readings|
  {
    if i == |readings| {
      assert readings[..i] == readings;
    } else {
      SeenPrefix(readings[..|readings| - 1], i, name);
      assert readings[..|readings| - 1][..i] == readings[..i];
    }
  }

  /** All delivered and no returns: all is shown. */
  lemma DeliveredIsShown(cooldowns: Cooldowns, published: seq<Publication>, n: nat, readings: seq<Reading>, i: nat,
                         name: string)
    requires n <= |published| && i <= |readings|
    requires NoneDropped(cooldowns, published, IfaceUp) && NoneDropped(cooldowns, published, IfaceDown)
    requires NoReturns(readings)
    ensures RightAt(cooldowns, published, n, readings, i, name)
  {
    var seen := SeenOf(readings[..i], name);
    if Moment(published, n, readings, i) && seen != [] {
      AllDeliveredShow(cooldowns, published, n, name);
      SaidIsTurns(readings[..i], name);
      SeenPrefix(readings, i, name);
      TurnsShow(seen, |seen|);
    }
  }

  /** All shown: nothing was dropped. */
  lemma ShownIsDelivered(cooldowns: Cooldowns, published: seq<Publication>, readings: seq<Reading>, kind: Kind)
    requires PublishedOf(published, IFACES) == EventsOf(readings) && UpperCase(readings) && kind in IFACES
    requires AlwaysShown(cooldowns, published, readings)
    ensures NoneDropped(cooldowns, published, kind)
  {
    assert published[..|published|] == published && readings[..|readings|] == readings;
    forall k: nat | k < |published| && published[k].event.kind == kind ensures DeliversAt(cooldowns, published, k) {
      PublishedIn(published, IFACES, k);
      EventsName(readings);
      var name := published[k].event.payload.name;
      ShownIsInStep(cooldowns, published, |published|, readings, |readings|, name);
      if !DeliversAt(cooldowns, published, k) { DropIsMissing(cooldowns, published, k, |published|, name); }
    }
  }

  /** Exactly when handlers can see, after every reading, the state stored for every interface: no state of an
      interface ever follows an empty one, and no two publications of one of the two types come closer than its
      cooldown, on whatever interfaces. */
  lemma AlwaysShownIff(cooldowns: Cooldowns, published: seq<Publication>, readings: seq<Reading>)
    requires PublishedOf(published, IFACES) == EventsOf(readings) && UpperCase(readings)
    requires IfaceUp in cooldowns && IfaceDown in cooldowns
    ensures AlwaysShown(cooldowns, published, readings) <==>
            && NoReturns(readings)
            && FarApart(published, IfaceUp, cooldowns[IfaceUp])
            && FarApart(published, IfaceDown, cooldowns[IfaceDown])
  {
    NoneDroppedIff(cooldowns, published, IfaceUp);
    NoneDroppedIff(cooldowns, published, IfaceDown);
    var up, down := NoneDropped(cooldowns, published, IfaceUp), NoneDropped(cooldowns, published, IfaceDown);
    if NoReturns(readings) && up && down {
      forall i: nat, n: nat, name | i <= |readings| && n <= |published|
        ensures RightAt(cooldowns, published, n, readings, i, name)
      {
        DeliveredIsShown(cooldowns, published, n, readings, i, name);
      }
    }
    if AlwaysShown(cooldowns, published, readings) {
      ShownIsDelivered(cooldowns, published, readings, IfaceUp);
      ShownIsDelivered(cooldowns, published, readings, IfaceDown);
      assert published[..|published|] == published && readings[..|readings|] == readings;
      forall name ensures Changes.NeverReturns(SeenOf(readings, name), |SeenOf(readings, name)|) {
        ShownIsInStep(cooldowns, published, |published|, readings, |readings|, name);
      }
    }
  }

  /** A run in which it fails: an interface goes from up to a reading without a state and back up. The only
      event says that it has no state, and handlers go on seeing it down. */
  lemma {:induction false} ReturnIsMissed(cooldowns: Cooldowns, name: string, p: Publication, readings: seq<Reading>)
    requires IfaceUp in cooldowns && IfaceDown in cooldowns && p.event == IfaceEvent(name, "")
    requires readings == [Reading(name, "UP"), Reading(name, ""), Reading(name, "UP")]
    ensures p.event.kind == IfaceDown && Stored(readings, name) == Some("UP")
    ensures PublishedOf([p], IFACES) == EventsOf(readings)
    ensures FarApart([p], IfaceUp, cooldowns[IfaceUp]) && FarApart([p], IfaceDown, cooldowns[IfaceDown])
    ensures DeliveredStates(cooldowns, [p], |[p]|, name) == [""]
    ensures !AlwaysShown(cooldowns, [p], readings)
  {
    MissedEvents(name, readings);
    var n := |[p]|;
    assert [p][..0] == [] && [p][..n] == [p];
    DeliveredStep(cooldowns, [p], 0, name);
    assert DeliversAt(cooldowns, [p], 0);
    MissedIsWrong(cooldowns, [p], n, readings, name);
  }

  lemma {:induction false} MissedIsWrong(cooldowns: Cooldowns, published: seq<Publication>, n: nat,
                                         readings: seq<Reading>, name: string)
    requires n == |published| && PublishedOf(published, IFACES) == EventsOf(readings)
    requires SeenOf(readings, name) == ["UP", "", "UP"] && DeliveredStates(cooldowns, published, n, name) == [""]
    ensures !RightAt(cooldowns, published, n, readings, |readings|, name)
    ensures !AlwaysShown(cooldowns, published, readings)
  {
    assert published[..n] == published && readings[..|readings|] == readings;
    assert Moment(published, n, readings, |readings|);
    assert |Lower("UP")| == |"UP"|;
  }

  lemma MissedEvents(name: string, readings: seq<Reading>)
    requires readings == [Reading(name, "UP"), Reading(name, ""), Reading(name, "UP")]
    ensures SeenOf(readings, name) == ["UP", "", "UP"] && EventsOf(readings) == [IfaceEvent(name, "")]
  {
    var one, two := [Reading(name, "UP")], [Reading(name, "UP"), Reading(name, "")];
    assert [] + [Reading(name, "UP")] == one && one + [Reading(name, "")] == two;
    assert two + [Reading(name, "UP")] == readings;
    OneReading([], Reading(name, "UP"), name);
    OneReading(one, Reading(name, ""), name);
    OneReading(two, Reading(name, "UP"), name);
  }
}
