/** The receiving half of the WebSocket client: every data frame is acknowledged once, and events
    go through the duplicate memory into a bounded queue. */
module Intake {
  import opened Options
  import opened Words
  import opened Frames
  import opened Dedup

  const CAPACITY: nat := 64

  /** A decoded event envelope: its id, and the rest. */
  datatype Event = Event(id: string, body: bytes)

  /** An event that was put into the queue, and the clock reading its id was remembered under. */
  datatype Entry = Entry(event: Event, at: Time)

  /** The byte strings "type", "event", "biz_rt" with "0", and {"code":0}. */
  const TYPE: bytes := [0x74, 0x79, 0x70, 0x65]
  const EVENT: bytes := [0x65, 0x76, 0x65, 0x6e, 0x74]
  const BIZ_RT := FrameHeader([0x62, 0x69, 0x7a, 0x5f, 0x72, 0x74], [0x30])
  const OK_PAYLOAD: bytes := [0x7b, 0x22, 0x63, 0x6f, 0x64, 0x65, 0x22, 0x3a, 0x30, 0x7d]
  const METHOD_DATA: int32 := 1

  /** The value of the first header with this key; empty when there is none. */
  function GetHeader(hs: seq<FrameHeader>, key: bytes): (value: bytes)
    ensures (forall i :: 0 <= i < |hs| ==> hs[i].key != key) ==> value == []
    ensures (exists i :: 0 <= i < |hs| && hs[i].key == key) ==>
              exists i :: 0 <= i < |hs| && hs[i] == FrameHeader(key, value)
                          && forall j :: 0 <= j < i ==> hs[j].key != key
  {
    if hs == [] then []
    else if hs[0].key == key then hs[0].value
    else
      var value := GetHeader(hs[1..], key);
      assert forall i :: 0 < i < |hs| ==> hs[i] == hs[1..][i - 1];
      value
  }

  function EventOf(e: Entry): Event {
    e.event
  }

  /** The acknowledgement of a frame: its ids and headers come back, with a return code. */
  function Ack(f: Frame): Frame {
    Frame(f.seqID, f.logID, f.service, METHOD_DATA, f.headers + [BIZ_RT], [], [], OK_PAYLOAD, [])
  }

  /** What the server gets back for a frame: the same ids, as a data frame, with the headers of the frame
      followed by "biz_rt" with "0", and the text {"code":0}. */
  ghost predicate Acknowledges(w: Frame, f: Frame) {
    && w.seqID == f.seqID && w.logID == f.logID && w.service == f.service && w.method_ == 1
    && w.headers == f.headers + [FrameHeader([0x62, 0x69, 0x7a, 0x5f, 0x72, 0x74], [0x30])]
    && w.payload == [0x7b, 0x22, 0x63, 0x6f, 0x64, 0x65, 0x22, 0x3a, 0x30, 0x7d]
    && w.payloadEncoding == [] && w.payloadType == [] && w.logIDNew == []
  }

  lemma AckAcknowledges(f: Frame)
    ensures Acknowledges(Ack(f), f)
  {
  }

  /** Every header of the frame reads the same in its acknowledgement; "biz_rt" reads "0" if the frame has none. */
  lemma AckHeaders(w: Frame, f: Frame, key: bytes)
    requires Acknowledges(w, f)
    ensures (exists i :: 0 <= i < |f.headers| && f.headers[i].key == key) ==>
              GetHeader(w.headers, key) == GetHeader(f.headers, key)
    ensures (forall i :: 0 <= i < |f.headers| ==> f.headers[i].key != key) ==>
              GetHeader(w.headers, key) == if key == [0x62, 0x69, 0x7a, 0x5f, 0x72, 0x74] then [0x30] else []
  {
    HeaderBehind(f.headers, w.headers[|f.headers|], key);
  }

  lemma {:induction false} HeaderBehind(hs: seq<FrameHeader>, h: FrameHeader, key: bytes)
    ensures GetHeader(hs + [h], key) ==
            if exists i :: 0 <= i < |hs| && hs[i].key == key then GetHeader(hs, key)
            else if h.key == key then h.value else []
    decreases |hs|
  {
    if hs == [] {
      assert hs + [h] == [h];
    } else if hs[0].key != key {
      HeaderBehind(hs[1..], h, key);
      assert (hs + [h])[1..] == hs[1..] + [h];
      assert forall i :: 0 < i < |hs| ==> hs[i] == hs[1..][i - 1];
    }
  }

  /** The event of a frame goes into the queue: the frame is marked as an event and its payload parses, no event
      of its id was let through in the last 30 minutes, and there is room. */
  ghost predicate Enters(s: State, frame: Frame, event: Option<Event>, checkAt: Time, stopWins: bool) {
    && event.Some? && GetHeader(frame.headers, [0x74, 0x79, 0x70, 0x65]) == [0x65, 0x76, 0x65, 0x6e, 0x74]
    && (event.value.id != "" ==>
          forall a :: a in s.log && a.id == event.value.id ==> a.at < checkAt - 1_800_000_000_000)
    && |s.events| < 64 && !(s.stopped && stopWins)
  }

  // ---------------------------------------------------------------- what the log says of the queue

  /** Every entry is in the duplicate memory's log, and entries of one event are over 30 minutes apart. */
  ghost predicate Sound(entered: seq<Entry>, log: seq<Acceptance>) {
    && (forall e :: e in entered && e.event.id != "" ==> Acceptance(e.event.id, e.at) in log)
    && forall i, j :: 0 <= i < j < |entered| && entered[i].event.id == entered[j].event.id != "" ==>
         entered[i].at + MEMORY < entered[j].at
  }

  /** The duplicate memory lets the event pass. */
  predicate Admitted(log: seq<Acceptance>, event: Event, now: Time) {
    event.id == "" || !Remembered(log, event.id, now)
  }

  /** One more attempt keeps this, whether or not the event then finds room. */
  lemma SoundStep(entered: seq<Entry>, log: seq<Acceptance>, event: Event, checkAt: Time, storeAt: Time)
    requires Sound(entered, log) && checkAt <= storeAt
    ensures var grown := Accept(log, Attempt(event.id, checkAt, storeAt));
            && Sound(entered, grown)
            && (Admitted(log, event, checkAt) ==> Sound(entered + [Entry(event, storeAt)], grown))
  {
    forall i | 0 <= i < |entered| && entered[i].event.id == event.id != "" && !Remembered(log, event.id, checkAt)
      ensures entered[i].at + MEMORY < storeAt
    {
      assert entered[i] in entered;
      assert Acceptance(event.id, entered[i].at) in log;
    }
  }

  // ---------------------------------------------------------------- runs

  /** What happens to the client: a data frame comes in, the dispatcher takes an event, the client stops.
      Of a frame, `event` is the payload when it parses; `stopWins` is the arbitrary choice of the select
      statement once the client is stopped. */
  datatype Op =
    | Handle(frame: Frame, event: Option<Event>, checkAt: Time, storeAt: Time, stopWins: bool)
    | Take
    | Stop

  /** The duplicate memory's log, the queue, and the complete histories of what went in and came out. */
  datatype State = State(log: seq<Acceptance>, events: seq<Event>, entered: seq<Entry>, taken: seq<Event>,
                         stopped: bool)

  const INIT := State([], [], [], [], false)

  /** The frame carries an event. */
  predicate Offers(op: Op) {
    op.Handle? && GetHeader(op.frame.headers, TYPE) == EVENT && op.event.Some?
  }

  /** There is room in the queue, and the client is not stopping. */
  predicate HasRoom(s: State, op: Op)
    requires op.Handle?
  {
    |s.events| < CAPACITY && !(s.stopped && op.stopWins)
  }

  function Next(s: State, op: Op): State {
    match op
    case Handle(_, _, _, _, _) =>
      if !Offers(op) then s
      else
        var e, grown := op.event.value, Accept(s.log, Attempt(op.event.value.id, op.checkAt, op.storeAt));
        if Admitted(s.log, e, op.checkAt) && HasRoom(s, op)
        then s.(log := grown, events := s.events + [e], entered := s.entered + [Entry(e, op.storeAt)])
        else s.(log := grown)
    case Take => if s.events == [] then s else s.(events := s.events[1..], taken := s.taken + [s.events[0]])
    case Stop => s.(stopped := true)
  }

  lemma NothingOffered(s: State, op: Op)
    requires op.Handle? && !Offers(op)
    ensures Next(s, op) == s
  {
  }

  lemma NextMeans(s: State, frame: Frame, event: Option<Event>, checkAt: Time, storeAt: Time, stopWins: bool)
    ensures Next(s, Handle(frame, event, checkAt, storeAt, stopWins)).events ==
            if Enters(s, frame, event, checkAt, stopWins) then s.events + [event.value] else s.events
  {
  }

  /** The state after the first k operations of a run. */
  function StateAt(run: seq<Op>, k: nat): State
    requires k <= |run|
  {
    if k == 0 then INIT else Next(StateAt(run, k - 1), run[k - 1])
  }

  lemma {:induction false} StateAtOne(run: seq<Op>, op: Op, k: nat)
    requires k <= |run|
    ensures StateAt(run + [op], k) == StateAt(run, k)
    decreases k
  {
    if k > 0 { StateAtOne(run, op, k - 1); }
  }

  lemma RunGrows(run: seq<Op>, op: Op, s: State)
    requires s == StateAt(run, |run|)
    ensures StateAt(run + [op], |run + [op]|) == Next(s, op)
  {
    StateAtOne(run, op, |run|);
  }

  /** Operation k offers an event, and no offer of the same id that was itself let through came at most 30
      minutes before. */
  ghost predicate PassesAt(run: seq<Op>, k: nat)
    requires k < |run|
    decreases k
  {
    && Offers(run[k])
    && (run[k].event.value.id != "" ==>
          forall j :: 0 <= j < k && SameId(run, j, k) && PassesAt(run, j) ==>
            run[j].storeAt < run[k].checkAt - 1_800_000_000_000)
  }

  predicate SameId(run: seq<Op>, j: nat, k: nat)
    requires j < |run| && k < |run|
  {
    Offers(run[j]) && Offers(run[k]) && run[j].event.value.id == run[k].event.value.id
  }

  /** Offer j, let through, is what the log entry stands for. */
  ghost predicate LoggedBy(run: seq<Op>, j: nat, a: Acceptance)
    requires j < |run|
  {
    PassesAt(run, j) && a.id != "" && Acceptance(run[j].event.value.id, run[j].storeAt) == a
  }

  /** The log holds exactly the named offers that were let through. */
  lemma {:induction false} LogIsPasses(run: seq<Op>, n: nat, a: Acceptance)
    requires n <= |run|
    ensures a in StateAt(run, n).log <==> LoggedBefore(run, n, a)
    decreases n, 0
  {
    if n > 0 {
      LogIsPasses(run, n - 1, a);
      LogGrows(run, n, a);
      LoggedOne(run, n, a);
    }
  }

  ghost predicate LoggedBefore(run: seq<Op>, n: nat, a: Acceptance)
    requires n <= |run|
  {
    exists j: nat :: j < n && LoggedBy(run, j, a)
  }

  lemma LoggedOne(run: seq<Op>, n: nat, a: Acceptance)
    requires 0 < n <= |run|
    ensures LoggedBefore(run, n, a) <==> LoggedBefore(run, n - 1, a) || LoggedBy(run, n - 1, a)
  {
  }

  lemma {:induction false} LogGrows(run: seq<Op>, n: nat, a: Acceptance)
    requires 0 < n <= |run|
    ensures a in StateAt(run, n).log <==> a in StateAt(run, n - 1).log || LoggedBy(run, n - 1, a)
    decreases n - 1, 2
  {
    if Offers(run[n - 1]) { MemoryDecides(run, n - 1); }
    LogNext(StateAt(run, n - 1), run[n - 1]);
  }

  lemma LogNext(s: State, op: Op)
    ensures Next(s, op).log ==
            if Offers(op) && op.event.value.id != "" && Admitted(s.log, op.event.value, op.checkAt)
            then s.log + [Acceptance(op.event.value.id, op.storeAt)] else s.log
  {
  }

  /** The duplicate memory lets an offer through exactly when the run says so. */
  lemma {:induction false} MemoryDecides(run: seq<Op>, k: nat)
    requires k < |run| && Offers(run[k])
    ensures Admitted(StateAt(run, k).log, run[k].event.value, run[k].checkAt) <==> PassesAt(run, k)
    decreases k, 1
  {
    var log, e, now := StateAt(run, k).log, run[k].event.value, run[k].checkAt;
    if e.id != "" {
      if Remembered(log, e.id, now) {
        var a :| a in log && a.id == e.id && now - MEMORY <= a.at;
        LogIsPasses(run, k, a);
        var j: nat :| j < k && LoggedBy(run, j, a);
        assert SameId(run, j, k);
      }
      forall j: nat | j < k && SameId(run, j, k) && PassesAt(run, j)
        ensures Acceptance(e.id, run[j].storeAt) in log
      {
        LogIsPasses(run, k, Acceptance(e.id, run[j].storeAt));
        assert LoggedBy(run, j, Acceptance(e.id, run[j].storeAt));
      }
    }
  }

  /** An operation puts an event into the queue exactly when it offers one, no earlier offer of the same id
      was let through in the 30 minutes before, and there is room at that moment. */
  lemma EntersIff(run: seq<Op>, k: nat)
    requires k < |run|
    ensures StateAt(run, k + 1).entered ==
            if PassesAt(run, k) && |StateAt(run, k).events| < 64 && !(StateAt(run, k).stopped && run[k].stopWins)
            then StateAt(run, k).entered + [Entry(run[k].event.value, run[k].storeAt)]
            else StateAt(run, k).entered
  {
    if Offers(run[k]) { MemoryDecides(run, k); }
  }

  /** A named event that the memory let through and that then found no room is lost: whatever happens in
      between, no offer of its id in the 30 minutes after it enters the queue. */
  lemma DroppedIsLost(run: seq<Op>, k: nat, n: nat)
    requires k < n < |run| && SameId(run, k, n) && run[k].event.value.id != ""
    requires PassesAt(run, k) && (|StateAt(run, k).events| >= 64 || (StateAt(run, k).stopped && run[k].stopWins))
    requires run[n].checkAt <= run[k].storeAt + 1_800_000_000_000
    ensures StateAt(run, k + 1).entered == StateAt(run, k).entered
    ensures StateAt(run, n + 1).entered == StateAt(run, n).entered
  {
    EntersIff(run, k);
    EntersIff(run, n);
  }

  /** An offer that was refused as a duplicate, by contrast, does not extend the memory: an event let through
      at 0 and refused 30 minutes later is let through again a moment after that. */
  lemma RefusedMayEnter(frame: Frame, e: Event)
    requires GetHeader(frame.headers, TYPE) == EVENT && e.id != ""
    ensures MEMORY == 1_800_000_000_000
    ensures var run := [Handle(frame, Some(e), 0, 0, false), Handle(frame, Some(e), MEMORY, MEMORY, false),
                        Handle(frame, Some(e), MEMORY + 1, MEMORY + 1, false)];
            PassesAt(run, 0) && !PassesAt(run, 1) && PassesAt(run, 2)
  {
    var run := [Handle(frame, Some(e), 0, 0, false), Handle(frame, Some(e), MEMORY, MEMORY, false),
                Handle(frame, Some(e), MEMORY + 1, MEMORY + 1, false)];
    assert SameId(run, 0, 1) && SameId(run, 0, 2);
    assert PassesAt(run, 0);
    assert !PassesAt(run, 1);
  }

  class WSClient {
    const filter: DuplicateFilter
    /** The bounded channel of events, and the frames written to the connection. */
    var events: seq<Event>
    var written: seq<Frame>
    var stopped: bool
    /** Complete histories: all operations, the data frames handled, the events put in and taken out. */
    ghost var run: seq<Op>
    ghost var handled: seq<Frame>
    ghost var entered: seq<Entry>
    ghost var taken: seq<Event>

    ghost function Now(): State
      reads this, filter
    {
      State(filter.log, events, entered, taken, stopped)
    }

    /** The object is where its run has led, and what has been proved of runs holds of it. */
    ghost predicate Valid()
      reads this, filter
    {
      && filter.Valid()
      && Now() == StateAt(run, |run|)
      && |events| <= CAPACITY
      && written == Map(handled, Ack)
      && Map(entered, EventOf) == taken + events
      && Sound(entered, filter.log)
    }

    constructor (ghost start: Time)
      ensures Valid() && run == [] && handled == []
      ensures fresh(filter) && filter.log == [] && filter.clock == start
    {
      filter := new DuplicateFilter(start);
      events, written, stopped := [], [], false;
      run, handled, entered, taken := [], [], [], [];
    }

    /** One data frame: it is acknowledged whatever happens, and its event goes where the run says. */
    method HandleDataFrame(frame: Frame, event: Option<Event>, checkAt: Time, storeAt: Time, stopWins: bool)
      requires Valid() && filter.clock <= checkAt <= storeAt
      modifies this, filter
      ensures Valid() && filter.clock <= storeAt
      ensures run == old(run) + [Handle(frame, event, checkAt, storeAt, stopWins)]
      ensures Now() == Next(old(Now()), Handle(frame, event, checkAt, storeAt, stopWins))
      ensures handled == old(handled) + [frame]
      ensures |written| == |old(written)| + 1 && written[..|old(written)|] == old(written)
      ensures Acknowledges(written[|old(written)|], frame)
      ensures events == if Enters(old(Now()), frame, event, checkAt, stopWins) then old(events) + [event.value]
                        else old(events)
    {
      NextMeans(Now(), frame, event, checkAt, storeAt, stopWins);
      HandleEvent(frame, event, checkAt, storeAt, stopWins);
      Acknowledge(frame);
    }

    /** The frame's event, if it carries one. */
    method HandleEvent(frame: Frame, event: Option<Event>, checkAt: Time, storeAt: Time, stopWins: bool)
      requires Valid() && filter.clock <= checkAt <= storeAt
      modifies this`events, this`entered, this`run, filter
      ensures Valid() && filter.clock <= storeAt
      ensures run == old(run) + [Handle(frame, event, checkAt, storeAt, stopWins)]
      ensures Now() == Next(old(Now()), Handle(frame, event, checkAt, storeAt, stopWins))
    {
      ghost var op := Handle(frame, event, checkAt, storeAt, stopWins);
      RunGrows(run, op, Now());
      if GetHeader(frame.headers, TYPE) == EVENT && event.Some? {
        Offer(event.value, op, checkAt, storeAt, stopWins);
      } else {
        NothingOffered(Now(), op);
      }
      run := run + [op];
    }

    /** The deferred answer. */
    method Acknowledge(frame: Frame)
      requires written == Map(handled, Ack)
      modifies this`handled, this`written
      ensures handled == old(handled) + [frame] && written == Map(handled, Ack)
      ensures |written| == |old(written)| + 1 && written[..|old(written)|] == old(written)
      ensures Acknowledges(written[|old(written)|], frame)
    {
      MapOne(handled, Ack, frame);
      AckAcknowledges(frame);
      handled := handled + [frame];
      written := written + [Ack(frame)];
    }

    /** The duplicate test and the bounded, non-blocking send. */
    method Offer(event: Event, ghost op: Op, checkAt: Time, storeAt: Time, stopWins: bool)
      requires filter.Valid() && filter.clock <= checkAt <= storeAt && |events| <= CAPACITY
      requires Map(entered, EventOf) == taken + events && Sound(entered, filter.log)
      requires Offers(op) && op == Handle(op.frame, Some(event), checkAt, storeAt, stopWins)
      modifies this`events, this`entered, filter
      ensures filter.Valid() && filter.clock == storeAt && |events| <= CAPACITY
      ensures Map(entered, EventOf) == taken + events && Sound(entered, filter.log)
      ensures Now() == Next(old(Now()), op)
    {
      SoundStep(entered, filter.log, event, checkAt, storeAt);
      Appended(event, storeAt);
      ghost var log := filter.log;
      var duplicate := filter.IsDuplicate(event.id, checkAt, storeAt);
      assert duplicate <==> !Admitted(log, event, checkAt);
      if !duplicate && |events| < CAPACITY && !(stopped && stopWins) {
        events := events + [event];
        entered := entered + [Entry(event, storeAt)];
      }
    }

    lemma Appended(event: Event, at: Time)
      requires Map(entered, EventOf) == taken + events
      ensures Map(entered + [Entry(event, at)], EventOf) == taken + (events + [event])
    {
      MapOne(entered, EventOf, Entry(event, at));
    }

    /** The dispatcher takes the oldest event. */
    method TakeEvent() returns (event: Event)
      requires Valid() && events != []
      modifies this
      ensures Valid() && event == old(events)[0] && run == old(run) + [Take]
      ensures Now() == Next(old(Now()), Take)
      ensures handled == old(handled) && written == old(written)
    {
      RunGrows(run, Take, Now());
      Rotated(taken, events);
      run := run + [Take];
      event := events[0];
      events := events[1..];
      taken := taken + [event];
    }

    method StopClient()
      requires Valid() && !stopped
      modifies this`stopped, this`run
      ensures Valid() && run == old(run) + [Stop] && Now() == Next(old(Now()), Stop)
    {
      RunGrows(run, Stop, Now());
      run := run + [Stop];
      stopped := true;
    }

    /** Every frame handled is acknowledged once, in order. */
    lemma AllAcknowledged(k: nat)
      requires Valid() && k < |handled|
      ensures |written| == |handled| && Acknowledges(written[k], handled[k])
    {
      MapAt(handled, Ack, k);
    }

    /** What the dispatcher receives is, in order, what entered; an event it receives twice entered twice,
        more than 30 minutes apart. */
    lemma TakenOnce(i: nat, j: nat)
      requires Valid() && i < j < |taken| && taken[i].id == taken[j].id != ""
      ensures j < |entered| && entered[i].event == taken[i] && entered[j].event == taken[j]
      ensures entered[i].at + 1_800_000_000_000 < entered[j].at
    {
      MapAt(entered, EventOf, i);
      MapAt(entered, EventOf, j);
    }
  }

  lemma MapOne<T, U>(s: seq<T>, g: T -> U, x: T)
    ensures Map(s + [x], g) == Map(s, g) + [g(x)]
  {
    MapGrows(s + [x], g, |s|);
    assert (s + [x])[..|s|] == s && (s + [x])[..|s| + 1] == s + [x];
  }
}
