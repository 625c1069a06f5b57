/** Confirmation of dangerous actions: a token is created, stored in the pending map, armed with a
    60 s timer, and leaves the map by a confirm, a cancel or the timer. Every map operation is one
    locked step; the clock readings, the user check and the run happen outside the lock, so all
    calls interleave. */
module Confirm {
  import opened Options

  type Token = string
  type UserID = string
  /** Nanoseconds. */
  type Time = int

  const TTL: Time := 60_000_000_000

  datatype PendingAction = PendingAction(token: Token, userID: UserID, title: string, expiresAt: Time)

  /** How far an initiating call has come. */
  datatype Call =
    | Created(action: PendingAction)
    | Stored(action: PendingAction)
    | Armed(action: PendingAction, fireAt: Time)
    | Fired(action: PendingAction)

  /** A confirming call between its locked take and its checks. */
  datatype Confirmation = Confirmation(action: PendingAction, sender: UserID)

  datatype Verdict = Execute | NotAllowed | TooLate

  /** One execution of an action. */
  datatype Run = Run(token: Token, sender: UserID, at: Time)

  /** What has become of an initiated token. */
  datatype Fate =
    | Unstored | Pending | Taken(id: nat) | Judged(verdict: Verdict) | Cancelled | TimedOut

  datatype State = State(
    now: Time,
    calls: map<Token, Call>,
    pending: map<Token, PendingAction>,
    taken: map<nat, Confirmation>,
    nextId: nat,
    runs: seq<Run>,
    fates: map<Token, Fate>
  )

  datatype Step =
    | Advance(to: Time)
    | Create(token: Token, user: UserID, title: string)
    | Store(token: Token)
    | Arm(token: Token)
    | Fire(token: Token)
    | Take(token: Token, sender: UserID)
    | Judge(id: nat)
    | Cancel(token: Token)

  function Init(start: Time): State {
    State(start, map[], map[], map[], 0, [], map[])
  }

  /** The unlocked checks of a confirming call. */
  function Check(c: Confirmation, now: Time): Verdict {
    if c.action.userID != c.sender then NotAllowed
    else if now > c.action.expiresAt then TooLate
    else Execute
  }

  predicate Enabled(s: State, step: Step) {
    match step
    case Advance(to) => s.now <= to
    case Create(token, _, _) => token !in s.calls
    case Store(token) => token in s.calls && s.calls[token].Created?
    case Arm(token) => token in s.calls && s.calls[token].Stored?
    case Fire(token) => token in s.calls && s.calls[token].Armed? && s.calls[token].fireAt <= s.now
    case Take(_, _) => true
    case Judge(id) => id in s.taken
    case Cancel(_) => true
  }

  /** The fate of a token that a locked deletion found in the map. */
  function Removed(s: State, token: Token, fate: Fate): map<Token, Fate> {
    if token in s.pending then s.fates[token := fate] else s.fates
  }

  function Apply(s: State, step: Step): State
    requires Enabled(s, step)
  {
    match step
    case Advance(to) => s.(now := to)
    case Create(token, user, title) =>
      s.(calls := s.calls[token := Created(PendingAction(token, user, title, s.now + TTL))],
         fates := s.fates[token := Unstored])
    case Store(token) =>
      var action := s.calls[token].action;
      s.(calls := s.calls[token := Stored(action)],
         pending := s.pending[token := action],
         fates := s.fates[token := Pending])
    case Arm(token) =>
      s.(calls := s.calls[token := Armed(s.calls[token].action, s.now + TTL)])
    case Fire(token) =>
      s.(calls := s.calls[token := Fired(s.calls[token].action)],
         pending := s.pending - {token},
         fates := Removed(s, token, TimedOut))
    case Take(token, sender) =>
      if token in s.pending then
        s.(pending := s.pending - {token},
           taken := s.taken[s.nextId := Confirmation(s.pending[token], sender)],
           nextId := s.nextId + 1,
           fates := Removed(s, token, Taken(s.nextId)))
      else s.(nextId := s.nextId + 1)
    case Judge(id) =>
      var c := s.taken[id];
      var verdict := Check(c, s.now);
      s.(taken := s.taken - {id},
         runs := if verdict.Execute? then s.runs + [Run(c.action.token, c.sender, s.now)] else s.runs,
         fates := s.fates[c.action.token := Judged(verdict)])
    case Cancel(token) =>
      s.(pending := s.pending - {token}, fates := Removed(s, token, Cancelled))
  }

  ghost predicate ValidRun(s: State, run: seq<Step>)
    decreases |run|
  {
    run == [] || (Enabled(s, run[0]) && ValidRun(Apply(s, run[0]), run[1..]))
  }

  ghost function After(s: State, run: seq<Step>): State
    requires ValidRun(s, run)
    decreases |run|
  {
    if run == [] then s else After(Apply(s, run[0]), run[1..])
  }

  lemma {:induction false} RunSplit(s: State, a: seq<Step>, b: seq<Step>)
    requires ValidRun(s, a + b)
    ensures ValidRun(s, a) && ValidRun(After(s, a), b) && After(s, a + b) == After(After(s, a), b)
    decreases |a|
  {
    if a == [] {
      assert a + b == b;
    } else {
      assert (a + b)[0] == a[0] && (a + b)[1..] == a[1..] + b;
      RunSplit(Apply(s, a[0]), a[1..], b);
    }
  }

  // ---------------------------------------------------------------- what every step keeps

  ghost predicate CallsInv(s: State) {
    && s.calls.Keys == s.fates.Keys
    && forall t :: t in s.calls ==>
         && s.calls[t].action.token == t
         && s.calls[t].action.expiresAt <= s.now + TTL
         && (s.calls[t].Armed? ==> s.calls[t].action.expiresAt <= s.calls[t].fireAt)
         && (s.fates[t].Unstored? <==> s.calls[t].Created?)
         && (s.fates[t].TimedOut? ==> s.calls[t].action.expiresAt <= s.now)
         && (s.calls[t].Fired? ==> !s.fates[t].Pending?)
  }

  /** Each fate is what the data structures show: the map holds exactly the pending tokens, the calls in
      flight exactly the taken ones. */
  ghost predicate FatesInv(s: State) {
    && (forall t :: t in s.pending <==> t in s.fates && s.fates[t].Pending?)
    && (forall t :: t in s.pending && t in s.calls ==> s.pending[t] == s.calls[t].action)
    && (forall i :: i in s.taken ==>
          && i < s.nextId && s.taken[i].action.token in s.calls && s.taken[i].action.token in s.fates
          && s.taken[i].action == s.calls[s.taken[i].action.token].action
          && s.fates[s.taken[i].action.token] == Taken(i))
    && (forall t :: t in s.fates && s.fates[t].Taken? ==>
          s.fates[t].id in s.taken && s.taken[s.fates[t].id].action.token == t)
  }

  ghost predicate HasRun(runs: seq<Run>, token: Token) {
    exists k :: 0 <= k < |runs| && runs[k].token == token
  }

  ghost predicate RunsInv(s: State) {
    && (forall k :: 0 <= k < |s.runs| ==>
          && s.runs[k].token in s.calls && s.runs[k].token in s.fates
          && s.fates[s.runs[k].token] == Judged(Execute)
          && s.runs[k].sender == s.calls[s.runs[k].token].action.userID
          && s.runs[k].at <= s.calls[s.runs[k].token].action.expiresAt)
    && (forall j, k :: 0 <= j < k < |s.runs| ==> s.runs[j].token != s.runs[k].token)
    && (forall t :: t in s.fates && s.fates[t] == Judged(Execute) ==> HasRun(s.runs, t))
  }

  ghost predicate Inv(s: State) {
    CallsInv(s) && FatesInv(s) && RunsInv(s)
  }

  lemma CallsCreate(s: State, step: Step)
    requires CallsInv(s) && FatesInv(s) && Enabled(s, step) && step.Create?
    ensures CallsInv(Apply(s, step))
  {
  }

  lemma CallsStore(s: State, step: Step)
    requires CallsInv(s) && FatesInv(s) && Enabled(s, step) && step.Store?
    ensures CallsInv(Apply(s, step))
  {
  }

  lemma CallsArm(s: State, step: Step)
    requires CallsInv(s) && FatesInv(s) && Enabled(s, step) && step.Arm?
    ensures CallsInv(Apply(s, step))
  {
  }

  lemma CallsFire(s: State, step: Step)
    requires CallsInv(s) && FatesInv(s) && Enabled(s, step) && step.Fire?
    ensures CallsInv(Apply(s, step))
  {
  }

  lemma CallsTake(s: State, step: Step)
    requires CallsInv(s) && FatesInv(s) && Enabled(s, step) && step.Take?
    ensures CallsInv(Apply(s, step))
  {
  }

  lemma CallsJudge(s: State, step: Step)
    requires CallsInv(s) && FatesInv(s) && Enabled(s, step) && step.Judge?
    ensures CallsInv(Apply(s, step))
  {
  }

  lemma CallsCancel(s: State, step: Step)
    requires CallsInv(s) && FatesInv(s) && Enabled(s, step) && step.Cancel?
    ensures CallsInv(Apply(s, step))
  {
  }

  lemma CallsStep(s: State, step: Step)
    requires CallsInv(s) && FatesInv(s) && Enabled(s, step)
    ensures CallsInv(Apply(s, step))
  {
    match step
    case Advance(_) =>
    case Create(_, _, _) => CallsCreate(s, step);
    case Store(_) => CallsStore(s, step);
    case Arm(_) => CallsArm(s, step);
    case Fire(_) => CallsFire(s, step);
    case Take(_, _) => CallsTake(s, step);
    case Judge(_) => CallsJudge(s, step);
    case Cancel(_) => CallsCancel(s, step);
  }

  lemma FatesCreate(s: State, step: Step)
    requires CallsInv(s) && FatesInv(s) && Enabled(s, step) && step.Create?
    ensures FatesInv(Apply(s, step))
  {
  }

  lemma FatesStore(s: State, step: Step)
    requires CallsInv(s) && FatesInv(s) && Enabled(s, step) && step.Store?
    ensures FatesInv(Apply(s, step))
  {
  }

  lemma FatesArm(s: State, step: Step)
    requires CallsInv(s) && FatesInv(s) && Enabled(s, step) && step.Arm?
    ensures FatesInv(Apply(s, step))
  {
  }

  lemma FatesFire(s: State, step: Step)
    requires CallsInv(s) && FatesInv(s) && Enabled(s, step) && step.Fire?
    ensures FatesInv(Apply(s, step))
  {
  }

  lemma FatesTake(s: State, step: Step)
    requires CallsInv(s) && FatesInv(s) && Enabled(s, step) && step.Take?
    ensures FatesInv(Apply(s, step))
  {
  }

  lemma FatesJudge(s: State, step: Step)
    requires CallsInv(s) && FatesInv(s) && Enabled(s, step) && step.Judge?
    ensures FatesInv(Apply(s, step))
  {
  }

  lemma FatesCancel(s: State, step: Step)
    requires CallsInv(s) && FatesInv(s) && Enabled(s, step) && step.Cancel?
    ensures FatesInv(Apply(s, step))
  {
  }

  lemma FatesStep(s: State, step: Step)
    requires CallsInv(s) && FatesInv(s) && Enabled(s, step)
    ensures FatesInv(Apply(s, step))
  {
    match step
    case Advance(_) =>
    case Create(_, _, _) => FatesCreate(s, step);
    case Store(_) => FatesStore(s, step);
    case Arm(_) => FatesArm(s, step);
    case Fire(_) => FatesFire(s, step);
    case Take(_, _) => FatesTake(s, step);
    case Judge(_) => FatesJudge(s, step);
    case Cancel(_) => FatesCancel(s, step);
  }

  /** A step that runs nothing keeps the log of runs in order, as long as no executed token changes its fate. */
  lemma RunsSame(s: State, t: State)
    requires RunsInv(s) && t.runs == s.runs
    requires forall token :: token in s.calls ==> token in t.calls && t.calls[token].action == s.calls[token].action
    requires forall token :: Has(t, token, Judged(Execute)) <==> Has(s, token, Judged(Execute))
    ensures RunsInv(t)
  {
    forall k | 0 <= k < |t.runs| ensures Has(t, t.runs[k].token, Judged(Execute)) {
      assert Has(s, s.runs[k].token, Judged(Execute));
    }
    forall token | token in t.fates && t.fates[token] == Judged(Execute) ensures HasRun(t.runs, token) {
      assert Has(t, token, Judged(Execute));
    }
  }

  /** A step that runs the action of a token that had not run. */
  lemma RunsGrow(s: State, t: State, r: Run)
    requires RunsInv(s) && t.runs == s.runs + [r] && t.calls == s.calls && r.token in s.calls
    requires forall token :: Has(t, token, Judged(Execute)) <==> Has(s, token, Judged(Execute)) || token == r.token
    requires !Has(s, r.token, Judged(Execute))
    requires r.sender == s.calls[r.token].action.userID && r.at <= s.calls[r.token].action.expiresAt
    ensures RunsInv(t)
  {
    forall k | 0 <= k < |t.runs|
      ensures Has(t, t.runs[k].token, Judged(Execute)) && (k < |s.runs| ==> t.runs[k].token != r.token)
    {
      if k < |s.runs| { assert Has(s, s.runs[k].token, Judged(Execute)); }
    }
    forall token | token in t.fates && t.fates[token] == Judged(Execute) ensures HasRun(t.runs, token) {
      assert Has(t, token, Judged(Execute));
      if token == r.token {
        assert t.runs[|s.runs|].token == token;
      } else {
        assert Has(s, token, Judged(Execute));
        var k :| 0 <= k < |s.runs| && s.runs[k].token == token;
        assert t.runs[k].token == token;
      }
    }
  }

  lemma RunsJudge(s: State, step: Step)
    requires Inv(s) && Enabled(s, step) && step.Judge?
    ensures RunsInv(Apply(s, step))
  {
    var t, c := Apply(s, step), s.taken[step.id];
    TakenHas(s, step.id);
    forall token
      ensures Has(t, token, Judged(Execute)) <==>
              Has(s, token, Judged(Execute)) || (token == c.action.token && Check(c, s.now).Execute?)
    {
      JudgeMoves(s, step, token, Execute);
    }
    if Check(c, s.now).Execute? {
      RunsGrow(s, t, Run(c.action.token, c.sender, s.now));
    } else {
      RunsSame(s, t);
    }
  }

  lemma RunsStep(s: State, step: Step)
    requires Inv(s) && Enabled(s, step)
    ensures RunsInv(Apply(s, step))
  {
    if step.Judge? {
      RunsJudge(s, step);
    } else {
      forall token ensures Has(Apply(s, step), token, Judged(Execute)) <==> Has(s, token, Judged(Execute)) {
        JudgeMoves(s, step, token, Execute);
      }
      CallsKept(s, step);
      RunsSame(s, Apply(s, step));
    }
  }

  /** An initiated action is never changed. */
  lemma CallsKept(s: State, step: Step)
    requires Enabled(s, step)
    ensures forall token :: token in s.calls ==>
              token in Apply(s, step).calls && Apply(s, step).calls[token].action == s.calls[token].action
  {
  }

  lemma StepKeepsInv(s: State, step: Step)
    requires Inv(s) && Enabled(s, step)
    ensures Inv(Apply(s, step))
  {
    CallsStep(s, step);
    FatesStep(s, step);
    RunsStep(s, step);
  }

  lemma {:induction false} RunKeepsInv(s: State, run: seq<Step>)
    requires Inv(s) && ValidRun(s, run)
    ensures Inv(After(s, run))
    decreases |run|
  {
    if run != [] {
      StepKeepsInv(s, run[0]);
      RunKeepsInv(Apply(s, run[0]), run[1..]);
    }
  }

  lemma Reached(start: Time, run: seq<Step>)
    requires ValidRun(Init(start), run)
    ensures Inv(After(Init(start), run))
  {
    RunKeepsInv(Init(start), run);
  }

  // ---------------------------------------------------------------- safety

  lemma StaysGone(s: State, step: Step, token: Token)
    requires CallsInv(s) && FatesInv(s) && Enabled(s, step)
    requires token in s.fates && !s.fates[token].Unstored? && !s.fates[token].Pending?
    ensures var fates := Apply(s, step).fates;
            token in fates && !fates[token].Unstored? && !fates[token].Pending?
  {
  }

  /** A token that has left the pending map never comes back. */
  lemma {:induction false} GoneStaysGone(s: State, run: seq<Step>, token: Token)
    requires Inv(s) && ValidRun(s, run)
    requires token in s.fates && !s.fates[token].Unstored? && !s.fates[token].Pending?
    ensures token !in After(s, run).pending
    decreases |run|
  {
    if run != [] {
      StepKeepsInv(s, run[0]);
      StaysGone(s, run[0], token);
      GoneStaysGone(Apply(s, run[0]), run[1..], token);
    }
  }

  // ---------------------------------------------------------------- fates are history

  /** All states of a run, the first and the last included. */
  ghost function Trace(s: State, run: seq<Step>): (tr: seq<State>)
    requires ValidRun(s, run)
    ensures |tr| == |run| + 1 && tr[0] == s
    decreases |run|
  {
    if run == [] then [s] else [s] + Trace(Apply(s, run[0]), run[1..])
  }

  /** Step k leads from one sound state to the next. */
  ghost predicate Linked(tr: seq<State>, run: seq<Step>, k: nat) {
    k + 1 < |tr| && k < |run| && Enabled(tr[k], run[k]) && tr[k + 1] == Apply(tr[k], run[k]) && Inv(tr[k])
  }

  ghost predicate IsTrace(tr: seq<State>, run: seq<Step>) {
    && |tr| == |run| + 1 && tr[0].fates == map[] && tr[0].taken == map[]
    && forall k: nat :: k < |run| ==> Linked(tr, run, k)
  }

  lemma {:induction false} TraceLinked(s: State, run: seq<Step>, k: nat)
    requires Inv(s) && ValidRun(s, run) && k < |run|
    ensures Linked(Trace(s, run), run, k)
    decreases k
  {
    StepKeepsInv(s, run[0]);
    if k > 0 { TraceLinked(Apply(s, run[0]), run[1..], k - 1); }
  }

  lemma {:induction false} TraceEnds(s: State, run: seq<Step>)
    requires ValidRun(s, run)
    ensures Trace(s, run)[|run|] == After(s, run)
    decreases |run|
  {
    if run != [] { TraceEnds(Apply(s, run[0]), run[1..]); }
  }

  lemma RunIsTrace(start: Time, run: seq<Step>)
    requires ValidRun(Init(start), run)
    ensures IsTrace(Trace(Init(start), run), run) && Trace(Init(start), run)[|run|] == After(Init(start), run)
  {
    forall k: nat | k < |run| ensures Linked(Trace(Init(start), run), run, k) {
      TraceLinked(Init(start), run, k);
    }
    TraceEnds(Init(start), run);
  }

  /** Step k of the run finds the token in the pending map. */
  ghost predicate Finds(tr: seq<State>, run: seq<Step>, k: nat, token: Token) {
    k < |run| && k < |tr| && token in tr[k].pending
  }

  ghost predicate CancelledAt(tr: seq<State>, run: seq<Step>, k: nat, token: Token) {
    Finds(tr, run, k, token) && run[k] == Cancel(token)
  }

  ghost predicate TimedOutAt(tr: seq<State>, run: seq<Step>, k: nat, token: Token) {
    Finds(tr, run, k, token) && run[k] == Fire(token)
  }

  /** Step j takes the token; the confirming call is number `id`. */
  ghost predicate TakenAt(tr: seq<State>, run: seq<Step>, j: nat, token: Token, id: nat) {
    Finds(tr, run, j, token) && run[j].Take? && run[j].token == token && id == tr[j].nextId
  }

  /** Taken at step j and not judged before step n. */
  ghost predicate InFlight(tr: seq<State>, run: seq<Step>, j: nat, n: nat, token: Token, id: nat) {
    j < n <= |run| && TakenAt(tr, run, j, token, id) && forall k: nat :: j < k < n ==> run[k] != Judge(id)
  }

  /** Step k is the check of the call that took the token at step j, and comes to this verdict. */
  ghost predicate JudgedAt(tr: seq<State>, run: seq<Step>, j: nat, k: nat, token: Token, verdict: Verdict) {
    && j < k < |run| && k < |tr| && TakenAt(tr, run, j, token, tr[j].nextId) && run[k] == Judge(tr[j].nextId)
    && verdict == Check(Confirmation(tr[j].pending[token], run[j].sender), tr[k].now)
  }

  predicate Has(s: State, token: Token, fate: Fate) {
    token in s.fates && s.fates[token] == fate
  }

  /** What one step does to the fate of a token, one fate at a time. */
  lemma CancelMoves(s: State, step: Step, token: Token)
    requires CallsInv(s) && FatesInv(s) && Enabled(s, step)
    ensures Has(Apply(s, step), token, Cancelled) <==>
            Has(s, token, Cancelled) || (step == Cancel(token) && token in s.pending)
  {
  }

  lemma TimerMoves(s: State, step: Step, token: Token)
    requires CallsInv(s) && FatesInv(s) && Enabled(s, step)
    ensures Has(Apply(s, step), token, TimedOut) <==>
            Has(s, token, TimedOut) || (step == Fire(token) && token in s.pending)
  {
  }

  lemma TakeMoves(s: State, step: Step, token: Token, id: nat)
    requires CallsInv(s) && FatesInv(s) && Enabled(s, step)
    ensures Has(Apply(s, step), token, Taken(id)) <==>
            || (Has(s, token, Taken(id)) && step != Judge(id))
            || (step.Take? && step.token == token && token in s.pending && id == s.nextId)
  {
  }

  lemma JudgeMoves(s: State, step: Step, token: Token, v: Verdict)
    requires CallsInv(s) && FatesInv(s) && Enabled(s, step)
    ensures Has(Apply(s, step), token, Judged(v)) <==>
            || Has(s, token, Judged(v))
            || (step.Judge? && Has(s, token, Taken(step.id)) && v == Check(s.taken[step.id], s.now))
  {
  }

  /** While a call is in flight it holds what it took; its number is not used again. */
  lemma {:induction false} Holds(tr: seq<State>, run: seq<Step>, j: nat, n: nat, token: Token, id: nat)
    requires IsTrace(tr, run) && j < n <= |run| && TakenAt(tr, run, j, token, id)
    ensures id < tr[n].nextId
    ensures id in tr[n].taken ==> tr[n].taken[id] == Confirmation(tr[j].pending[token], run[j].sender)
    decreases n
  {
    assert Linked(tr, run, n - 1);
    if j < n - 1 {
      Holds(tr, run, j, n - 1, token, id);
    }
  }

  lemma {:induction false} CancelledIff(tr: seq<State>, run: seq<Step>, n: nat, token: Token)
    requires IsTrace(tr, run) && n <= |run|
    ensures Has(tr[n], token, Cancelled) <==> exists k: nat :: k < n && CancelledAt(tr, run, k, token)
    decreases n
  {
    if n > 0 {
      var k := n - 1;
      assert Linked(tr, run, k);
      CancelMoves(tr[k], run[k], token);
      CancelledIff(tr, run, k, token);
      assert CancelledAt(tr, run, k, token) <==> run[k] == Cancel(token) && token in tr[k].pending;
    }
  }

  lemma {:induction false} TimedOutIff(tr: seq<State>, run: seq<Step>, n: nat, token: Token)
    requires IsTrace(tr, run) && n <= |run|
    ensures Has(tr[n], token, TimedOut) <==> exists k: nat :: k < n && TimedOutAt(tr, run, k, token)
    decreases n
  {
    if n > 0 {
      var k := n - 1;
      assert Linked(tr, run, k);
      TimerMoves(tr[k], run[k], token);
      TimedOutIff(tr, run, k, token);
      assert TimedOutAt(tr, run, k, token) <==> run[k] == Fire(token) && token in tr[k].pending;
    }
  }

  lemma {:induction false} TakenIff(tr: seq<State>, run: seq<Step>, n: nat, token: Token, id: nat)
    requires IsTrace(tr, run) && n <= |run|
    ensures Has(tr[n], token, Taken(id)) <==> exists j: nat :: InFlight(tr, run, j, n, token, id)
    decreases n
  {
    if n > 0 {
      var k := n - 1;
      assert Linked(tr, run, k);
      TakeMoves(tr[k], run[k], token, id);
      TakenIff(tr, run, k, token, id);
      assert TakenAt(tr, run, k, token, id) <==>
             run[k].Take? && run[k].token == token && token in tr[k].pending && id == tr[k].nextId;
      assert InFlight(tr, run, k, n, token, id) <==> TakenAt(tr, run, k, token, id);
      forall j: nat | j < k ensures InFlight(tr, run, j, n, token, id) <==>
                                    InFlight(tr, run, j, k, token, id) && run[k] != Judge(id) {
      }
    }
  }

  lemma {:induction false} JudgedIff(tr: seq<State>, run: seq<Step>, n: nat, token: Token, v: Verdict)
    requires IsTrace(tr, run) && n <= |run|
    ensures Has(tr[n], token, Judged(v)) <==> exists j: nat, k: nat :: k < n && JudgedAt(tr, run, j, k, token, v)
    decreases n
  {
    if n > 0 {
      var k := n - 1;
      assert Linked(tr, run, k);
      JudgeMoves(tr[k], run[k], token, v);
      JudgedIff(tr, run, k, token, v);
      LastJudged(tr, run, k, token, v);
    }
  }

  /** A step judges the token exactly when it is the check of the call that took it. */
  lemma LastJudged(tr: seq<State>, run: seq<Step>, k: nat, token: Token, v: Verdict)
    requires IsTrace(tr, run) && k < |run|
    ensures (exists j: nat :: JudgedAt(tr, run, j, k, token, v)) <==>
            run[k].Judge? && run[k].id in tr[k].taken && Has(tr[k], token, Taken(run[k].id))
            && v == Check(tr[k].taken[run[k].id], tr[k].now)
  {
    assert Linked(tr, run, k);
    if j: nat :| JudgedAt(tr, run, j, k, token, v) {
      Holds(tr, run, j, k, token, tr[j].nextId);
      assert Linked(tr, run, j);
      OwnToken(tr[j], token);
      TakenHas(tr[k], tr[j].nextId);
    }
    if run[k].Judge? && Has(tr[k], token, Taken(run[k].id)) && v == Check(tr[k].taken[run[k].id], tr[k].now) {
      TakenIff(tr, run, k, token, run[k].id);
      var j: nat :| InFlight(tr, run, j, k, token, run[k].id);
      Holds(tr, run, j, k, token, run[k].id);
      assert JudgedAt(tr, run, j, k, token, v);
    }
  }

  lemma OwnToken(s: State, token: Token)
    requires CallsInv(s) && FatesInv(s) && token in s.pending
    ensures s.pending[token].token == token
  {
  }

  lemma TakenHas(s: State, id: nat)
    requires FatesInv(s) && id in s.taken
    ensures Has(s, s.taken[id].action.token, Taken(id))
  {
  }

  /** An initiated token is in exactly one place: not stored yet, in the pending map, in one confirming
      call in flight, or gone for good - judged, cancelled or timed out - and a time-out is never early. */
  lemma EveryTokenHasOneFate(start: Time, run: seq<Step>, token: Token)
    requires ValidRun(Init(start), run) && token in After(Init(start), run).calls
    ensures var s := After(Init(start), run);
            && token in s.fates
            && (s.fates[token].Unstored? <==> s.calls[token].Created?)
            && (s.fates[token].Pending? <==> token in s.pending)
            && (s.fates[token].Taken? <==> exists i :: i in s.taken && s.taken[i].action.token == token)
            && (s.fates[token] == Judged(Execute) <==> HasRun(s.runs, token))
            && (s.fates[token].TimedOut? ==> s.calls[token].action.expiresAt <= s.now)
    ensures FateIsHistory(Trace(Init(start), run), run, After(Init(start), run).fates[token], token)
  {
    Reached(start, run);
    FatesAreHistory(start, run, token);
  }

  /** A fate is what the steps of the run did: it is "cancelled" exactly when a cancel found the token
      pending, "timed out" exactly when its timer did, "taken" exactly when a confirm took it and has not
      judged it, and "judged" with a verdict exactly when the confirm that took it came to that verdict. */
  ghost predicate FateIsHistory(tr: seq<State>, run: seq<Step>, fate: Fate, token: Token) {
    && (fate == Cancelled <==> exists k: nat :: CancelledAt(tr, run, k, token))
    && (fate == TimedOut <==> exists k: nat :: TimedOutAt(tr, run, k, token))
    && (forall id: nat :: fate == Taken(id) <==> exists j: nat :: InFlight(tr, run, j, |run|, token, id))
    && (forall v :: fate == Judged(v) <==> exists j: nat, k: nat :: JudgedAt(tr, run, j, k, token, v))
  }

  lemma FatesAreHistory(start: Time, run: seq<Step>, token: Token)
    requires ValidRun(Init(start), run) && token in After(Init(start), run).fates
    ensures FateIsHistory(Trace(Init(start), run), run, After(Init(start), run).fates[token], token)
  {
    var tr, n := Trace(Init(start), run), |run|;
    RunIsTrace(start, run);
    CancelledIff(tr, run, n, token);
    TimedOutIff(tr, run, n, token);
    forall id: nat ensures Has(tr[n], token, Taken(id)) <==> exists j: nat :: InFlight(tr, run, j, n, token, id) {
      TakenIff(tr, run, n, token, id);
    }
    forall v ensures Has(tr[n], token, Judged(v)) <==> exists j: nat, k: nat :: JudgedAt(tr, run, j, k, token, v) {
      JudgedIff(tr, run, n, token, v);
    }
  }

  // ---------------------------------------------------------------- creation, storing and the timer in history

  /** Step k creates the token: the action is that of the user who asked for it, and expires 60 s later. */
  ghost predicate CreatedAt(tr: seq<State>, run: seq<Step>, k: nat, token: Token, action: PendingAction) {
    && k < |run| && k < |tr| && run[k].Create? && run[k].token == token
    && action == PendingAction(token, run[k].user, run[k].title, tr[k].now + 60_000_000_000)
  }

  predicate Owns(s: State, token: Token, action: PendingAction) {
    token in s.calls && s.calls[token].action == action
  }

  lemma CreateMoves(s: State, step: Step, token: Token, action: PendingAction)
    requires Enabled(s, step)
    ensures Owns(Apply(s, step), token, action) <==>
            || Owns(s, token, action)
            || (step.Create? && step.token == token
                && action == PendingAction(token, step.user, step.title, s.now + 60_000_000_000))
  {
  }

  /** The action of a token is the one its creation made. */
  lemma {:induction false} ActionIff(tr: seq<State>, run: seq<Step>, n: nat, token: Token, action: PendingAction)
    requires IsTrace(tr, run) && n <= |run| && tr[0].calls == map[]
    ensures Owns(tr[n], token, action) <==> exists k: nat :: k < n && CreatedAt(tr, run, k, token, action)
    decreases n
  {
    if n > 0 {
      var k := n - 1;
      assert Linked(tr, run, k);
      CreateMoves(tr[k], run[k], token, action);
      ActionIff(tr, run, k, token, action);
      assert Owns(tr[n], token, action) <==> Owns(tr[k], token, action) || CreatedAt(tr, run, k, token, action);
    }
  }

  /** One call at each stage: created and not stored, stored and not armed, armed to fire at a time. */
  predicate WaitsForStore(s: State, token: Token) {
    token in s.calls && s.calls[token].Created?
  }

  predicate WaitsForArm(s: State, token: Token) {
    token in s.calls && s.calls[token].Stored?
  }

  predicate WaitsForFire(s: State, token: Token, fireAt: Time) {
    token in s.calls && s.calls[token].Armed? && s.calls[token].fireAt == fireAt
  }

  lemma StageMoves(s: State, step: Step, token: Token)
    requires Enabled(s, step)
    ensures WaitsForStore(Apply(s, step), token) <==>
            (WaitsForStore(s, token) && step != Store(token)) || (step.Create? && step.token == token)
    ensures WaitsForArm(Apply(s, step), token) <==>
            (WaitsForArm(s, token) && step != Arm(token)) || step == Store(token)
  {
  }

  lemma ArmMoves(s: State, step: Step, token: Token, fireAt: Time)
    requires Enabled(s, step)
    ensures WaitsForFire(Apply(s, step), token, fireAt) <==>
            || (WaitsForFire(s, token, fireAt) && step != Fire(token))
            || (step == Arm(token) && fireAt == s.now + 60_000_000_000)
  {
  }

  /** Step k creates the token, and no step from there to n stores it. */
  ghost predicate CreatedOnly(run: seq<Step>, k: nat, n: nat, token: Token) {
    k < n <= |run| && run[k].Create? && run[k].token == token && forall m: nat :: k < m < n ==> run[m] != Store(token)
  }

  ghost predicate StoredOnly(run: seq<Step>, k: nat, n: nat, token: Token) {
    k < n <= |run| && run[k] == Store(token) && forall m: nat :: k < m < n ==> run[m] != Arm(token)
  }

  /** Step k sets the timer to `fireAt`, a minute later, and no step from there to n is its firing. */
  ghost predicate ArmedOnly(tr: seq<State>, run: seq<Step>, k: nat, n: nat, token: Token, fireAt: Time) {
    && k < n <= |run| && k < |tr| && run[k] == Arm(token) && fireAt == tr[k].now + 60_000_000_000
    && forall m: nat :: k < m < n ==> run[m] != Fire(token)
  }

  lemma {:induction false} StoreIff(tr: seq<State>, run: seq<Step>, n: nat, token: Token)
    requires IsTrace(tr, run) && n <= |run| && tr[0].calls == map[]
    ensures WaitsForStore(tr[n], token) <==> exists k: nat :: CreatedOnly(run, k, n, token)
    decreases n
  {
    if n > 0 {
      var k := n - 1;
      assert Linked(tr, run, k);
      StageMoves(tr[k], run[k], token);
      StoreIff(tr, run, k, token);
      assert CreatedOnly(run, k, n, token) <==> run[k].Create? && run[k].token == token;
      forall j: nat | j < k ensures CreatedOnly(run, j, n, token) <==>
                                    CreatedOnly(run, j, k, token) && run[k] != Store(token) {
      }
    }
  }

  lemma {:induction false} ArmIff(tr: seq<State>, run: seq<Step>, n: nat, token: Token)
    requires IsTrace(tr, run) && n <= |run| && tr[0].calls == map[]
    ensures WaitsForArm(tr[n], token) <==> exists k: nat :: StoredOnly(run, k, n, token)
    decreases n
  {
    if n > 0 {
      var k := n - 1;
      assert Linked(tr, run, k);
      StageMoves(tr[k], run[k], token);
      ArmIff(tr, run, k, token);
      assert StoredOnly(run, k, n, token) <==> run[k] == Store(token);
      forall j: nat | j < k ensures StoredOnly(run, j, n, token) <==>
                                    StoredOnly(run, j, k, token) && run[k] != Arm(token) {
      }
    }
  }

  lemma {:induction false} ArmedIff(tr: seq<State>, run: seq<Step>, n: nat, token: Token, fireAt: Time)
    requires IsTrace(tr, run) && n <= |run| && tr[0].calls == map[]
    ensures WaitsForFire(tr[n], token, fireAt) <==> exists k: nat :: ArmedOnly(tr, run, k, n, token, fireAt)
    decreases n
  {
    if n > 0 {
      var k := n - 1;
      assert Linked(tr, run, k);
      ArmMoves(tr[k], run[k], token, fireAt);
      ArmedIff(tr, run, k, token, fireAt);
      assert ArmedOnly(tr, run, k, n, token, fireAt) <==> run[k] == Arm(token) && fireAt == tr[k].now + 60_000_000_000;
      forall j: nat | j < k ensures ArmedOnly(tr, run, j, n, token, fireAt) <==>
                                    ArmedOnly(tr, run, j, k, token, fireAt) && run[k] != Fire(token) {
      }
    }
  }

  /** The timer was armed 60 s ago or more, at step k, and has not fired. */
  ghost predicate DueSince(tr: seq<State>, run: seq<Step>, k: nat, n: nat, token: Token) {
    && n < |tr| && k < |tr| && tr[k].now + 60_000_000_000 <= tr[n].now
    && ArmedOnly(tr, run, k, n, token, tr[k].now + 60_000_000_000)
  }

  lemma FireIff(tr: seq<State>, run: seq<Step>, n: nat, token: Token)
    requires IsTrace(tr, run) && n <= |run| && tr[0].calls == map[]
    ensures Enabled(tr[n], Fire(token)) <==> exists k: nat :: DueSince(tr, run, k, n, token)
  {
    if Enabled(tr[n], Fire(token)) {
      var fireAt := tr[n].calls[token].fireAt;
      ArmedIff(tr, run, n, token, fireAt);
      var k: nat :| ArmedOnly(tr, run, k, n, token, fireAt);
      assert DueSince(tr, run, k, n, token);
    }
    if k: nat :| DueSince(tr, run, k, n, token) {
      ArmedIff(tr, run, n, token, tr[k].now + 60_000_000_000);
    }
  }

  /** When an initiating call can go on: it can store the token once it is created, arm the timer once it is
      stored, and the timer can fire from exactly 60 s after it was armed, each once. */
  lemma EnabledIff(start: Time, run: seq<Step>, token: Token)
    requires ValidRun(Init(start), run)
    ensures var tr, n := Trace(Init(start), run), |run|;
            && (Enabled(tr[n], Store(token)) <==> exists k: nat :: CreatedOnly(run, k, n, token))
            && (Enabled(tr[n], Arm(token)) <==> exists k: nat :: StoredOnly(run, k, n, token))
            && (Enabled(tr[n], Fire(token)) <==> exists k: nat :: DueSince(tr, run, k, n, token))
  {
    var tr, n := Trace(Init(start), run), |run|;
    RunIsTrace(start, run);
    StoreIff(tr, run, n, token);
    ArmIff(tr, run, n, token);
    FireIff(tr, run, n, token);
  }

  /** The run is by the user who created its token, at most 60 s after that. */
  ghost predicate Initiated(tr: seq<State>, run: seq<Step>, r: Run) {
    exists k: nat, action ::
      CreatedAt(tr, run, k, r.token, action) && r.sender == run[k].user && r.at <= tr[k].now + 60_000_000_000
  }

  // ---------------------------------------------------------------- safety

  /** Every action runs at most once, only for the user who initiated it, and not after it expired. */
  ghost predicate SafeRuns(tr: seq<State>, run: seq<Step>, runs: seq<Run>) {
    && (forall j, k :: 0 <= j < k < |runs| ==> runs[j].token != runs[k].token)
    && forall r :: r in runs ==> Initiated(tr, run, r)
  }

  lemma RunsAreSafe(start: Time, run: seq<Step>)
    requires ValidRun(Init(start), run)
    ensures SafeRuns(Trace(Init(start), run), run, After(Init(start), run).runs)
  {
    var tr, n := Trace(Init(start), run), |run|;
    Reached(start, run);
    RunIsTrace(start, run);
    forall r | r in tr[n].runs ensures Initiated(tr, run, r) {
      var action := tr[n].calls[r.token].action;
      ActionIff(tr, run, n, r.token, action);
      var k: nat :| k < n && CreatedAt(tr, run, k, r.token, action);
    }
  }

  // ---------------------------------------------------------------- a proper confirm runs

  /** Steps of other calls that can take the token out of the map. */
  predicate Touches(step: Step, token: Token) {
    (step.Take? || step.Cancel?) && step.token == token
  }

  lemma StepKeepsPending(s: State, step: Step, token: Token)
    requires CallsInv(s) && FatesInv(s) && Enabled(s, step) && token in s.pending && !Touches(step, token)
    requires s.now < s.pending[token].expiresAt
    ensures token in Apply(s, step).pending && Apply(s, step).pending[token] == s.pending[token]
  {
  }

  /** Without a confirm or cancel the token stays pending until it expires: no timer fires earlier. */
  lemma {:induction false} StaysPending(s: State, run: seq<Step>, token: Token)
    requires Inv(s) && ValidRun(s, run) && token in s.pending
    requires forall step :: step in run ==> !Touches(step, token)
    requires After(s, run).now < s.pending[token].expiresAt
    ensures After(s, run).now >= s.now
    ensures token in After(s, run).pending && After(s, run).pending[token] == s.pending[token]
    decreases |run|
  {
    if run != [] {
      var t := Apply(s, run[0]);
      NowGrows(t, run[1..]);
      assert run[0] in run;
      StepKeepsInv(s, run[0]);
      StepKeepsPending(s, run[0], token);
      StaysPending(t, run[1..], token);
    }
  }

  lemma {:induction false} NowGrows(s: State, run: seq<Step>)
    requires ValidRun(s, run)
    ensures s.now <= After(s, run).now
    decreases |run|
  {
    if run != [] { NowGrows(Apply(s, run[0]), run[1..]); }
  }

  /** A taken action stays with its confirming call until that call judges it. */
  lemma {:induction false} StaysTaken(s: State, run: seq<Step>, id: nat)
    requires Inv(s) && ValidRun(s, run) && id in s.taken && Judge(id) !in run
    ensures id in After(s, run).taken && After(s, run).taken[id] == s.taken[id]
    decreases |run|
  {
    if run != [] {
      assert run[0] in run;
      StepKeepsInv(s, run[0]);
      StaysTaken(Apply(s, run[0]), run[1..], id);
    }
  }

  /** A confirm that takes a pending token executes the action exactly when the sender initiated it and the
      check comes no later than the expiry, whatever happens between the take and the check. */
  lemma ConfirmRunsIff(s: State, token: Token, sender: UserID, between: seq<Step>)
    requires Inv(s) && token in s.pending
    requires ValidRun(Apply(s, Take(token, sender)), between) && Judge(s.nextId) !in between
    ensures var u := After(Apply(s, Take(token, sender)), between);
            && Enabled(u, Judge(s.nextId))
            && Apply(u, Judge(s.nextId)).runs ==
               u.runs + if sender == s.pending[token].userID && u.now <= s.pending[token].expiresAt
                        then [Run(token, sender, u.now)] else []
  {
    var t := Apply(s, Take(token, sender));
    StepKeepsInv(s, Take(token, sender));
    StaysTaken(t, between, s.nextId);
  }

  /** The first confirm by the initiator before the expiry, with no earlier confirm or cancel of the stored
      token, always runs the action if its check is in time too. */
  lemma FirstConfirmRuns(start: Time, before: seq<Step>, token: Token, waiting: seq<Step>, between: seq<Step>)
    requires ValidRun(Init(start), before) && Enabled(After(Init(start), before), Store(token))
    requires var s := Apply(After(Init(start), before), Store(token));
             var action := s.pending[token];
             && ValidRun(s, waiting) && (forall step :: step in waiting ==> !Touches(step, token))
             && After(s, waiting).now < action.expiresAt
             && var t := Apply(After(s, waiting), Take(token, action.userID));
                var id := After(s, waiting).nextId;
                && ValidRun(t, between) && Judge(id) !in between
                && After(t, between).now <= action.expiresAt
    ensures var s := Apply(After(Init(start), before), Store(token));
            var action := s.pending[token];
            var u := After(Apply(After(s, waiting), Take(token, action.userID)), between);
            var id := After(s, waiting).nextId;
            && Enabled(u, Judge(id))
            && Apply(u, Judge(id)).runs == u.runs + [Run(token, action.userID, u.now)]
  {
    Reached(start, before);
    var r := After(Init(start), before);
    var s := Apply(r, Store(token));
    StepKeepsInv(r, Store(token));
    StaysPending(s, waiting, token);
    RunKeepsInv(s, waiting);
    ConfirmRunsIff(After(s, waiting), token, s.pending[token].userID, between);
  }

  /** A confirm by anyone else uses the token up: afterwards the action never runs. */
  lemma WrongUserUsesTokenUp(s: State, token: Token, sender: UserID, run: seq<Step>)
    requires Inv(s) && token in s.pending && sender != s.pending[token].userID
    requires ValidRun(Apply(s, Take(token, sender)), run)
    ensures !HasRun(After(Apply(s, Take(token, sender)), run).runs, token)
  {
    var t := Apply(s, Take(token, sender));
    StepKeepsInv(s, Take(token, sender));
    NeverExecuted(t, run, token);
    RunKeepsInv(t, run);
  }

  /** Taken by a stranger, or refused to one. */
  ghost predicate Spoiled(s: State, token: Token) {
    && token in s.fates && token in s.calls
    && (s.fates[token] == Judged(NotAllowed)
        || (s.fates[token].Taken? && s.fates[token].id in s.taken
            && s.taken[s.fates[token].id].sender != s.calls[token].action.userID))
  }

  lemma StaysSpoiled(s: State, step: Step, token: Token)
    requires CallsInv(s) && FatesInv(s) && Enabled(s, step) && Spoiled(s, token)
    ensures Spoiled(Apply(s, step), token)
  {
    JudgeMoves(s, step, token, NotAllowed);
    if s.fates[token].Taken? { TakeMoves(s, step, token, s.fates[token].id); }
  }

  lemma {:induction false} NeverExecuted(s: State, run: seq<Step>, token: Token)
    requires Inv(s) && ValidRun(s, run) && Spoiled(s, token)
    ensures Spoiled(After(s, run), token)
    decreases |run|
  {
    if run != [] {
      StepKeepsInv(s, run[0]);
      StaysSpoiled(s, run[0], token);
      NeverExecuted(Apply(s, run[0]), run[1..], token);
    }
  }

  // ---------------------------------------------------------------- the locked map operations

  /** A run and one more step. */
  lemma {:induction false} RunOne(s: State, run: seq<Step>, step: Step)
    requires ValidRun(s, run) && Enabled(After(s, run), step)
    ensures ValidRun(s, run + [step]) && After(s, run + [step]) == Apply(After(s, run), step)
    decreases |run|
  {
    if run == [] {
      assert (run + [step])[1..] == [];
    } else {
      assert (run + [step])[1..] == run[1..] + [step];
      RunOne(Apply(s, run[0]), run[1..], step);
    }
  }

  /** The router's half of the protocol: each method is one critical section on the pending map, or a part
      of a call between them. The object keeps the run its callers have made of it so far; calls from
      different goroutines interleave freely, so every run of the machine is one of such an object. */
  class Router {
    var pending: map<Token, PendingAction>
    ghost const start: Time
    ghost var run: seq<Step>

    ghost function Now(): State
      requires ValidRun(Init(start), run)
      reads this
    {
      After(Init(start), run)
    }

    ghost predicate Valid()
      reads this
    {
      ValidRun(Init(start), run) && pending == Now().pending
    }

    constructor (ghost start: Time)
      ensures Valid() && this.start == start && run == []
    {
      pending := map[];
      this.start := start;
      run := [];
    }

    /** Time passes. */
    ghost method Tick(to: Time)
      requires Valid() && Now().now <= to
      modifies this`run
      ensures Valid() && run == old(run) + [Advance(to)]
    {
      RunOne(Init(start), run, Advance(to));
      run := run + [Advance(to)];
    }

    /** Initiating, before the lock: a new token and an expiry a minute from now. */
    method NewAction(token: Token, userID: UserID, title: string, now: Time) returns (action: PendingAction)
      requires Valid() && now == Now().now && token !in Now().calls
      modifies this`run
      ensures Valid() && run == old(run) + [Create(token, userID, title)]
      ensures action == PendingAction(token, userID, title, now + 60_000_000_000)
              && token in Now().calls && Now().calls[token] == Created(action)
    {
      RunOne(Init(start), run, Create(token, userID, title));
      run := run + [Create(token, userID, title)];
      action := PendingAction(token, userID, title, now + TTL);
    }

    method StoreAction(action: PendingAction)
      requires Valid() && action.token in Now().calls && Now().calls[action.token] == Created(action)
      modifies this
      ensures Valid() && run == old(run) + [Store(action.token)]
      ensures pending == old(pending)[action.token := action]
    {
      RunOne(Init(start), run, Store(action.token));
      run := run + [Store(action.token)];
      pending := pending[action.token := action];
    }

    /** The timer is set, a minute long. */
    ghost method ArmTimer(token: Token)
      requires Valid() && Enabled(Now(), Arm(token))
      modifies this`run
      ensures Valid() && run == old(run) + [Arm(token)]
    {
      RunOne(Init(start), run, Arm(token));
      run := run + [Arm(token)];
    }

    method TakeAction(token: Token, sender: UserID) returns (action: Option<PendingAction>)
      requires Valid()
      modifies this
      ensures Valid() && run == old(run) + [Take(token, sender)]
      ensures action == if token in old(pending) then Some(old(pending)[token]) else None
      ensures action.Some? ==>
                var id := old(Now()).nextId; id in Now().taken && Now().taken[id] == Confirmation(action.value, sender)
      ensures pending == old(pending) - {token}
    {
      RunOne(Init(start), run, Take(token, sender));
      run := run + [Take(token, sender)];
      action := None;
      if token in pending {
        action := Some(pending[token]);
        pending := pending - {token};
      }
    }

    /** The checks after the take: user first, then the clock. */
    method CheckAction(ghost id: nat, action: PendingAction, sender: UserID, now: Time) returns (verdict: Verdict)
      requires Valid() && now == Now().now
      requires id in Now().taken && Now().taken[id] == Confirmation(action, sender)
      modifies this`run
      ensures Valid() && run == old(run) + [Judge(id)]
      ensures verdict.Execute? <==> action.userID == sender && now <= action.expiresAt
      ensures verdict.NotAllowed? <==> action.userID != sender
      ensures Now().runs == old(Now()).runs + if verdict.Execute? then [Run(action.token, sender, now)] else []
    {
      RunOne(Init(start), run, Judge(id));
      run := run + [Judge(id)];
      if action.userID != sender {
        return NotAllowed;
      }
      if now > action.expiresAt {
        return TooLate;
      }
      return Execute;
    }

    method CancelAction(token: Token)
      requires Valid()
      modifies this
      ensures Valid() && run == old(run) + [Cancel(token)]
      ensures pending == old(pending) - {token}
    {
      RunOne(Init(start), run, Cancel(token));
      run := run + [Cancel(token)];
      pending := pending - {token};
    }

    method TimerFires(token: Token)
      requires Valid() && Enabled(Now(), Fire(token))
      modifies this
      ensures Valid() && run == old(run) + [Fire(token)]
      ensures pending == old(pending) - {token}
    {
      RunOne(Init(start), run, Fire(token));
      run := run + [Fire(token)];
      pending := pending - {token};
    }

    /** Whatever calls have been made: what has run, ran once, for its initiator, in time. */
    lemma Safe()
      requires Valid()
      ensures SafeRuns(Trace(Init(start), run), run, Now().runs)
    {
      RunsAreSafe(start, run);
    }
  }
}
