/** The admission path of the message router. Every message has a goroutine of its own: it is screened
    without a lock, then asks the duplicate memory under one lock and the rate limiter under another.
    Each of these is one step of a machine, so that calls interleave, and may take the two locks in
    different orders. */
module Admission {
  import opened Options
  import opened Text
  import Dedup
  import Limiter

  type Time = int

  const WINDOW: Time := 60_000_000_000
  const DEFAULT_LIMIT: int := 20

  /** A parsed message event: the sender's two ids, the message id, the creation time when it parses,
      and the words of its text once a leading mention is gone. */
  datatype Message = Message(userID: string, openID: string, id: string,
                             created: Dedup.CreateTime, words: seq<string>)

  datatype Verdict =
    | Unparsed
    | NotAdmin
    | SentBeforeStartup
    | TooOld
    | Duplicate
    | NoText
    | RateLimited
    | UnknownCommand(user: string)
    | Dispatched(user: string, command: string, args: seq<string>)

  datatype Policy = Policy(admins: set<string>, commands: set<string>, startedAt: Time, limit: int)

  /** A call that the duplicate memory let through, with its clock readings: freshness was judged at
      `freshAt`, the memory was asked at `checkAt` and wrote down `storeAt`. */
  datatype Pass = Pass(call: nat, message: Message, freshAt: Time, checkAt: Time, storeAt: Time)

  /** A command that was run, in the order of the limiter's grants. */
  datatype CommandRun = CommandRun(user: string, command: string, pass: Pass, allowAt: Time)

  /** How far a call has come. */
  datatype Stage =
    | Arrived(message: Message)
    | Screened(message: Message, freshAt: Time)
    | Asking(pass: Pass)
    | Ended(verdict: Verdict)

  /** The complete logs of the duplicate memory and the limiter, everything the memory let through, and
      the commands that ran. */
  datatype History = History(
    accepted: seq<Dedup.Acceptance>, granted: seq<Limiter.Grant>, passed: seq<Pass>, runs: seq<CommandRun>)

  datatype State = State(now: Time, calls: map<nat, Stage>, h: History)

  datatype Step =
    | Advance(to: Time)
    | Arrive(call: nat, message: Message)
    | Screen(call: nat)
    | Remember(call: nat, storeAt: Time)
    | Ask(call: nat)

  function Init(start: Time): State {
    State(start, map[], History([], [], [], []))
  }

  // ---------------------------------------------------------------- the tests

  /** The id the sender is admitted under: the user id if that is an admin, else the open id. */
  function Sender(p: Policy, m: Message): Option<string> {
    if m.userID in p.admins then Some(m.userID)
    else if m.openID in p.admins then Some(m.openID)
    else None
  }

  /** The unlocked tests; None lets the message go on. */
  function ScreenVerdict(p: Policy, m: Message, now: Time): Option<Verdict> {
    if Sender(p, m).None? then Some(NotAdmin)
    else if Dedup.BeforeStartup(m.created, p.startedAt) then Some(SentBeforeStartup)
    else if Dedup.Stale(m.created, now) then Some(TooOld)
    else None
  }

  predicate Known(h: History, m: Message, now: Time) {
    m.id != "" && Dedup.Remembered(h.accepted, m.id, now)
  }

  /** The duplicate memory, and the test for text behind it. */
  function RememberVerdict(h: History, m: Message, now: Time): Option<Verdict> {
    if Known(h, m, now) then Some(Duplicate)
    else if m.words == [] then Some(NoText)
    else None
  }

  function Command(m: Message): string {
    if m.words == [] then "" else WithoutSlash(Lower(m.words[0]))
  }

  function User(p: Policy, m: Message): string {
    if Sender(p, m).Some? then Sender(p, m).value else ""
  }

  predicate Granted(p: Policy, h: History, m: Message, now: Time) {
    Limiter.Admits(h.granted, User(p, m), now, p.limit, WINDOW)
  }

  /** The limiter, and the look-up of the command behind it. */
  function AskVerdict(p: Policy, h: History, m: Message, now: Time): Verdict {
    if !Granted(p, h, m, now) then RateLimited
    else if Command(m) !in p.commands then UnknownCommand(User(p, m))
    else Dispatched(User(p, m), Command(m), if m.words == [] then [] else m.words[1..])
  }

  // ---------------------------------------------------------------- the machine

  predicate Enabled(s: State, step: Step) {
    match step
    case Advance(to) => s.now <= to
    case Arrive(c, _) => c !in s.calls
    case Screen(c) => c in s.calls && s.calls[c].Arrived?
    case Remember(c, storeAt) => c in s.calls && s.calls[c].Screened? && s.now <= storeAt
    case Ask(c) => c in s.calls && s.calls[c].Asking?
  }

  function Screening(p: Policy, s: State, c: nat): State
    requires Enabled(s, Screen(c))
  {
    var m := s.calls[c].message;
    var v := ScreenVerdict(p, m, s.now);
    s.(calls := s.calls[c := if v.Some? then Ended(v.value) else Screened(m, s.now)])
  }

  /** The whole locked section: the time goes on to `storeAt` in it. */
  function Remembering(s: State, c: nat, storeAt: Time): State
    requires Enabled(s, Remember(c, storeAt))
  {
    var m := s.calls[c].message;
    var v, pass := RememberVerdict(s.h, m, s.now), Pass(c, m, s.calls[c].freshAt, s.now, storeAt);
    State(storeAt,
          s.calls[c := if v.Some? then Ended(v.value) else Asking(pass)],
          s.h.(accepted := Dedup.Accept(s.h.accepted, Dedup.Attempt(m.id, s.now, storeAt)),
               passed := if Known(s.h, m, s.now) then s.h.passed else s.h.passed + [pass]))
  }

  function AskingStep(p: Policy, s: State, c: nat): State
    requires Enabled(s, Ask(c))
  {
    var pass := s.calls[c].pass;
    var m := pass.message;
    var v := AskVerdict(p, s.h, m, s.now);
    s.(calls := s.calls[c := Ended(v)],
       h := s.h.(granted := if v.RateLimited? then s.h.granted
                            else s.h.granted + [Limiter.Grant(User(p, m), s.now)],
                 runs := if v.Dispatched? then s.h.runs + [CommandRun(User(p, m), Command(m), pass, s.now)]
                         else s.h.runs))
  }

  function Apply(p: Policy, s: State, step: Step): State
    requires Enabled(s, step)
  {
    match step
    case Advance(to) => s.(now := to)
    case Arrive(c, m) => s.(calls := s.calls[c := Arrived(m)])
    case Screen(c) => Screening(p, s, c)
    case Remember(c, storeAt) => Remembering(s, c, storeAt)
    case Ask(c) => AskingStep(p, s, c)
  }

  ghost predicate ValidRun(p: Policy, s: State, run: seq<Step>)
    decreases |run|
  {
    run == [] || (Enabled(s, run[0]) && ValidRun(p, Apply(p, s, run[0]), run[1..]))
  }

  ghost function After(p: Policy, s: State, run: seq<Step>): State
    requires ValidRun(p, s, run)
    decreases |run|
  {
    if run == [] then s else After(p, Apply(p, s, run[0]), run[1..])
  }

  lemma {:induction false} RunOne(p: Policy, s: State, run: seq<Step>, step: Step)
    requires ValidRun(p, s, run) && Enabled(After(p, s, run), step)
    ensures ValidRun(p, s, run + [step]) && After(p, s, run + [step]) == Apply(p, After(p, s, run), step)
    decreases |run|
  {
    if run == [] {
      assert (run + [step])[1..] == [];
    } else {
      assert (run + [step])[1..] == run[1..] + [step];
      RunOne(p, Apply(p, s, run[0]), run[1..], step);
    }
  }

  // ---------------------------------------------------------------- what every step keeps

  /** A pass obeyed the tests before it, and its readings are in order. */
  predicate Proper(p: Policy, pass: Pass, now: Time) {
    && Sender(p, pass.message).Some?
    && !Dedup.BeforeStartup(pass.message.created, p.startedAt) && !Dedup.Stale(pass.message.created, pass.freshAt)
    && pass.freshAt <= pass.checkAt <= pass.storeAt <= now
  }

  ghost predicate CallsInv(p: Policy, s: State) {
    forall c :: c in s.calls ==> StageOK(p, s, c)
  }

  ghost predicate StageOK(p: Policy, s: State, c: nat)
    requires c in s.calls
  {
    match s.calls[c]
    case Screened(m, freshAt) => freshAt <= s.now && ScreenVerdict(p, m, freshAt).None?
    case Asking(pass) => pass.call == c && pass in s.h.passed && pass.message.words != []
    case _ => true
  }

  /** Passes are proper, logged, one per call, and those of one message id over 30 minutes apart. */
  ghost predicate PassesInv(p: Policy, s: State) {
    && (forall x :: x in s.h.passed ==>
          && Proper(p, x, s.now)
          && x.call in s.calls && (s.calls[x.call].Asking? || s.calls[x.call].Ended?)
          && (x.message.id != "" ==> Dedup.Acceptance(x.message.id, x.storeAt) in s.h.accepted))
    && PassesApart(s.h.passed)
  }

  ghost predicate PassesApart(passed: seq<Pass>) {
    forall i, j :: 0 <= i < j < |passed| ==> Apart(passed[i], passed[j])
  }

  /** Two passes, the first one earlier. */
  predicate Apart(x: Pass, y: Pass) {
    x.call != y.call && (x.message.id == y.message.id != "" ==> x.storeAt + Dedup.MEMORY < y.checkAt)
  }

  /** Every command that ran is one of the passes, no pass twice. */
  ghost predicate RunsInv(p: Policy, s: State) {
    && (forall r :: r in s.h.runs ==>
          && r.pass in s.h.passed && r.pass.call in s.calls && s.calls[r.pass.call].Ended?
          && Sender(p, r.pass.message) == Some(r.user)
          && r.pass.message.words != [] && r.command == Command(r.pass.message) && r.command in p.commands)
    && forall i, j :: 0 <= i < j < |s.h.runs| ==> s.h.runs[i].pass.call != s.h.runs[j].pass.call
  }

  ghost predicate GrantsInv(p: Policy, s: State) {
    && Limiter.Legal(s.h.granted, p.limit, WINDOW)
    && forall g :: g in s.h.granted ==> g.at <= s.now
  }

  ghost predicate Inv(p: Policy, s: State) {
    CallsInv(p, s) && PassesInv(p, s) && RunsInv(p, s) && GrantsInv(p, s)
  }

  lemma ScreenKeeps(p: Policy, s: State, c: nat)
    requires Inv(p, s) && Enabled(s, Screen(c))
    ensures Inv(p, Apply(p, s, Screen(c)))
  {
    var t := Apply(p, s, Screen(c));
    forall d | d in t.calls ensures StageOK(p, t, d) {
      if d != c { assert StageOK(p, s, d); }
    }
  }

  lemma SimpleKeeps(p: Policy, s: State, step: Step)
    requires Inv(p, s) && Enabled(s, step) && (step.Advance? || step.Arrive?)
    ensures Inv(p, Apply(p, s, step))
  {
    var t := Apply(p, s, step);
    forall d | d in t.calls ensures StageOK(p, t, d) {
      if d in s.calls { assert StageOK(p, s, d); }
    }
  }

  lemma RememberKeeps(p: Policy, s: State, c: nat, storeAt: Time)
    requires Inv(p, s) && Enabled(s, Remember(c, storeAt))
    ensures Inv(p, Apply(p, s, Remember(c, storeAt)))
  {
    var t := Apply(p, s, Remember(c, storeAt));
    var m := s.calls[c].message;
    var x := Pass(c, m, s.calls[c].freshAt, s.now, storeAt);
    assert StageOK(p, s, c);
    forall d | d in t.calls ensures StageOK(p, t, d) {
      if d != c { assert StageOK(p, s, d); } else { assert x in s.h.passed + [x]; }
    }
    if !Known(s.h, m, s.now) { PassAdded(s, x); }
    forall y | y in t.h.passed ensures Proper(p, y, t.now) && y.call in t.calls
                                       && (t.calls[y.call].Asking? || t.calls[y.call].Ended?)
    {
      assert y in s.h.passed || y == x;
    }
  }

  /** A new pass is apart from all earlier ones. */
  lemma PassAdded(s: State, x: Pass)
    requires PassesApart(s.h.passed) && !Known(s.h, x.message, x.checkAt)
    requires x.call in s.calls && s.calls[x.call].Screened?
    requires forall y :: y in s.h.passed ==>
               && y.call in s.calls && (s.calls[y.call].Asking? || s.calls[y.call].Ended?)
               && (y.message.id != "" ==> Dedup.Acceptance(y.message.id, y.storeAt) in s.h.accepted)
    ensures PassesApart(s.h.passed + [x])
  {
    forall i | 0 <= i < |s.h.passed| ensures Apart(s.h.passed[i], x) {
      var y := s.h.passed[i];
      assert y in s.h.passed;
      if y.message.id == x.message.id != "" {
        assert Dedup.Acceptance(y.message.id, y.storeAt) in s.h.accepted;
      }
    }
  }

  lemma AskKeepsCalls(p: Policy, s: State, c: nat)
    requires CallsInv(p, s) && PassesInv(p, s) && Enabled(s, Ask(c))
    ensures CallsInv(p, Apply(p, s, Ask(c))) && PassesInv(p, Apply(p, s, Ask(c)))
  {
    var t := Apply(p, s, Ask(c));
    forall d | d in t.calls ensures StageOK(p, t, d) {
      if d != c { assert StageOK(p, s, d); }
    }
  }

  lemma AskKeepsRuns(p: Policy, s: State, c: nat)
    requires CallsInv(p, s) && PassesInv(p, s) && RunsInv(p, s) && Enabled(s, Ask(c))
    ensures RunsInv(p, Apply(p, s, Ask(c)))
  {
    var x := s.calls[c].pass;
    assert StageOK(p, s, c);
    assert Proper(p, x, s.now);
    forall r | r in s.h.runs ensures r.pass.call != c {
      assert s.calls[r.pass.call].Ended?;
    }
  }

  lemma AskKeepsGrants(p: Policy, s: State, c: nat)
    requires GrantsInv(p, s) && Enabled(s, Ask(c))
    ensures GrantsInv(p, Apply(p, s, Ask(c)))
  {
    var m := s.calls[c].pass.message;
    if Granted(p, s.h, m, s.now) {
      Limiter.LegalGrows(s.h.granted, Limiter.Grant(User(p, m), s.now), p.limit, WINDOW);
    }
  }

  lemma AskKeeps(p: Policy, s: State, c: nat)
    requires Inv(p, s) && Enabled(s, Ask(c))
    ensures Inv(p, Apply(p, s, Ask(c)))
  {
    AskKeepsCalls(p, s, c);
    AskKeepsRuns(p, s, c);
    AskKeepsGrants(p, s, c);
  }

  lemma StepKeepsInv(p: Policy, s: State, step: Step)
    requires Inv(p, s) && Enabled(s, step)
    ensures Inv(p, Apply(p, s, step))
  {
    match step
    case Advance(_) => SimpleKeeps(p, s, step);
    case Arrive(_, _) => SimpleKeeps(p, s, step);
    case Screen(c) => ScreenKeeps(p, s, c);
    case Remember(c, storeAt) => RememberKeeps(p, s, c, storeAt);
    case Ask(c) => AskKeeps(p, s, c);
  }

  lemma {:induction false} RunKeepsInv(p: Policy, s: State, run: seq<Step>)
    requires Inv(p, s) && ValidRun(p, s, run)
    ensures Inv(p, After(p, s, run))
    decreases |run|
  {
    if run != [] {
      StepKeepsInv(p, s, run[0]);
      RunKeepsInv(p, Apply(p, s, run[0]), run[1..]);
    }
  }

  lemma Reached(p: Policy, start: Time, run: seq<Step>)
    requires ValidRun(p, Init(start), run)
    ensures Inv(p, After(p, Init(start), run))
  {
    RunKeepsInv(p, Init(start), run);
  }

  // ---------------------------------------------------------------- what whole runs guarantee

  /** Commands run for `user` in (lo, hi]. */
  function RunCount(runs: seq<CommandRun>, user: string, lo: Time, hi: Time): nat {
    if runs == [] then 0
    else
      var last := runs[|runs| - 1];
      RunCount(runs[..|runs| - 1], user, lo, hi) + if last.user == user && lo < last.allowAt <= hi then 1 else 0
  }

  /** The commands run for `user` in (from, to], by their places in the list of runs. */
  ghost function RunsWithin(runs: seq<CommandRun>, user: string, from: Time, to: Time): set<int> {
    set i | 0 <= i < |runs| && runs[i].user == user && from < runs[i].allowAt <= to
  }

  lemma {:induction false} RunCountIsWithin(runs: seq<CommandRun>, user: string, from: Time, to: Time)
    ensures RunCount(runs, user, from, to) == |RunsWithin(runs, user, from, to)|
    decreases |runs|
  {
    if runs != [] {
      var n := |runs| - 1;
      RunCountIsWithin(runs[..n], user, from, to);
      var before := RunsWithin(runs[..n], user, from, to);
      if runs[n].user == user && from < runs[n].allowAt <= to {
        assert RunsWithin(runs, user, from, to) == before + {n};
      } else {
        assert RunsWithin(runs, user, from, to) == before;
      }
    }
  }

  lemma RunCountOne(runs: seq<CommandRun>, r: CommandRun, user: string, lo: Time, hi: Time)
    ensures RunCount(runs + [r], user, lo, hi) ==
            RunCount(runs, user, lo, hi) + if r.user == user && lo < r.allowAt <= hi then 1 else 0
  {
    assert (runs + [r])[..|runs|] == runs;
  }

  /** Every command that ran was paid for by a grant. */
  lemma {:induction false} RunsAreGranted(p: Policy, s: State, run: seq<Step>, user: string, lo: Time, hi: Time)
    requires ValidRun(p, s, run)
    requires RunCount(s.h.runs, user, lo, hi) <= Limiter.Count(s.h.granted, user, lo, hi)
    ensures var h := After(p, s, run).h; RunCount(h.runs, user, lo, hi) <= Limiter.Count(h.granted, user, lo, hi)
    decreases |run|
  {
    if run != [] {
      if run[0].Ask? { OneAsk(p, s, run[0].call, user, lo, hi); }
      RunsAreGranted(p, Apply(p, s, run[0]), run[1..], user, lo, hi);
    }
  }

  lemma OneAsk(p: Policy, s: State, c: nat, user: string, lo: Time, hi: Time)
    requires Enabled(s, Ask(c))
    requires RunCount(s.h.runs, user, lo, hi) <= Limiter.Count(s.h.granted, user, lo, hi)
    ensures var h := Apply(p, s, Ask(c)).h; RunCount(h.runs, user, lo, hi) <= Limiter.Count(h.granted, user, lo, hi)
  {
    var m := s.calls[c].pass.message;
    Limiter.CountOne(s.h.granted, Limiter.Grant(User(p, m), s.now), user, lo, hi);
    RunCountOne(s.h.runs, CommandRun(User(p, m), Command(m), s.calls[c].pass, s.now), user, lo, hi);
  }

  /** The first pass came this long before the second: over 30 minutes, and further bounded by the
      creation time of the second when that parses. */
  ghost predicate Second(x: Pass, y: Pass) {
    && x.storeAt + 1_800_000_000_000 < y.checkAt
    && (y.message.created.Some? ==>
          x.storeAt + 1_740_000_000_000 < y.message.created.value * 1_000_000 + (y.checkAt - y.freshAt))
  }

  lemma PassesSecond(p: Policy, s: State, x: Pass, y: Pass)
    requires PassesInv(p, s) && x in s.h.passed && y in s.h.passed && x.call != y.call
    requires x.message.id == y.message.id != ""
    ensures Second(x, y) || Second(y, x)
  {
    var i :| 0 <= i < |s.h.passed| && s.h.passed[i] == x;
    var j :| 0 <= j < |s.h.passed| && s.h.passed[j] == y;
    assert Proper(p, x, s.now) && Proper(p, y, s.now);
    if i < j { assert Apart(x, y); } else { assert Apart(y, x); }
  }

  /** The command that ran is one its message names, for an admin who sent it. */
  ghost predicate Sent(p: Policy, r: CommandRun) {
    && r.user in p.admins && r.command in p.commands
    && r.user == (if r.pass.message.userID in p.admins then r.pass.message.userID else r.pass.message.openID)
    && r.pass.message.words != [] && Names(r.pass.message.words[0], r.command)
  }

  /** Over every interleaving: commands run only for admins, by the name in the message; two runs for one
      message id lie over 30 minutes apart, and only if the creation time lets the message be fresh so late;
      one user gets at most k * limit commands in k minutes. */
  lemma CommandsAreSafe(p: Policy, start: Time, run: seq<Step>, user: string, from: Time, to: Time, k: nat)
    requires ValidRun(p, Init(start), run) && p.limit >= 0 && to - from == k * 60_000_000_000
    ensures var runs := After(p, Init(start), run).h.runs;
            && (forall r :: r in runs ==> Sent(p, r))
            && (forall i, j :: 0 <= i < j < |runs| && runs[i].pass.message.id == runs[j].pass.message.id != "" ==>
                  Second(runs[i].pass, runs[j].pass) || Second(runs[j].pass, runs[i].pass))
            && |RunsWithin(runs, user, from, to)| <= k * p.limit
  {
    Reached(p, start, run);
    var s := After(p, Init(start), run);
    forall r | r in s.h.runs ensures Sent(p, r) {
      NamesIsLookup(r.pass.message.words[0], r.command);
    }
    forall i, j | 0 <= i < j < |s.h.runs| && s.h.runs[i].pass.message.id == s.h.runs[j].pass.message.id != ""
      ensures Second(s.h.runs[i].pass, s.h.runs[j].pass) || Second(s.h.runs[j].pass, s.h.runs[i].pass)
    {
      assert s.h.runs[i] in s.h.runs && s.h.runs[j] in s.h.runs;
      PassesSecond(p, s, s.h.runs[i].pass, s.h.runs[j].pass);
    }
    RunsAreGranted(p, Init(start), run, user, from, to);
    Limiter.LegalBound(s.h.granted, user, from, to, k, p.limit, WINDOW);
    RunCountIsWithin(s.h.runs, user, from, to);
  }

  // ---------------------------------------------------------------- exactly when a message runs twice

  /** Between the freshness test and the duplicate memory no call waited longer than `delay`. */
  ghost predicate Prompt(passed: seq<Pass>, delay: Time) {
    forall x :: x in passed ==> x.checkAt <= x.freshAt + delay
  }

  /** In this run the message ran its command for two calls, the first of which passed at `first`. */
  ghost predicate RunsTwice(p: Policy, run: seq<Step>, i: nat, j: nat, m: Message, delay: Time, first: Time) {
    && ValidRun(p, Init(p.startedAt), run)
    && var h := After(p, Init(p.startedAt), run).h;
       && Prompt(h.passed, delay)
       && i < |h.runs| && j < |h.runs| && i != j && h.runs[i].pass.message == h.runs[j].pass.message == m
       && first == h.runs[i].pass.storeAt <= h.runs[j].pass.storeAt
  }

  ghost predicate CanRunTwice(p: Policy, m: Message, delay: Time, first: Time) {
    exists run, i: nat, j: nat :: RunsTwice(p, run, i, j, m, delay, first)
  }

  /** The message may run a command at all. */
  ghost predicate Runnable(p: Policy, m: Message) {
    && (m.userID in p.admins || m.openID in p.admins)
    && m.words != [] && (exists c :: c in p.commands && Names(m.words[0], c)) && p.limit >= 1
  }

  /** Exactly when some interleaving runs the command of one named message twice: its creation time lies
      more than 29 minutes, less the longest wait between freshness test and lock, after its first pass. */
  lemma RunsTwiceIff(p: Policy, m: Message, delay: Time, first: Time)
    requires Runnable(p, m) && m.id != "" && m.created.Some? && 0 <= delay && p.startedAt <= first
    requires p.startedAt - 5_000_000_000 <= m.created.value * 1_000_000
    ensures CanRunTwice(p, m, delay, first) <==>
            first + 1_740_000_000_000 < m.created.value * 1_000_000 + delay
  {
    if CanRunTwice(p, m, delay, first) {
      var run, i: nat, j: nat :| RunsTwice(p, run, i, j, m, delay, first);
      TwiceIsLate(p, run, i, j, m, delay, first);
    }
    if first + Dedup.MEMORY < Dedup.Nanos(m.created.value) + Dedup.STALE + delay {
      var run := Twice(p, m, delay, first);
      assert RunsTwice(p, run, 0, 1, m, delay, first);
    }
  }

  /** A run that does it: two calls for the message, the second one held back between its freshness test and
      the duplicate memory for as long as allowed. */
  lemma Twice(p: Policy, m: Message, delay: Time, first: Time) returns (run: seq<Step>)
    requires Runnable(p, m) && m.id != "" && m.created.Some? && 0 <= delay && p.startedAt <= first
    requires !Dedup.BeforeStartup(m.created, p.startedAt)
    requires first + Dedup.MEMORY < Dedup.Nanos(m.created.value) + Dedup.STALE + delay
    ensures RunsTwice(p, run, 0, 1, m, delay, first)
  {
    var again := first + Dedup.MEMORY + 1;
    var f1, f2 := Dedup.AtEarliest(p.startedAt, first - delay), Dedup.AtEarliest(p.startedAt, again - delay);
    var x, y := Pass(0, m, f1, first, first), Pass(1, m, f2, again, again);
    WitnessTests(p, m, x, y);
    if f2 <= first {
      run := EarlyScreen(p, m, x, y);
    } else {
      run := LateScreen(p, m, x, y);
    }
  }

  /** The history after the first pass, its run, the second pass, and its run. */
  function H1(x: Pass): History { History([Dedup.Acceptance(x.message.id, x.storeAt)], [], [x], []) }

  function H2(p: Policy, x: Pass): History {
    var u := User(p, x.message);
    H1(x).(granted := [Limiter.Grant(u, x.storeAt)], runs := [CommandRun(u, Command(x.message), x, x.storeAt)])
  }

  function H3(p: Policy, x: Pass, y: Pass): History {
    H2(p, x).(accepted := H1(x).accepted + H1(y).accepted, passed := [x, y])
  }

  function H4(p: Policy, x: Pass, y: Pass): History {
    H3(p, x, y).(granted := H2(p, x).granted + H2(p, y).granted, runs := H2(p, x).runs + H2(p, y).runs)
  }

  /** Two passes of one message that all tests allow. */
  ghost predicate Allowed(p: Policy, m: Message, x: Pass, y: Pass) {
    && x.call == 0 && y.call == 1 && x.message == y.message == m && m.id != "" && Runnable(p, m)
    && p.startedAt <= x.freshAt <= y.freshAt && x.freshAt <= x.checkAt == x.storeAt < y.checkAt == y.storeAt
    && y.freshAt <= y.checkAt
    && ScreenVerdict(p, m, x.freshAt).None? && ScreenVerdict(p, m, y.freshAt).None?
    && RememberVerdict(Init(0).h, m, x.checkAt).None? && RememberVerdict(H2(p, x), m, y.checkAt).None?
    && AskVerdict(p, H1(x), m, x.storeAt).Dispatched? && AskVerdict(p, H3(p, x, y), m, y.storeAt).Dispatched?
  }

  lemma WitnessTests(p: Policy, m: Message, x: Pass, y: Pass)
    requires Runnable(p, m) && m.id != "" && m.created.Some? && !Dedup.BeforeStartup(m.created, p.startedAt)
    requires x.call == 0 && y.call == 1 && x.message == y.message == m
    requires p.startedAt <= x.freshAt <= y.freshAt && x.freshAt <= x.checkAt == x.storeAt && y.checkAt == y.storeAt
    requires x.storeAt + Dedup.MEMORY < y.checkAt && y.freshAt <= y.checkAt
    requires y.freshAt == p.startedAt || y.freshAt <= Dedup.Nanos(m.created.value) + Dedup.STALE
    ensures Allowed(p, m, x, y)
  {
    var u := User(p, m);
    var c :| c in p.commands && Names(m.words[0], c);
    NamesIsLookup(m.words[0], c);
    assert Limiter.Count([], u, x.storeAt - WINDOW, x.storeAt) == 0;
    var granted := [Limiter.Grant(u, x.storeAt)];
    assert granted[..0] == [];
    assert Limiter.Count(granted, u, y.storeAt - WINDOW, y.storeAt) == 0;
  }

  /** One step appended to a run, with the state it leads to. */
  lemma Go(p: Policy, run: seq<Step>, s: State, step: Step, t: State) returns (longer: seq<Step>)
    requires ValidRun(p, Init(p.startedAt), run) && After(p, Init(p.startedAt), run) == s
    requires Enabled(s, step) && Apply(p, s, step) == t
    ensures longer == run + [step]
    ensures ValidRun(p, Init(p.startedAt), longer) && After(p, Init(p.startedAt), longer) == t
  {
    RunOne(p, Init(p.startedAt), run, step);
    longer := run + [step];
  }

  /** A screened call asks the memory and the limiter without delay. */
  lemma PassAndRun(p: Policy, run: seq<Step>, s: State, x: Pass, t: State) returns (longer: seq<Step>)
    requires ValidRun(p, Init(p.startedAt), run) && After(p, Init(p.startedAt), run) == s
    requires s.now <= x.checkAt == x.storeAt && x.call in s.calls && s.calls[x.call] == Screened(x.message, x.freshAt)
    requires RememberVerdict(s.h, x.message, x.checkAt).None? && x.message.id != ""
    requires var h := s.h.(accepted := s.h.accepted + H1(x).accepted, passed := s.h.passed + [x]);
             var v := AskVerdict(p, h, x.message, x.storeAt);
             && v.Dispatched?
             && t == State(x.storeAt, s.calls[x.call := Ended(v)],
                           h.(granted := h.granted + H2(p, x).granted, runs := h.runs + H2(p, x).runs))
    ensures ValidRun(p, Init(p.startedAt), longer) && After(p, Init(p.startedAt), longer) == t
  {
    var h := s.h.(accepted := s.h.accepted + H1(x).accepted, passed := s.h.passed + [x]);
    var s1 := s.(now := x.checkAt);
    longer := Go(p, run, s, Advance(x.checkAt), s1);
    var s2 := State(x.storeAt, s.calls[x.call := Asking(x)], h);
    longer := Go(p, longer, s1, Remember(x.call, x.storeAt), s2);
    assert s2.calls[x.call := t.calls[x.call]] == t.calls;
    longer := Go(p, longer, s2, Ask(x.call), t);
  }

  /** Both calls have arrived, and the first is screened. */
  lemma Beginning(p: Policy, m: Message, x: Pass, y: Pass) returns (run: seq<Step>)
    requires Allowed(p, m, x, y)
    ensures ValidRun(p, Init(p.startedAt), run)
    ensures After(p, Init(p.startedAt), run) ==
            State(x.freshAt, map[0 := Screened(m, x.freshAt), 1 := Arrived(m)], Init(0).h)
  {
    var s0 := Init(p.startedAt);
    var s1 := s0.(calls := map[0 := Arrived(m)]);
    run := Go(p, [], s0, Arrive(0, m), s1);
    var s2 := s0.(calls := map[0 := Arrived(m), 1 := Arrived(m)]);
    run := Go(p, run, s1, Arrive(1, m), s2);
    run := Go(p, run, s2, Advance(x.freshAt), s2.(now := x.freshAt));
    run := Go(p, run, s2.(now := x.freshAt), Screen(0),
              State(x.freshAt, map[0 := Screened(m, x.freshAt), 1 := Arrived(m)], Init(0).h));
  }

  /** The second call is screened before the first one passes. */
  lemma EarlyScreen(p: Policy, m: Message, x: Pass, y: Pass) returns (run: seq<Step>)
    requires Allowed(p, m, x, y) && y.freshAt <= x.checkAt
    ensures ValidRun(p, Init(p.startedAt), run) && After(p, Init(p.startedAt), run).h == H4(p, x, y)
  {
    run := Beginning(p, m, x, y);
    var s3 := State(x.freshAt, map[0 := Screened(m, x.freshAt), 1 := Arrived(m)], Init(0).h);
    run := Go(p, run, s3, Advance(y.freshAt), s3.(now := y.freshAt));
    var s4 := State(y.freshAt, map[0 := Screened(m, x.freshAt), 1 := Screened(m, y.freshAt)], Init(0).h);
    run := Go(p, run, s3.(now := y.freshAt), Screen(1), s4);
    var v := AskVerdict(p, H1(x), m, x.storeAt);
    var s5 := State(x.storeAt, map[0 := Ended(v), 1 := Screened(m, y.freshAt)], H2(p, x));
    run := PassAndRun(p, run, s4, x, s5);
    var s6 := State(y.storeAt, s5.calls[1 := Ended(AskVerdict(p, H3(p, x, y), m, y.storeAt))], H4(p, x, y));
    run := PassAndRun(p, run, s5, y, s6);
  }

  /** The second call is screened after the first one passed. */
  lemma LateScreen(p: Policy, m: Message, x: Pass, y: Pass) returns (run: seq<Step>)
    requires Allowed(p, m, x, y) && x.checkAt <= y.freshAt
    ensures ValidRun(p, Init(p.startedAt), run) && After(p, Init(p.startedAt), run).h == H4(p, x, y)
  {
    run := Beginning(p, m, x, y);
    var s3 := State(x.freshAt, map[0 := Screened(m, x.freshAt), 1 := Arrived(m)], Init(0).h);
    var v := AskVerdict(p, H1(x), m, x.storeAt);
    var s4 := State(x.storeAt, map[0 := Ended(v), 1 := Arrived(m)], H2(p, x));
    run := PassAndRun(p, run, s3, x, s4);
    run := Go(p, run, s4, Advance(y.freshAt), s4.(now := y.freshAt));
    var s5 := State(y.freshAt, map[0 := Ended(v), 1 := Screened(m, y.freshAt)], H2(p, x));
    run := Go(p, run, s4.(now := y.freshAt), Screen(1), s5);
    var s6 := State(y.storeAt, s5.calls[1 := Ended(AskVerdict(p, H3(p, x, y), m, y.storeAt))], H4(p, x, y));
    run := PassAndRun(p, run, s5, y, s6);
  }

  lemma TwiceIsLate(p: Policy, run: seq<Step>, i: nat, j: nat, m: Message, delay: Time, first: Time)
    requires RunsTwice(p, run, i, j, m, delay, first) && m.id != "" && m.created.Some?
    ensures first + Dedup.MEMORY < Dedup.Nanos(m.created.value) + Dedup.STALE + delay
  {
    var s := After(p, Init(p.startedAt), run);
    Reached(p, p.startedAt, run);
    assert s.h.runs[i] in s.h.runs && s.h.runs[j] in s.h.runs;
    var x, y := s.h.runs[i].pass, s.h.runs[j].pass;
    assert x.call != y.call;
    PassesSecond(p, s, x, y);
    assert Proper(p, x, s.now) && Proper(p, y, s.now);
  }

  /** With one clock reading for freshness and memory: a message created at most 29 minutes after its first
      pass runs its command at most once. */
  lemma RunsAtMostOnce(p: Policy, m: Message, first: Time)
    requires Runnable(p, m) && m.id != "" && m.created.Some? && p.startedAt <= first
    requires p.startedAt - 5_000_000_000 <= m.created.value * 1_000_000
    requires m.created.value * 1_000_000 <= first + 1_740_000_000_000
    ensures !CanRunTwice(p, m, 0, first)
  {
    RunsTwiceIff(p, m, 0, first);
  }

  // ---------------------------------------------------------------- strangers

  /** The step belongs to a message whose sender is no admin. */
  predicate OfStranger(p: Policy, s: State, step: Step) {
    match step
    case Arrive(_, m) => Sender(p, m).None?
    case Screen(c) => c in s.calls && s.calls[c].Arrived? && Sender(p, s.calls[c].message).None?
    case _ => false
  }

  /** The run without the messages of strangers. */
  ghost function FromAdmins(p: Policy, s: State, run: seq<Step>): seq<Step>
    requires ValidRun(p, s, run)
    decreases |run|
  {
    if run == [] then []
    else
      var rest := FromAdmins(p, Apply(p, s, run[0]), run[1..]);
      if OfStranger(p, s, run[0]) then rest else [run[0]] + rest
  }

  /** It keeps the other steps, in order: part by part, and step by step. */
  lemma {:induction false} FromAdminsJoins(p: Policy, s: State, a: seq<Step>, step: Step)
    requires ValidRun(p, s, a) && Enabled(After(p, s, a), step) && ValidRun(p, s, a + [step])
    ensures FromAdmins(p, s, a + [step]) ==
            FromAdmins(p, s, a) + if OfStranger(p, After(p, s, a), step) then [] else [step]
    decreases |a|
  {
    if a != [] {
      assert (a + [step])[1..] == a[1..] + [step];
      FromAdminsJoins(p, Apply(p, s, a[0]), a[1..], step);
    } else {
      assert (a + [step])[1..] == [];
    }
  }

  predicate Stranger(p: Policy, stage: Stage) {
    (stage.Arrived? && Sender(p, stage.message).None?) || stage == Ended(NotAdmin)
  }

  /** The same but for calls of strangers. */
  ghost predicate SameForAdmins(p: Policy, s: State, t: State) {
    && s.now == t.now && s.h == t.h
    && (forall c :: c in t.calls ==> c in s.calls && t.calls[c] == s.calls[c])
    && (forall c :: c in s.calls && !Stranger(p, s.calls[c]) ==> c in t.calls)
  }

  lemma OneSame(p: Policy, s: State, t: State, step: Step)
    requires SameForAdmins(p, s, t) && Enabled(s, step)
    ensures OfStranger(p, s, step) && (step.Screen? ==> step.call !in t.calls) ==>
              SameForAdmins(p, Apply(p, s, step), t)
    ensures !OfStranger(p, s, step) ==> Enabled(t, step) && SameForAdmins(p, Apply(p, s, step), Apply(p, t, step))
  {
  }

  /** Messages of strangers change nothing: the run without them is valid and leaves the same history. */
  lemma {:induction false} StrangersIrrelevant(p: Policy, s: State, t: State, run: seq<Step>)
    requires ValidRun(p, s, run) && SameForAdmins(p, s, t)
    requires forall c :: c in t.calls && t.calls[c].Arrived? ==> Sender(p, t.calls[c].message).Some?
    ensures ValidRun(p, t, FromAdmins(p, s, run)) && After(p, t, FromAdmins(p, s, run)).h == After(p, s, run).h
    decreases |run|
  {
    if run != [] {
      OneSame(p, s, t, run[0]);
      if OfStranger(p, s, run[0]) {
        StrangersIrrelevant(p, Apply(p, s, run[0]), t, run[1..]);
      } else {
        StrangersIrrelevant(p, Apply(p, s, run[0]), Apply(p, t, run[0]), run[1..]);
        var rest := FromAdmins(p, Apply(p, s, run[0]), run[1..]);
        assert ([run[0]] + rest)[1..] == rest;
      }
    }
  }

  // ---------------------------------------------------------------- the router

  /** The clock readings of one undisturbed call, in the order they are made. */
  datatype Clock = Clock(freshAt: Time, checkAt: Time, storeAt: Time, allowAt: Time)

  /** The verdict of an undisturbed call: the first test that fails decides. */
  function Expected(p: Policy, h: History, m: Message, c: Clock): Verdict {
    if ScreenVerdict(p, m, c.freshAt).Some? then ScreenVerdict(p, m, c.freshAt).value
    else ExpectedScreened(p, h, m, c)
  }

  function ExpectedScreened(p: Policy, h: History, m: Message, c: Clock): Verdict {
    if RememberVerdict(h, m, c.checkAt).Some? then RememberVerdict(h, m, c.checkAt).value
    else AskVerdict(p, h, m, c.allowAt)
  }

  /** What a message must be, and when it must come, for the command to be dispatched: sent by an admin, who is
      known by the user id or else the open id; not older than 5 s before start-up nor than 60 s; its id not
      let through in the last 30 minutes; fewer grants than the limit in the last minute; and its first word
      naming a command there is. The other words are the arguments. */
  ghost predicate Dispatches(p: Policy, h: History, m: Message, c: Clock,
                             user: string, command: string, args: seq<string>)
  {
    && user in p.admins && user == (if m.userID in p.admins then m.userID else m.openID)
    && (m.created.Some? ==>
          && p.startedAt - 5_000_000_000 <= m.created.value * 1_000_000
          && c.freshAt - m.created.value * 1_000_000 <= 60_000_000_000)
    && (m.id == "" || forall a :: a in h.accepted && a.id == m.id ==> a.at < c.checkAt - 1_800_000_000_000)
    && |Limiter.Within(h.granted, user, c.allowAt - 60_000_000_000, c.allowAt)| < p.limit
    && m.words != [] && Names(m.words[0], command) && command in p.commands && args == m.words[1..]
  }

  /** A command is dispatched if and only if every test lets the message through. */
  lemma DispatchedIff(p: Policy, h: History, m: Message, c: Clock, user: string, command: string, args: seq<string>)
    ensures Expected(p, h, m, c) == Dispatched(user, command, args) <==> Dispatches(p, h, m, c, user, command, args)
  {
    Limiter.AdmitsMeans(h.granted, user, c.allowAt, p.limit, WINDOW);
    if m.words != [] { NamesIsLookup(m.words[0], command); }
  }

  lemma EveryDispatch(p: Policy, h: History, m: Message, c: Clock)
    ensures forall user, command, args ::
              Expected(p, h, m, c) == Dispatched(user, command, args) <==>
              Dispatches(p, h, m, c, user, command, args)
  {
    forall user, command, args
      ensures Expected(p, h, m, c) == Dispatched(user, command, args) <==>
              Dispatches(p, h, m, c, user, command, args)
    {
      DispatchedIff(p, h, m, c, user, command, args);
    }
  }

  /** What the limiter and the look-up answer: the message is refused when the last minute holds no fewer
      grants than the limit; otherwise its command is dispatched if there is one of that name, and is unknown
      if there is none. */
  ghost predicate AnswersTo(p: Policy, granted: seq<Limiter.Grant>, m: Message, now: Time, v: Verdict)
    requires m.words != []
  {
    var user := if m.userID in p.admins then m.userID else m.openID;
    if |Limiter.Within(granted, user, now - 60_000_000_000, now)| >= p.limit then v == RateLimited
    else if exists c :: c in p.commands && Names(m.words[0], c) then
      && v.Dispatched? && v.user == user && v.args == m.words[1..]
      && v.command in p.commands && Names(m.words[0], v.command)
    else v == UnknownCommand(user)
  }

  lemma AskMeans(p: Policy, h: History, m: Message, now: Time)
    requires Sender(p, m).Some? && m.words != []
    ensures AnswersTo(p, h.granted, m, now, AskVerdict(p, h, m, now))
  {
    Limiter.AdmitsMeans(h.granted, User(p, m), now, p.limit, WINDOW);
    forall c ensures Names(m.words[0], c) <==> c == Command(m) {
      NamesIsLookup(m.words[0], c);
    }
  }

  /** The router's data, and the run its callers have made of it. Each method below is one step of the
      machine; calls of different goroutines interleave between them. */
  class MessageRouter {
    const policy: Policy
    const seen: Dedup.DuplicateFilter
    const limiter: Limiter.RateLimiter
    ghost var run: seq<Step>

    ghost function Now(): State
      requires ValidRun(policy, Init(policy.startedAt), run)
      reads this
    {
      After(policy, Init(policy.startedAt), run)
    }

    ghost predicate Valid()
      reads this, seen, limiter
    {
      && ValidRun(policy, Init(policy.startedAt), run)
      && seen.Valid() && limiter.Valid()
      && limiter.limit == policy.limit && limiter.window == WINDOW
      && seen.log == Now().h.accepted && limiter.log == Now().h.granted
      && seen.clock <= Now().now && limiter.clock <= Now().now
    }

    /** A limit that is not positive stands for 20. */
    constructor (admins: set<string>, commands: set<string>, cmdRateLimit: int, startedAt: Time)
      ensures Valid() && run == []
      ensures policy == Policy(admins, commands, startedAt, if cmdRateLimit <= 0 then 20 else cmdRateLimit)
      ensures limiter.limit == policy.limit && limiter.window == 60_000_000_000
      ensures fresh(seen) && fresh(limiter)
    {
      var limit := cmdRateLimit;
      if limit <= 0 {
        limit := DEFAULT_LIMIT;
      }
      policy := Policy(admins, commands, startedAt, limit);
      seen := new Dedup.DuplicateFilter(startedAt);
      limiter := new Limiter.RateLimiter(limit, WINDOW, startedAt);
      run := [];
    }

    /** Time passes. */
    ghost method Tick(to: Time)
      requires Valid() && Now().now <= to
      modifies this`run
      ensures Valid() && run == old(run) + [Advance(to)]
      ensures Now() == old(Now()).(now := to)
    {
      RunOne(policy, Init(policy.startedAt), run, Advance(to));
      run := run + [Advance(to)];
    }

    ghost method Begin(call: nat, m: Message)
      requires Valid() && call !in Now().calls
      modifies this`run
      ensures Valid() && run == old(run) + [Arrive(call, m)]
      ensures Now() == old(Now()).(calls := old(Now()).calls[call := Arrived(m)])
    {
      RunOne(policy, Init(policy.startedAt), run, Arrive(call, m));
      run := run + [Arrive(call, m)];
    }

    /** The unlocked tests: admin by either id, start-up cut-off, freshness. */
    method ScreenMessage(ghost call: nat, m: Message, now: Time) returns (v: Option<Verdict>)
      requires Valid() && call in Now().calls && Now().calls[call] == Arrived(m) && now == Now().now
      modifies this`run
      ensures Valid() && run == old(run) + [Screen(call)]
      ensures v == Some(NotAdmin) <==> m.userID !in policy.admins && m.openID !in policy.admins
      ensures v == Some(SentBeforeStartup) <==>
              && (m.userID in policy.admins || m.openID in policy.admins)
              && m.created.Some? && m.created.value * 1_000_000 < policy.startedAt - 5_000_000_000
      ensures v == Some(TooOld) <==>
              && (m.userID in policy.admins || m.openID in policy.admins)
              && m.created.Some? && policy.startedAt - 5_000_000_000 <= m.created.value * 1_000_000
              && now - m.created.value * 1_000_000 > 60_000_000_000
      ensures v.None? || v == Some(NotAdmin) || v == Some(SentBeforeStartup) || v == Some(TooOld)
      ensures v == ScreenVerdict(policy, m, now)
      ensures Now().now == now && Now().h == old(Now()).h
      ensures call in Now().calls && Now().calls[call] == if v.Some? then Ended(v.value) else Screened(m, now)
    {
      RunOne(policy, Init(policy.startedAt), run, Screen(call));
      run := run + [Screen(call)];
      var sender := m.userID;
      if sender !in policy.admins {
        sender := m.openID;
        if sender !in policy.admins {
          return Some(NotAdmin);
        }
      }
      if m.created.Some? {
        var sentAt := Dedup.Nanos(m.created.value);
        if sentAt < policy.startedAt - Dedup.GRACE {
          return Some(SentBeforeStartup);
        }
        if now - sentAt > Dedup.STALE {
          return Some(TooOld);
        }
      }
      return None;
    }

    /** The duplicate memory under its lock, then the test for text. */
    method RememberMessage(ghost call: nat, m: Message, ghost freshAt: Time, checkAt: Time, storeAt: Time)
      returns (v: Option<Verdict>)
      requires Valid() && call in Now().calls && Now().calls[call] == Screened(m, freshAt)
      requires checkAt == Now().now && checkAt <= storeAt
      modifies this`run, seen
      ensures Valid() && run == old(run) + [Remember(call, storeAt)]
      ensures v == Some(Duplicate) <==>
              m.id != "" && exists e :: e in old(seen.log) && e.id == m.id && checkAt - 1_800_000_000_000 <= e.at
      ensures v == if v == Some(Duplicate) then v else if m.words == [] then Some(NoText) else None
      ensures v == RememberVerdict(old(Now()).h, m, checkAt)
      ensures Now().now == storeAt && Now().h.granted == old(Now()).h.granted
      ensures call in Now().calls &&
              Now().calls[call] == if v.Some? then Ended(v.value) else Asking(Pass(call, m, freshAt, checkAt, storeAt))
    {
      RunOne(policy, Init(policy.startedAt), run, Remember(call, storeAt));
      run := run + [Remember(call, storeAt)];
      var duplicate := seen.IsDuplicate(m.id, checkAt, storeAt);
      if duplicate {
        return Some(Duplicate);
      }
      if m.words == [] {
        return Some(NoText);
      }
      return None;
    }

    /** The limiter under its lock, then the look-up of the command, which runs if it is there. */
    method AskLimiter(ghost call: nat, ghost pass: Pass, m: Message, now: Time) returns (v: Verdict)
      requires Valid() && call in Now().calls && Now().calls[call] == Asking(pass) && pass.message == m
      requires now == Now().now && Sender(policy, m).Some? && m.words != []
      modifies this`run, limiter
      ensures Valid() && run == old(run) + [Ask(call)]
      ensures v == AskVerdict(policy, old(Now()).h, m, now)
      ensures AnswersTo(policy, old(limiter.log), m, now, v)
      ensures call in Now().calls && Now().calls[call] == Ended(v)
    {
      AskMeans(policy, Now().h, m, now);
      RunOne(policy, Init(policy.startedAt), run, Ask(call));
      run := run + [Ask(call)];
      var sender := if m.userID in policy.admins then m.userID else m.openID;
      var ok := limiter.Allow(sender, now);
      if !ok {
        return RateLimited;
      }
      var command := WithoutSlash(Lower(m.words[0]));
      if command !in policy.commands {
        return UnknownCommand(sender);
      }
      return Dispatched(sender, command, m.words[1..]);
    }

    /** One call from beginning to end with no other in between. */
    method HandleMessage(message: Option<Message>, ghost call: nat, c: Clock) returns (v: Verdict)
      requires Valid() && call !in Now().calls
      requires Now().now <= c.freshAt <= c.checkAt <= c.storeAt <= c.allowAt
      modifies this`run, seen, limiter
      ensures Valid()
      ensures message.None? ==> v == Unparsed && run == old(run)
      ensures message.Some? ==> v == Expected(policy, old(Now()).h, message.value, c)
      ensures message.Some? ==>
                forall user, command, args ::
                  v == Dispatched(user, command, args) <==>
                  Dispatches(policy, old(Now()).h, message.value, c, user, command, args)
      ensures message.Some? ==> call in Now().calls && Now().calls[call] == Ended(v)
      ensures old(run) <= run
    {
      if message.None? {
        return Unparsed;
      }
      var m := message.value;
      EveryDispatch(policy, Now().h, m, c);
      Begin(call, m);
      Tick(c.freshAt);
      var screened := ScreenMessage(call, m, c.freshAt);
      if screened.Some? {
        return screened.value;
      }
      v := HandleScreened(m, call, c);
    }

    /** The rest of such a call, once the message is screened. */
    method HandleScreened(m: Message, ghost call: nat, c: Clock) returns (v: Verdict)
      requires Valid() && call in Now().calls && Now().calls[call] == Screened(m, c.freshAt)
      requires Sender(policy, m).Some? && Now().now <= c.checkAt <= c.storeAt <= c.allowAt
      modifies this`run, seen, limiter
      ensures Valid() && old(run) <= run && call in Now().calls && Now().calls[call] == Ended(v)
      ensures v == ExpectedScreened(policy, old(Now()).h, m, c)
    {
      Tick(c.checkAt);
      var remembered := RememberMessage(call, m, c.freshAt, c.checkAt, c.storeAt);
      if remembered.Some? {
        return remembered.value;
      }
      Tick(c.allowAt);
      v := AskLimiter(call, Pass(call, m, c.freshAt, c.checkAt, c.storeAt), m, c.allowAt);
    }

    /** Whatever calls have been made, and however they interleaved. */
    lemma Safe(user: string, from: Time, to: Time, k: nat)
      requires Valid() && policy.limit >= 0 && to - from == k * 60_000_000_000
      ensures var runs := Now().h.runs;
              && (forall r :: r in runs ==> Sent(policy, r))
              && (forall i, j :: 0 <= i < j < |runs| && runs[i].pass.message.id == runs[j].pass.message.id != "" ==>
                    Second(runs[i].pass, runs[j].pass) || Second(runs[j].pass, runs[i].pass))
              && |RunsWithin(runs, user, from, to)| <= k * policy.limit
    {
      CommandsAreSafe(policy, policy.startedAt, run, user, from, to, k);
    }
  }
}
