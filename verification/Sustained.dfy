/** The sustained-load rule behind the CPU and memory alerts: the detector remembers only when the
    load went high, and starts over after each alert. Times are nanoseconds. */
module Sustained {
  import opened Options
  import opened Multiples
  import Bus

  type Time = int

  const HOLD: Time := 60_000_000_000

  datatype Sample = Sample(high: bool, at: Time)

  // ---------------------------------------------------------------- the detector

  /** One sample: the new "high since", and whether an alert is raised. */
  function Step(since: Option<Time>, s: Sample): (Option<Time>, bool) {
    if !s.high then (None, false)
    else if since.None? then (Some(s.at), false)
    else if s.at - since.value >= HOLD then (Some(s.at), true)
    else (since, false)
  }

  /** "High since" after the first n samples. */
  function Since(s: seq<Sample>, n: nat): Option<Time>
    requires n <= |s|
  {
    if n == 0 then None else Step(Since(s, n - 1), s[n - 1]).0
  }

  predicate AlertAt(s: seq<Sample>, i: nat)
    requires i < |s|
  {
    Step(Since(s, i), s[i]).1
  }

  /** What the detector remembers does not depend on samples to come. */
  lemma {:induction false} SincePrefix(s: seq<Sample>, x: Sample, n: nat)
    requires n <= |s|
    ensures Since(s + [x], n) == Since(s, n)
    decreases n
  {
    if n > 0 { SincePrefix(s, x, n - 1); }
  }

  ghost predicate ClockOrdered(s: seq<Sample>) {
    forall i, j :: 0 <= i <= j < |s| ==> s[i].at <= s[j].at
  }

  /** When the first n samples raised alerts. */
  function AlertTimes(s: seq<Sample>, n: nat): seq<Time>
    requires n <= |s|
  {
    if n == 0 then []
    else if AlertAt(s, n - 1) then AlertTimes(s, n - 1) + [s[n - 1].at]
    else AlertTimes(s, n - 1)
  }

  lemma {:induction false} AlertTimesPrefix(s: seq<Sample>, x: Sample, n: nat)
    requires n <= |s|
    ensures AlertTimes(s + [x], n) == AlertTimes(s, n)
    decreases n
  {
    if n > 0 {
      AlertTimesPrefix(s, x, n - 1);
      SincePrefix(s, x, n - 1);
    }
  }

  // ---------------------------------------------------------------- what an alert means

  /** Samples j to i are all high. */
  ghost predicate Streak(s: seq<Sample>, j: nat, i: nat) {
    j <= i < |s| && forall k :: j <= k <= i ==> s[k].high
  }

  ghost predicate Quiet(s: seq<Sample>, j: nat, i: nat)
    requires i <= |s|
  {
    forall k :: j < k < i ==> !AlertAt(s, k)
  }

  /** The remembered time is that of a sample since which everything was high and no alert was raised. */
  lemma {:induction false} SinceMeans(s: seq<Sample>, n: nat) returns (j: nat)
    requires n <= |s| && Since(s, n).Some?
    ensures j < n && s[j].at == Since(s, n).value && Streak(s, j, n - 1) && Quiet(s, j, n)
    ensures j == 0 || !s[j - 1].high || AlertAt(s, j)
    decreases n
  {
    if Since(s, n - 1).None? || AlertAt(s, n - 1) {
      j := n - 1;
    } else {
      j := SinceMeans(s, n - 1);
    }
  }

  /** Through a quiet streak the remembered time is no later than its beginning. */
  lemma {:induction false} SinceIsEarly(s: seq<Sample>, j: nat, n: nat)
    requires j < n <= |s| && Streak(s, j, n - 1) && Quiet(s, j, n) && ClockOrdered(s)
    ensures Since(s, n).Some? && Since(s, n).value <= s[j].at
    decreases n
  {
    if n == j + 1 {
      if Since(s, j).Some? {
        var k := SinceMeans(s, j);
        assert s[k].at <= s[j].at;
      }
    } else {
      SinceIsEarly(s, j, n - 1);
      assert !AlertAt(s, n - 1);
    }
  }

  /** An alert is raised at sample i exactly when some earlier sample is at least 60 s old, everything
      since has been high, and no alert has been raised since. */
  lemma AlertIff(s: seq<Sample>, i: nat)
    requires i < |s| && ClockOrdered(s)
    ensures AlertAt(s, i) <==>
            exists j: nat :: j < i && Streak(s, j, i) && 60_000_000_000 <= s[i].at - s[j].at && Quiet(s, j, i)
  {
    if AlertAt(s, i) {
      var j := SinceMeans(s, i);
      assert Streak(s, j, i);
    }
    if j: nat :| j < i && Streak(s, j, i) && HOLD <= s[i].at - s[j].at && Quiet(s, j, i) {
      assert Streak(s, j, i - 1);
      SinceIsEarly(s, j, i);
    }
  }

  /** No streak of 60 s goes without an alert. */
  lemma AlertDue(s: seq<Sample>, j: nat, i: nat)
    requires ClockOrdered(s) && Streak(s, j, i) && 60_000_000_000 <= s[i].at - s[j].at
    ensures exists k: nat :: j < k <= i && AlertAt(s, k)
  {
    if Quiet(s, j, i) {
      AlertIff(s, i);
      assert AlertAt(s, i);
    }
  }

  // ---------------------------------------------------------------- the same of percentages

  /** One reading of a load. */
  datatype Load = Load(percent: real, at: Time)

  function SampleOf(load: Load, threshold: real): Sample {
    Sample(load.percent >= threshold, load.at)
  }

  function SamplesOf(loads: seq<Load>, threshold: real): (r: seq<Sample>)
    ensures |r| == |loads| && forall i :: 0 <= i < |loads| ==> r[i] == SampleOf(loads[i], threshold)
  {
    seq(|loads|, i requires 0 <= i < |loads| => SampleOf(loads[i], threshold))
  }

  lemma SamplesOne(loads: seq<Load>, load: Load, threshold: real)
    ensures SamplesOf(loads + [load], threshold) == SamplesOf(loads, threshold) + [SampleOf(load, threshold)]
  {
  }

  ghost predicate InOrder(loads: seq<Load>) {
    forall i, j :: 0 <= i <= j < |loads| ==> loads[i].at <= loads[j].at
  }

  /** All readings from j to i are at the threshold or above. */
  ghost predicate Above(loads: seq<Load>, threshold: real, j: nat, i: nat) {
    i < |loads| && forall k :: j <= k <= i ==> loads[k].percent >= threshold
  }

  /** Reading i raises an alert: some reading lies 60 s or more before it, all since then are at the threshold
      or above, and none in between has raised one. */
  ghost predicate AlertedAt(loads: seq<Load>, threshold: real, i: nat)
    requires i < |loads|
    decreases i
  {
    exists j: nat ::
      && j < i && loads[i].at - loads[j].at >= 60_000_000_000 && Above(loads, threshold, j, i)
      && forall k :: j < k < i ==> !AlertedAt(loads, threshold, k)
  }

  /** Reading j is where the load began to be high, or the last alert before reading i. */
  ghost predicate StartOf(loads: seq<Load>, threshold: real, j: nat, i: nat)
    requires i < |loads|
  {
    && j < i && Above(loads, threshold, j, i - 1)
    && (j == 0 || loads[j - 1].percent < threshold || AlertedAt(loads, threshold, j))
    && forall k :: j < k < i ==> !AlertedAt(loads, threshold, k)
  }

  /** The load has been high, or has been alerted last, since `start`. */
  ghost predicate HighSince(loads: seq<Load>, threshold: real, i: nat, start: Time)
    requires i < |loads|
  {
    exists j: nat :: StartOf(loads, threshold, j, i) && loads[j].at == start
  }

  /** There is one such reading at most. */
  lemma StartOnce(loads: seq<Load>, threshold: real, j: nat, k: nat, i: nat)
    requires i < |loads| && StartOf(loads, threshold, j, i) && StartOf(loads, threshold, k, i)
    ensures j == k
  {
  }

  /** The detector's rule raises an alert at exactly those readings. */
  lemma {:induction false} AlertedIs(loads: seq<Load>, threshold: real, i: nat)
    requires i < |loads| && InOrder(loads)
    ensures AlertAt(SamplesOf(loads, threshold), i) <==> AlertedAt(loads, threshold, i)
    decreases i
  {
    var s := SamplesOf(loads, threshold);
    forall k | 0 <= k < i ensures AlertAt(s, k) <==> AlertedAt(loads, threshold, k) {
      AlertedIs(loads, threshold, k);
    }
    AlertIff(s, i);
    if AlertAt(s, i) {
      var j: nat :| j < i && Streak(s, j, i) && 60_000_000_000 <= s[i].at - s[j].at && Quiet(s, j, i);
      assert Above(loads, threshold, j, i);
    }
    if AlertedAt(loads, threshold, i) {
      var j: nat :| && j < i && loads[i].at - loads[j].at >= 60_000_000_000 && Above(loads, threshold, j, i)
                    && forall k :: j < k < i ==> !AlertedAt(loads, threshold, k);
      assert Streak(s, j, i) && Quiet(s, j, i);
    }
  }

  /** What the detector remembers before reading i is the time of the reading where the load began to be high,
      or of the last alert; it remembers nothing just after a low reading, and at first. */
  lemma SinceIsStart(loads: seq<Load>, threshold: real, i: nat)
    requires i < |loads| && InOrder(loads)
    ensures Since(SamplesOf(loads, threshold), i).None? <==> i == 0 || loads[i - 1].percent < threshold
    ensures Since(SamplesOf(loads, threshold), i).Some? ==>
              HighSince(loads, threshold, i, Since(SamplesOf(loads, threshold), i).value)
  {
    var s := SamplesOf(loads, threshold);
    if Since(s, i).Some? {
      var j := SinceMeans(s, i);
      forall k | 0 <= k < i ensures AlertAt(s, k) <==> AlertedAt(loads, threshold, k) {
        AlertedIs(loads, threshold, k);
      }
      assert StartOf(loads, threshold, j, i);
    }
  }

  /** When the first n readings raised alerts. */
  ghost function AlertedTimes(loads: seq<Load>, threshold: real, n: nat): seq<Time>
    requires n <= |loads|
  {
    if n == 0 then []
    else if AlertedAt(loads, threshold, n - 1) then AlertedTimes(loads, threshold, n - 1) + [loads[n - 1].at]
    else AlertedTimes(loads, threshold, n - 1)
  }

  lemma {:induction false} AlertedTimesAre(loads: seq<Load>, threshold: real, n: nat)
    requires n <= |loads| && InOrder(loads)
    ensures AlertTimes(SamplesOf(loads, threshold), n) == AlertedTimes(loads, threshold, n)
    decreases n
  {
    if n > 0 {
      AlertedTimesAre(loads, threshold, n - 1);
      AlertedIs(loads, threshold, n - 1);
    }
  }

  // ---------------------------------------------------------------- how many alerts

  /** Alerts raised after sample j, up to sample i. */
  function AlertCount(s: seq<Sample>, j: nat, i: nat): nat
    requires j <= i < |s|
    decreases i
  {
    if i == j then 0 else AlertCount(s, j, i - 1) + if AlertAt(s, i) then 1 else 0
  }

  lemma {:induction false} CountIsTimes(s: seq<Sample>, j: nat, i: nat)
    requires j <= i < |s|
    ensures AlertCount(s, j, i) == |AlertTimes(s, i + 1)| - |AlertTimes(s, j + 1)|
    decreases i
  {
    if i > j { CountIsTimes(s, j, i - 1); }
  }

  /** From sample j to sample i consecutive readings are at most `gap` apart. */
  ghost predicate GapsAtMost(s: seq<Sample>, j: nat, i: nat, gap: Time) {
    i < |s| && forall k :: j < k <= i ==> s[k].at - s[k - 1].at <= gap
  }

  /** A high stretch from sample j, where it begins, to sample i, read at least every `gap`. */
  ghost predicate Stretch(s: seq<Sample>, j: nat, i: nat, gap: Time) {
    gap >= 0 && Streak(s, j, i) && (j == 0 || !s[j - 1].high) && GapsAtMost(s, j, i, gap)
  }

  /** The bookkeeping of a stretch: its alerts cut it into pieces of 60 s to 60 s + gap. */
  lemma {:induction false} Pieces(s: seq<Sample>, j: nat, i: nat, gap: Time)
    requires ClockOrdered(s) && Stretch(s, j, i, gap)
    ensures Since(s, i + 1).Some? && 0 <= s[i].at - Since(s, i + 1).value < HOLD
    ensures var spent := Since(s, i + 1).value - s[j].at;
            Times(AlertCount(s, j, i), HOLD) <= spent <= Times(AlertCount(s, j, i), HOLD + gap)
    decreases i
  {
    if i > j {
      Pieces(s, j, i - 1, gap);
      assert s[i].at - s[i - 1].at <= gap;
    }
  }

  /** Between floor(d / (60 s + gap)) and floor(d / 60 s) alerts in a time d. */
  ghost predicate Paced(n: nat, d: Time, gap: Time)
    requires gap >= 0
  {
    d / (60_000_000_000 + gap) <= n <= d / 60_000_000_000
  }

  /** A stretch of length d raises between floor(d / (60 s + gap)) and floor(d / 60 s) alerts. */
  lemma {:induction false} AlertsInStreak(s: seq<Sample>, j: nat, i: nat, gap: Time)
    requires ClockOrdered(s) && Stretch(s, j, i, gap)
    ensures Paced(AlertCount(s, j, i), s[i].at - s[j].at, gap)
  {
    Pieces(s, j, i, gap);
    Counted(s[i].at - s[j].at, AlertCount(s, j, i), gap, s[i].at - Since(s, i + 1).value);
  }

  /** n pieces of 60 s to 60 s + gap and a rest below 60 s. */
  lemma Counted(d: Time, n: nat, gap: Time, rest: Time)
    requires gap >= 0 && 0 <= rest < HOLD && Times(n, HOLD) <= d - rest <= Times(n, HOLD + gap)
    ensures Paced(n, d, gap)
  {
    AtMost(d, HOLD, n);
    AtLeast(d, HOLD + gap, n);
  }

  lemma AtMost(d: int, m: int, n: nat)
    requires m > 0 && Times(n, m) <= d
    ensures n <= d / m
  {
    TimesIsProduct(n, m);
    Quotient(d, m, n);
  }

  lemma AtLeast(d: int, m: int, n: nat)
    requires m > 0 && d < Times(n, m) + m
    ensures d / m <= n
  {
    TimesIsProduct(n, m);
    Quotient(d, m, n);
  }

  /** Of the alerts over a prefix of the samples, those that came after a shorter prefix: when they came. */
  lemma {:induction false} AlertsBetween(s: seq<Sample>, m: nat, n: nat, all: nat)
    requires ClockOrdered(s) && 0 < m <= n <= all <= |s|
    ensures AlertTimes(s, m) <= AlertTimes(s, n) <= AlertTimes(s, all)
    ensures forall k :: |AlertTimes(s, m)| <= k < |AlertTimes(s, n)| ==>
              s[m - 1].at <= AlertTimes(s, all)[k] <= s[n - 1].at
    decreases all
  {
    if n < all {
      AlertsBetween(s, m, n, all - 1);
    } else if m < n {
      AlertsBetween(s, m, n - 1, n - 1);
      assert s[n - 2].at <= s[n - 1].at && s[m - 1].at <= s[n - 1].at;
    }
  }

  // ---------------------------------------------------------------- how many of them a cooldown keeps

  /** The alerts of the first n samples that a cooldown keeps. */
  function KeptAlerts(s: seq<Sample>, n: nat, cooldown: Time): seq<Time>
    requires n <= |s|
  {
    Bus.Kept(AlertTimes(s, n), cooldown)
  }

  lemma KeptStep(s: seq<Sample>, n: nat, cooldown: Time)
    requires n < |s|
    ensures var rest := KeptAlerts(s, n, cooldown);
            KeptAlerts(s, n + 1, cooldown) ==
            if AlertAt(s, n) && (rest == [] || rest[|rest| - 1] + cooldown <= s[n].at) then rest + [s[n].at] else rest
  {
    Bus.KeptOne(AlertTimes(s, n), s[n].at, cooldown);
  }

  /** No alert comes before its sample. */
  lemma {:induction false} KeptBefore(s: seq<Sample>, n: nat, cooldown: Time, t: Time)
    requires n <= |s| && forall k :: 0 <= k < n ==> s[k].at <= t
    ensures var kept := KeptAlerts(s, n, cooldown); kept != [] ==> kept[|kept| - 1] <= t
    decreases n
  {
    if n > 0 {
      KeptBefore(s, n - 1, cooldown, t);
      KeptStep(s, n - 1, cooldown);
    }
  }

  /** Of the alerts kept over a prefix of the samples, those after a shorter prefix: when they came. */
  lemma {:induction false} KeptBetween(s: seq<Sample>, m: nat, n: nat, all: nat, cooldown: Time)
    requires ClockOrdered(s) && 0 < m <= n <= all <= |s|
    ensures KeptAlerts(s, m, cooldown) <= KeptAlerts(s, n, cooldown) <= KeptAlerts(s, all, cooldown)
    ensures forall k :: |KeptAlerts(s, m, cooldown)| <= k < |KeptAlerts(s, n, cooldown)| ==>
              s[m - 1].at <= KeptAlerts(s, all, cooldown)[k] <= s[n - 1].at
  {
    KeptPrefix(s, n, all, cooldown);
    KeptSince(s, m, n, cooldown);
  }

  lemma {:induction false} KeptPrefix(s: seq<Sample>, m: nat, n: nat, cooldown: Time)
    requires m <= n <= |s|
    ensures KeptAlerts(s, m, cooldown) <= KeptAlerts(s, n, cooldown)
    decreases n
  {
    if m < n {
      KeptPrefix(s, m, n - 1, cooldown);
      KeptGrows(s, n - 1, cooldown);
      Transitive(KeptAlerts(s, m, cooldown), KeptAlerts(s, n - 1, cooldown), KeptAlerts(s, n, cooldown));
    }
  }

  lemma KeptGrows(s: seq<Sample>, n: nat, cooldown: Time)
    requires n < |s|
    ensures KeptAlerts(s, n, cooldown) <= KeptAlerts(s, n + 1, cooldown)
  {
    KeptStep(s, n, cooldown);
  }

  lemma Transitive<T>(a: seq<T>, b: seq<T>, c: seq<T>)
    requires a <= b <= c
    ensures a <= c
  {
  }

  /** `now` continues `first` with times from `lo` to `hi`. */
  ghost predicate Later(first: seq<Time>, now: seq<Time>, lo: Time, hi: Time) {
    first <= now && forall k :: |first| <= k < |now| ==> lo <= now[k] <= hi
  }

  lemma OneLater(first: seq<Time>, was: seq<Time>, now: seq<Time>, lo: Time, mid: Time, hi: Time)
    requires Later(first, was, lo, mid) && lo <= mid <= hi && (now == was || now == was + [hi])
    ensures Later(first, now, lo, hi)
  {
  }

  lemma {:induction false} KeptSince(s: seq<Sample>, m: nat, n: nat, cooldown: Time)
    requires ClockOrdered(s) && 0 < m <= n <= |s|
    ensures Later(KeptAlerts(s, m, cooldown), KeptAlerts(s, n, cooldown), s[m - 1].at, s[n - 1].at)
    decreases n
  {
    if m < n {
      KeptSince(s, m, n - 1, cooldown);
      KeptLater(KeptAlerts(s, m, cooldown), s, n - 1, cooldown, s[m - 1].at);
    }
  }

  lemma KeptLater(first: seq<Time>, s: seq<Sample>, n: nat, cooldown: Time, lo: Time)
    requires ClockOrdered(s) && 0 < n < |s| && lo <= s[n - 1].at
    requires Later(first, KeptAlerts(s, n, cooldown), lo, s[n - 1].at)
    ensures Later(first, KeptAlerts(s, n + 1, cooldown), lo, s[n].at)
  {
    KeptStep(s, n, cooldown);
    OneLater(first, KeptAlerts(s, n, cooldown), KeptAlerts(s, n + 1, cooldown), lo, s[n - 1].at, s[n].at);
  }

  /** Alerts kept after sample j, up to sample i. */
  function KeptCount(s: seq<Sample>, j: nat, i: nat, cooldown: Time): int
    requires j <= i < |s|
  {
    |KeptAlerts(s, i + 1, cooldown)| - |KeptAlerts(s, j + 1, cooldown)|
  }

  /** The last alert kept in the stretch, or where the stretch begins. */
  function Base(kept: seq<Time>, n: int, start: Time): Time {
    if n > 0 && kept != [] then kept[|kept| - 1] else start
  }

  /** With n alerts kept since `start`: from one kept alert to the next it takes at most the cooldown and one
      piece, and at most the cooldown has passed since the last one when the latest piece begins. */
  ghost predicate KeptWell(kept: seq<Time>, n: int, start: Time, since: Time, cooldown: Time, piece: Time) {
    var base := Base(kept, n, start);
    && n >= 0 && (kept != [] ==> kept[|kept| - 1] <= base)
    && since <= base + cooldown && base <= start + Times(n, cooldown + piece)
  }

  /** One sample: without an alert the piece goes on, with one a new piece begins. */
  lemma KeptWellStep(kept: seq<Time>, all: seq<Time>, n: int, start: Time, since: Time, cooldown: Time, piece: Time,
                     alert: bool, next: Time)
    requires KeptWell(kept, n, start, since, cooldown, piece) && cooldown >= 0
    requires if alert then since <= next <= since + piece else next == since
    requires all == if alert && (kept == [] || kept[|kept| - 1] + cooldown <= next) then kept + [next] else kept
    ensures KeptWell(all, n + |all| - |kept|, start, next, cooldown, piece)
  {
  }

  /** What the detector does at a high sample of a stretch. */
  lemma HighStep(s: seq<Sample>, j: nat, i: nat, gap: Time)
    requires ClockOrdered(s) && Stretch(s, j, i, gap) && j < i
    ensures Since(s, i).Some? && Since(s, i + 1).Some?
    ensures var since, next := Since(s, i).value, Since(s, i + 1).value;
            if AlertAt(s, i) then since <= next <= since + HOLD + gap && next == s[i].at else next == since
  {
    Pieces(s, j, i - 1, gap);
    assert s[i].at - s[i - 1].at <= gap;
  }

  lemma {:induction false} KeptPieces(s: seq<Sample>, j: nat, i: nat, gap: Time, cooldown: Time)
    requires ClockOrdered(s) && Stretch(s, j, i, gap) && cooldown >= 0
    ensures Since(s, i + 1).Some?
    ensures KeptWell(KeptAlerts(s, i + 1, cooldown), KeptCount(s, j, i, cooldown), s[j].at, Since(s, i + 1).value,
                     cooldown, HOLD + gap)
    decreases i
  {
    if i == j {
      KeptStart(s, j, cooldown, HOLD + gap);
    } else {
      KeptPieces(s, j, i - 1, gap, cooldown);
      KeptNext(s, j, i, gap, cooldown);
    }
  }

  lemma KeptStart(s: seq<Sample>, j: nat, cooldown: Time, piece: Time)
    requires ClockOrdered(s) && j < |s| && s[j].high && (j == 0 || !s[j - 1].high) && cooldown >= 0
    ensures Since(s, j + 1) == Some(s[j].at)
    ensures KeptWell(KeptAlerts(s, j + 1, cooldown), KeptCount(s, j, j, cooldown), s[j].at, s[j].at, cooldown, piece)
  {
    KeptBefore(s, j + 1, cooldown, s[j].at);
  }

  lemma KeptNext(s: seq<Sample>, j: nat, i: nat, gap: Time, cooldown: Time)
    requires ClockOrdered(s) && Stretch(s, j, i, gap) && cooldown >= 0 && j < i && Since(s, i).Some?
    requires KeptWell(KeptAlerts(s, i, cooldown), KeptCount(s, j, i - 1, cooldown), s[j].at, Since(s, i).value,
                      cooldown, HOLD + gap)
    ensures Since(s, i + 1).Some?
    ensures KeptWell(KeptAlerts(s, i + 1, cooldown), KeptCount(s, j, i, cooldown), s[j].at, Since(s, i + 1).value,
                     cooldown, HOLD + gap)
  {
    KeptStep(s, i, cooldown);
    HighStep(s, j, i, gap);
    var kept, all, n := KeptAlerts(s, i, cooldown), KeptAlerts(s, i + 1, cooldown), KeptCount(s, j, i - 1, cooldown);
    KeptWellStep(kept, all, n, s[j].at, Since(s, i).value, cooldown, HOLD + gap, AlertAt(s, i), Since(s, i + 1).value);
    assert n + |all| - |kept| == KeptCount(s, j, i, cooldown);
  }

  /** Of the alerts of a stretch of length d the cooldown keeps at least floor(d / (cooldown + 60 s + gap)). */
  lemma KeptInStreak(s: seq<Sample>, j: nat, i: nat, gap: Time, cooldown: Time)
    requires ClockOrdered(s) && Stretch(s, j, i, gap) && cooldown >= 0
    ensures (s[i].at - s[j].at) / (cooldown + 60_000_000_000 + gap) <= KeptCount(s, j, i, cooldown)
  {
    var d, n := s[i].at - s[j].at, KeptCount(s, j, i, cooldown);
    KeptPieces(s, j, i, gap, cooldown);
    Pieces(s, j, i, gap);
    AtLeast(d, cooldown + HOLD + gap, n);
  }

  lemma Quotient(d: int, m: int, n: nat)
    requires m > 0
    ensures n * m <= d ==> n <= d / m
    ensures d < n * m + m ==> d / m <= n
  {
    var q := d / m;
    assert q * m <= d < q * m + m;
    if n > q { LessOrEqual(q + 1, n, m); }
    if q > n { LessOrEqual(n + 1, q, m); }
  }

  lemma LessOrEqual(a: int, b: int, m: int)
    requires a <= b && m > 0
    ensures a * m <= b * m
  {
  }
}
