/** Waiting for a scheduler overview that proves no run or retry remains in the target day. */
module WaitCycle {
  import opened Wrappers

  /** What one read of the scheduler shows; a count that is no integer is absent. */
  datatype Overview = Overview(
    enabled: bool, jobs: Option<int>, running: Option<int>, nextRun: Option<int>, nextRetry: Option<int>)

  /** The target day as a half-open interval of instants. */
  datatype Day = Day(start: int, end: int)

  predicate InDay(day: Day, at: Option<int>) {
    at.Some? && day.start <= at.value < day.end
  }

  predicate IsReady(day: Day, read: Option<Overview>) {
    && read.Some? && read.value.enabled
    && read.value.jobs.Some? && read.value.jobs.value > 0
    && read.value.running == Some(0)
    && !InDay(day, read.value.nextRun) && !InDay(day, read.value.nextRetry)
  }

  /**
   * The world the loop runs in: what the n-th read returns and how long it takes, and by how much the
   * n-th sleep overshoots what was asked.
   */
  datatype World = World(read: nat -> Option<Overview>, readTime: nat -> real, overshoot: nat -> real)

  ghost predicate TimeMoves(w: World) {
    forall n :: w.readTime(n) >= 0.0 && w.overshoot(n) >= 0.0
  }

  datatype Outcome = Completed | TimedOut | OverviewUnavailable

  const LOG := 40

  function LastForty(log: seq<nat>): seq<nat> {
    if |log| <= LOG then log else log[|log| - LOG..]
  }

  lemma LogEnds(seen: seq<nat>)
    requires forall k | 0 <= k < |seen| :: seen[k] == k
    ensures var log := LastForty(seen);
            |log| == (if |seen| < 40 then |seen| else 40) && forall k | 0 <= k < |log| :: log[k] == |seen| - |log| + k
  {
  }

  /** The least whole number of polls that spans the timeout. */
  function Polls(timeout: real, poll: real): (n: nat)
    requires timeout >= 0.0 && poll > 0.0
  {
    var q := timeout / poll;
    CeilingHolds(q, poll, timeout);
    -((0.0 - q).Floor)
  }

  ghost predicate Spans(polls: nat, poll: real, timeout: real) {
    polls as real * poll >= timeout
  }

  lemma PollsSpan(timeout: real, poll: real)
    requires timeout >= 0.0 && poll > 0.0
    ensures var n := Polls(timeout, poll); Spans(n, poll, timeout) && (n > 0 ==> !Spans(n - 1, poll, timeout))
  {
    CeilingHolds(timeout / poll, poll, timeout);
  }

  lemma Quotient(a: real, b: real)
    requires a >= 0.0 && b > 0.0
    ensures (a / b) * b == a && a / b >= 0.0
  {
  }

  lemma CeilingHolds(q: real, poll: real, timeout: real)
    requires timeout >= 0.0 && poll > 0.0 && q == timeout / poll
    ensures var n := -((0.0 - q).Floor);
            n >= 0 && n as real * poll >= timeout && (n > 0 ==> (n - 1) as real * poll < timeout)
  {
    var f := (0.0 - q).Floor;
    assert q * poll == timeout && q >= 0.0 by {
      Quotient(timeout, poll);
    }
    var n := -f;
    assert f as real <= 0.0 - q < f as real + 1.0;
    assert n as real == 0.0 - f as real;
    assert n as real >= q && (n - 1) as real < q;
    Scale(q, n as real, poll);
    ScaleStrict((n - 1) as real, q, poll);
    assert (n - 1) as real * poll < timeout;
    assert n as real * poll >= timeout;
  }

  lemma Scale(a: real, b: real, c: real)
    requires a <= b && c > 0.0
    ensures a * c <= b * c
  {
  }

  lemma ScaleStrict(a: real, b: real, c: real)
    requires a < b && c > 0.0
    ensures a * c < b * c
  {
  }

  lemma FewerPolls(k: int, n: nat, poll: real, timeout: real)
    requires poll > 0.0 && k as real * poll < timeout <= n as real * poll
    ensures k < n
  {
    if k >= n {
      Scale(n as real, k as real, poll);
    }
  }

  lemma OneMore(k: nat, poll: real)
    ensures (k + 1) as real * poll == k as real * poll + poll
  {
  }

  // ----- The time that passes -----

  /** When read `n` starts: after the earlier reads, and sleeps of a poll or of what was left of the timeout. */
  function StartOf(w: World, timeout: real, poll: real, n: nat): real {
    if n == 0 then 0.0
    else
      var ended := StartOf(w, timeout, poll, n - 1) + w.readTime(n - 1);
      var left := timeout - ended;
      ended + (if poll <= left then poll else left) + w.overshoot(n - 1)
  }

  /** When read `n` has returned, the clock having started with the wait. */
  function Elapsed(w: World, timeout: real, poll: real, n: nat): real {
    StartOf(w, timeout, poll, n) + w.readTime(n)
  }

  /** Nothing is running in the target day and nothing is due in it any more. */
  predicate DayIsOver(day: Day, read: Option<Overview>) {
    match read
    case None => false
    case Some(o) =>
      && o.enabled && o.jobs.Some? && o.jobs.value >= 1 && o.running.Some? && o.running.value == 0
      && (o.nextRun.Some? ==> o.nextRun.value < day.start || day.end <= o.nextRun.value)
      && (o.nextRetry.Some? ==> o.nextRetry.value < day.start || day.end <= o.nextRetry.value)
  }

  lemma ReadyExactly(day: Day, read: Option<Overview>)
    ensures IsReady(day, read) <==> DayIsOver(day, read)
  {
  }

  /** After `n` reads the wait has slept for as many polls, unless its timeout is used up. */
  ghost predicate Slept(w: World, timeout: real, poll: real, n: nat) {
    n as real * poll <= StartOf(w, timeout, poll, n) || StartOf(w, timeout, poll, n) >= timeout
  }

  lemma StartAndEnd(w: World, timeout: real, poll: real, n: nat)
    ensures Elapsed(w, timeout, poll, n) == StartOf(w, timeout, poll, n) + w.readTime(n)
    ensures var left := timeout - Elapsed(w, timeout, poll, n);
            StartOf(w, timeout, poll, n + 1)
            == Elapsed(w, timeout, poll, n) + (if poll <= left then poll else left) + w.overshoot(n)
  {
  }

  /** No read before the `n`-th ended the wait. */
  ghost predicate GoesOn(day: Day, w: World, timeout: real, poll: real, n: nat) {
    forall k: nat | k < n :: !DayIsOver(day, w.read(k)) && Elapsed(w, timeout, poll, k) < timeout
  }

  lemma WaitBegins(day: Day, w: World, timeout: real, poll: real)
    ensures StartOf(w, timeout, poll, 0) == 0.0 && Slept(w, timeout, poll, 0) && GoesOn(day, w, timeout, poll, 0)
  {
  }

  lemma GoesOnSaysSo(day: Day, w: World, timeout: real, poll: real, n: nat)
    requires GoesOn(day, w, timeout, poll, n)
    ensures forall k: nat | k < n :: !DayIsOver(day, w.read(k)) && Elapsed(w, timeout, poll, k) < timeout
  {
  }

  lemma GoesOnOnce(day: Day, w: World, timeout: real, poll: real, n: nat)
    requires GoesOn(day, w, timeout, poll, n)
    requires !DayIsOver(day, w.read(n)) && Elapsed(w, timeout, poll, n) < timeout
    ensures GoesOn(day, w, timeout, poll, n + 1)
  {
    hide Elapsed, DayIsOver;
  }

  lemma SleepsAdd(w: World, timeout: real, poll: real, n: nat, most: nat)
    requires TimeMoves(w) && poll > 0.0 && Spans(most, poll, timeout)
    requires Slept(w, timeout, poll, n) && Elapsed(w, timeout, poll, n) < timeout
    ensures Slept(w, timeout, poll, n + 1) && n < most
  {
    assert w.readTime(n) >= 0.0 && w.overshoot(n) >= 0.0;
    StartAndEnd(w, timeout, poll, n);
    OneMore(n, poll);
    var slept, next := n as real * poll, (n + 1) as real * poll;
    assert next == slept + poll;
    hide StartOf, Elapsed;
    FewerPolls(n, most, poll, timeout);
  }

  /**
   * The polling loop. Provided time does not run backwards it reads at most ceil(timeout / poll) + 1
   * times; it goes on as long as the timeout is not used up, reports completion exactly when its last
   * read shows the day over, which no earlier read did, and gives up only once the timeout is used up.
   */
  method WaitForCycle(day: Day, timeout: real, poll: real, w: World)
    returns (r: Guarded<Outcome>, log: seq<nat>, ghost count: nat)
    requires TimeMoves(w)
    ensures r.GuardFailure? <==> timeout < 0.0 || poll <= 0.0
    ensures r.Pass? ==> 1 <= count <= Polls(timeout, poll) + 1
    ensures r.Pass? ==> forall k: nat | k < count - 1 :: !DayIsOver(day, w.read(k)) && Elapsed(w, timeout, poll, k) < timeout
    ensures r.Pass? ==> (r.value.Completed? <==> DayIsOver(day, w.read(count - 1)))
    ensures r.Pass? && !r.value.Completed? ==> Elapsed(w, timeout, poll, count - 1) >= timeout
    ensures r.Pass? && !r.value.Completed? ==> (r.value.OverviewUnavailable? <==> w.read(count - 1).None?)
    ensures r.Pass? ==> |log| == (if count < 40 then count else 40)
    ensures r.Pass? ==> forall k | 0 <= k < |log| :: log[k] == count - |log| + k
  {
    log := [];
    count := 0;
    if timeout < 0.0 || poll <= 0.0 {
      return GuardFailure, [], 0;
    }
    hide IsReady, DayIsOver, StartOf, Elapsed, Polls, Spans, TimeMoves, GoesOn, LastForty;
    var now := 0.0;
    var seen: seq<nat> := [];
    var n := 0;
    ghost var most := Polls(timeout, poll);
    PollsSpan(timeout, poll);
    WaitBegins(day, w, timeout, poll);
    hide Slept;
    while true
      invariant 0 <= n <= most
      invariant now == StartOf(w, timeout, poll, n) && Slept(w, timeout, poll, n)
      invariant GoesOn(day, w, timeout, poll, n)
      invariant |seen| == n && forall k | 0 <= k < n :: seen[k] == k
      decreases most + 1 - n
    {
      var current := w.read(n);
      now := now + w.readTime(n);
      seen := seen + [n];
      count := n + 1;
      LogEnds(seen);
      GoesOnSaysSo(day, w, timeout, poll, n);
      ReadyExactly(day, current);
      StartAndEnd(w, timeout, poll, n);
      if IsReady(day, current) {
        return Pass(Completed), LastForty(seen), count;
      }
      var remaining := timeout - now;
      if remaining <= 0.0 {
        return Pass(if current.None? then OverviewUnavailable else TimedOut), LastForty(seen), count;
      }
      SleepsAdd(w, timeout, poll, n, most);
      GoesOnOnce(day, w, timeout, poll, n);
      now := now + (if poll <= remaining then poll else remaining) + w.overshoot(n);
      n := n + 1;
    }
  }
}
