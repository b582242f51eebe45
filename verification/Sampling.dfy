/** Coverage of a job by memory samples, and deltas of a measured field over them. */
module Sampling {
  import opened Wrappers
  import opened Sequences

  // ----- Cadence -----

  predicate Ascending(s: seq<int>) {
    forall i, j | 0 <= i < j < |s| :: s[i] <= s[j]
  }

  function InsertInt(x: int, s: seq<int>): seq<int> {
    if s == [] || x <= s[0] then [x] + s else [s[0]] + InsertInt(x, s[1..])
  }

  function SortInts(s: seq<int>): seq<int> {
    if s == [] then [] else InsertInt(s[0], SortInts(s[1..]))
  }

  lemma {:induction false} InsertIntKeeps(x: int, s: seq<int>, y: int)
    ensures y in InsertInt(x, s) <==> y == x || y in s
    ensures |InsertInt(x, s)| == |s| + 1
  {
    if s != [] && x > s[0] {
      InsertIntKeeps(x, s[1..], y);
      assert s == [s[0]] + s[1..];
    }
  }

  lemma {:induction false} InsertIntSorts(x: int, s: seq<int>)
    requires Ascending(s)
    ensures Ascending(InsertInt(x, s))
  {
    if s != [] && x > s[0] {
      InsertIntSorts(x, s[1..]);
      var rest := InsertInt(x, s[1..]);
      forall j | 0 <= j < |rest| ensures s[0] <= rest[j] {
        InsertIntKeeps(x, s[1..], rest[j]);
        assert rest[j] in rest;
      }
    }
  }

  lemma {:induction false} SortIntsSorts(s: seq<int>)
    ensures Ascending(SortInts(s)) && |SortInts(s)| == |s|
    ensures forall x :: x in SortInts(s) <==> x in s
  {
    if s != [] {
      SortIntsSorts(s[1..]);
      var t := SortInts(s[1..]);
      InsertIntSorts(s[0], t);
      assert s == [s[0]] + s[1..];
      forall x ensures x in SortInts(s) <==> x in s {
        InsertIntKeeps(s[0], t, x);
      }
      InsertIntKeeps(s[0], t, 0);
    }
  }

  /** The middle value, or the mean of the two middle values. */
  function Median(s: seq<int>): real
    requires s != []
  {
    SortIntsSorts(s);
    var t := SortInts(s);
    if |t| % 2 == 1 then t[|t| / 2] as real else (t[|t| / 2 - 1] + t[|t| / 2]) as real / 2.0
  }

  /** The median lies between two of the values. */
  lemma MedianBounds(s: seq<int>)
    requires s != []
    ensures exists lo, hi :: lo in s && hi in s && lo as real <= Median(s) <= hi as real
  {
    SortIntsSorts(s);
    var t := SortInts(s);
    var a, b := t[(|t| - 1) / 2], t[|t| / 2];
    assert a in t && b in t && a <= b;
    assert a as real <= Median(s) <= b as real;
  }

  function Positive(declared: seq<Option<int>>): seq<int> {
    if declared == [] then []
    else
      var front := Positive(declared[..|declared| - 1]);
      var last := declared[|declared| - 1];
      if last.Some? && last.value > 0 then front + [last.value] else front
  }

  lemma {:induction false} PositiveIsPositive(declared: seq<Option<int>>)
    ensures forall x | x in Positive(declared) :: x > 0
  {
    if declared != [] {
      PositiveIsPositive(declared[..|declared| - 1]);
    }
  }

  const DEFAULT_CADENCE := 5.0

  /** The median declared interval of the samples, in seconds. */
  function Cadence(declared: seq<Option<int>>): (c: real)
    ensures c > 0.0
  {
    var positive := Positive(declared);
    if positive == [] then DEFAULT_CADENCE
    else
      PositiveIsPositive(declared);
      MedianBounds(positive);
      Median(positive)
  }

  lemma {:induction false} InsertIntCounts(x: int, s: seq<int>)
    ensures multiset(InsertInt(x, s)) == multiset(s) + multiset{x}
  {
    if s != [] && x > s[0] {
      InsertIntCounts(x, s[1..]);
      assert s == [s[0]] + s[1..];
    }
  }

  lemma {:induction false} SortIntsCounts(s: seq<int>)
    ensures multiset(SortInts(s)) == multiset(s)
  {
    if s != [] {
      SortIntsCounts(s[1..]);
      InsertIntCounts(s[0], SortInts(s[1..]));
      assert s == [s[0]] + s[1..];
    }
  }

  lemma HeadIsLeast(a: seq<int>, b: seq<int>)
    requires a != [] && b != [] && Ascending(a) && multiset(a) == multiset(b)
    ensures a[0] <= b[0]
  {
    assert b[0] in multiset(a);
    var j :| 0 <= j < |a| && a[j] == b[0];
  }

  lemma TailCounts(a: seq<int>)
    requires a != []
    ensures multiset(a[1..]) == multiset(a) - multiset{a[0]}
  {
    assert a == [a[0]] + a[1..];
  }

  /** There is one ascending list of given values. */
  lemma {:induction false} AscendingIsOne(a: seq<int>, b: seq<int>)
    requires Ascending(a) && Ascending(b) && multiset(a) == multiset(b)
    ensures a == b
  {
    assert |multiset(a)| == |a| && |multiset(b)| == |b|;
    if a != [] {
      HeadIsLeast(a, b);
      HeadIsLeast(b, a);
      TailCounts(a);
      TailCounts(b);
      AscendingIsOne(a[1..], b[1..]);
      assert a == [a[0]] + a[1..] && b == [b[0]] + b[1..];
    }
  }

  lemma {:induction false} PositiveCounts(declared: seq<Option<int>>, x: int)
    ensures multiset(Positive(declared))[x] == if x > 0 then multiset(declared)[Some(x)] else 0
  {
    if declared != [] {
      var n := |declared| - 1;
      PositiveCounts(declared[..n], x);
      assert declared == declared[..n] + [declared[n]];
    }
  }

  /** The cadence is the median of the positive declared intervals, written out on their ascending list. */
  lemma CadenceExactly(declared: seq<Option<int>>, values: seq<int>)
    requires Ascending(values)
    requires forall x :: multiset(values)[x] == if x > 0 then multiset(declared)[Some(x)] else 0
    ensures var n := |values|;
            Cadence(declared) == if n == 0 then 5.0
                                 else if n % 2 == 1 then values[n / 2] as real
                                 else (values[n / 2 - 1] + values[n / 2]) as real / 2.0
  {
    var positive := Positive(declared);
    forall x ensures multiset(positive)[x] == multiset(values)[x] {
      PositiveCounts(declared, x);
    }
    assert multiset(positive) == multiset(values);
    SortIntsSorts(positive);
    SortIntsCounts(positive);
    AscendingIsOne(SortInts(positive), values);
    assert |multiset(positive)| == |positive| && |multiset(values)| == |values|;
  }

  // ----- Coverage -----

  datatype Coverage = NoSamples | Partial | Complete

  predicate Sorted(times: seq<real>) {
    forall i, j | 0 <= i < j < |times| :: times[i] <= times[j]
  }

  predicate Within(times: seq<real>, start: real, end: real) {
    forall i | 0 <= i < |times| :: start <= times[i] <= end
  }

  predicate Sampled(times: seq<real>, a: real, b: real) {
    exists i | 0 <= i < |times| :: a <= times[i] <= b
  }

  /** Every closed stretch of the job of at least three cadences holds a sample. */
  ghost predicate Dense(times: seq<real>, start: real, end: real, cadence: real) {
    forall a: real, b: real | start <= a && a + cadence * 3.0 <= b && b <= end :: Sampled(times, a, b)
  }

  predicate GapsSmall(times: seq<real>, cadence: real) {
    forall i | 0 <= i < |times| - 1 :: times[i + 1] - times[i] <= cadence * 3.0
  }

  /** The last sample at or before a moment. */
  lemma {:induction false} LastBefore(times: seq<real>, a: real) returns (i: int)
    requires Sorted(times)
    ensures -1 <= i < |times| && (i >= 0 ==> times[i] < a) && forall k | i < k < |times| :: times[k] >= a
  {
    i := |times| - 1;
    while i >= 0 && times[i] >= a
      invariant -1 <= i < |times| && forall k | i < k < |times| :: times[k] >= a
    {
      i := i - 1;
    }
  }

  lemma SmallGapsAreDense(times: seq<real>, start: real, end: real, cadence: real)
    requires times != [] && Sorted(times) && cadence > 0.0
    requires times[0] - start <= cadence * 2.0 && end - times[|times| - 1] <= cadence * 2.0 && GapsSmall(times, cadence)
    ensures Dense(times, start, end, cadence)
  {
    forall a: real, b: real | start <= a && a + cadence * 3.0 <= b && b <= end ensures Sampled(times, a, b) {
      var i := LastBefore(times, a);
      assert i + 1 < |times|;
      assert a <= times[i + 1] <= b;
    }
  }

  lemma DenseHasSmallGaps(times: seq<real>, start: real, end: real, cadence: real)
    requires Sorted(times) && Within(times, start, end) && cadence > 0.0 && Dense(times, start, end, cadence)
    ensures GapsSmall(times, cadence)
  {
    forall i | 0 <= i < |times| - 1 ensures times[i + 1] - times[i] <= cadence * 3.0 {
      var slack := (times[i + 1] - times[i] - cadence * 3.0) / 2.0;
      var a := times[i] + slack;
      var b := a + cadence * 3.0;
      assert slack > 0.0 ==> start <= a && b <= end;
      forall k | 0 <= k < |times| && slack > 0.0 ensures !(a <= times[k] <= b) {
        assert k <= i || i + 1 <= k;
      }
      assert slack > 0.0 ==> !Sampled(times, a, b);
    }
  }

  /**
   * What "complete" promises, exactly: a sample within two cadences of either end, and in every closed
   * stretch of the job of at least three cadences.
   */
  lemma CompleteExactly(times: seq<real>, start: real, end: real, cadence: real)
    requires start <= end && Sorted(times) && Within(times, start, end) && cadence > 0.0
    ensures (times != [] && times[0] - start <= cadence * 2.0 && end - times[|times| - 1] <= cadence * 2.0
             && GapsSmall(times, cadence))
        <==> (Sampled(times, start, start + cadence * 2.0) && Sampled(times, end - cadence * 2.0, end)
              && Dense(times, start, end, cadence))
  {
    if times != [] && times[0] - start <= cadence * 2.0 && end - times[|times| - 1] <= cadence * 2.0
       && GapsSmall(times, cadence)
    {
      SmallGapsAreDense(times, start, end, cadence);
      assert Sampled(times, start, start + cadence * 2.0) by {
        assert start <= times[0] <= start + cadence * 2.0;
      }
    }
    if Sampled(times, start, start + cadence * 2.0) && Sampled(times, end - cadence * 2.0, end)
       && Dense(times, start, end, cadence)
    {
      DenseHasSmallGaps(times, start, end, cadence);
    }
  }

  /** Complete when no stretch between neighbours, or at either end, is too long. */
  method Classify(times: seq<real>, start: real, end: real, cadence: real) returns (coverage: Coverage)
    requires start <= end && Sorted(times) && Within(times, start, end) && cadence > 0.0
    ensures coverage.NoSamples? <==> times == []
    ensures coverage.Complete? <==>
              && Sampled(times, start, start + cadence * 2.0) && Sampled(times, end - cadence * 2.0, end)
              && Dense(times, start, end, cadence)
  {
    CompleteExactly(times, start, end, cadence);
    if times == [] {
      return NoSamples;
    }
    var largest := 0.0;
    for i := 0 to |times| - 1
      invariant largest >= 0.0 && forall k | 0 <= k < i :: times[k + 1] - times[k] <= largest
      invariant largest == 0.0 || exists k :: 0 <= k < i && times[k + 1] - times[k] == largest
    {
      if times[i + 1] - times[i] > largest {
        largest := times[i + 1] - times[i];
      }
    }
    var atEnds := times[0] - start <= cadence * 2.0 && end - times[|times| - 1] <= cadence * 2.0;
    coverage := if atEnds && largest <= cadence * 3.0 then Complete else Partial;
  }

  // ----- Deltas -----

  datatype Identity = Identity(pid: Option<int>, startTicks: Option<int>, boot: Option<string>, cgroup: Option<string>)

  /** A sample that measured the field. */
  datatype Sample = Sample(value: int, identity: Identity)

  datatype Reason =
    | NoSamplesTaken | InsufficientSamples | IdentityIncomplete
    | PidChanged | ProcessRestarted | BootChanged | CgroupChanged | CounterReset

  datatype Delta = Delta(value: int) | NoDelta(reason: Reason)

  predicate IsComplete(id: Identity) {
    id.pid.Some? && id.startTicks.Some? && id.boot.Some? && id.cgroup.Some?
  }

  function SafeDelta(samples: seq<Sample>, counter: bool): Delta {
    if samples == [] then NoDelta(NoSamplesTaken)
    else if |samples| < 2 then NoDelta(InsufficientSamples)
    else if exists i | 0 <= i < |samples| :: !IsComplete(samples[i].identity) then NoDelta(IdentityIncomplete)
    else if exists i | 0 <= i < |samples| :: samples[i].identity.pid != samples[0].identity.pid then NoDelta(PidChanged)
    else if exists i | 0 <= i < |samples| :: samples[i].identity.startTicks != samples[0].identity.startTicks then
      NoDelta(ProcessRestarted)
    else if exists i | 0 <= i < |samples| :: samples[i].identity.boot != samples[0].identity.boot then NoDelta(BootChanged)
    else if exists i | 0 <= i < |samples| :: samples[i].identity.cgroup != samples[0].identity.cgroup then
      NoDelta(CgroupChanged)
    else if counter && exists i | 0 <= i < |samples| - 1 :: samples[i + 1].value < samples[i].value then NoDelta(CounterReset)
    else Delta(samples[|samples| - 1].value - samples[0].value)
  }

  /** The increments between neighbours, added up. */
  function Increments(samples: seq<Sample>): int {
    if |samples| < 2 then 0
    else Increments(samples[..|samples| - 1]) + (samples[|samples| - 1].value - samples[|samples| - 2].value)
  }

  lemma {:induction false} IncrementsTelescope(samples: seq<Sample>)
    requires samples != []
    ensures Increments(samples) == samples[|samples| - 1].value - samples[0].value
  {
    if |samples| >= 2 {
      IncrementsTelescope(samples[..|samples| - 1]);
    }
  }

  lemma {:induction false} IncrementsGrow(samples: seq<Sample>)
    requires forall i | 0 <= i < |samples| - 1 :: samples[i].value <= samples[i + 1].value
    ensures Increments(samples) >= 0
  {
    if |samples| >= 2 {
      var front := samples[..|samples| - 1];
      assert forall i | 0 <= i < |front| :: front[i] == samples[i];
      IncrementsGrow(front);
    }
  }

  /**
   * A delta is reported exactly for two samples or more of one complete process and cgroup identity, and
   * for a counter only if it never fell; it is then the sum of the increments, for a counter not negative.
   */
  lemma DeltaExactly(samples: seq<Sample>, counter: bool)
    ensures SafeDelta(samples, counter).Delta? <==>
              && |samples| >= 2
              && (forall i | 0 <= i < |samples| ::
                    && samples[i].identity.pid.Some? && samples[i].identity.startTicks.Some?
                    && samples[i].identity.boot.Some? && samples[i].identity.cgroup.Some?
                    && samples[i].identity == samples[0].identity)
              && (counter ==> forall i | 0 <= i < |samples| - 1 :: samples[i].value <= samples[i + 1].value)
    ensures SafeDelta(samples, counter).Delta? ==> SafeDelta(samples, counter).value == Increments(samples)
    ensures SafeDelta(samples, counter).Delta? && counter ==> SafeDelta(samples, counter).value >= 0
  {
    if SafeDelta(samples, counter).Delta? {
      IncrementsTelescope(samples);
      if counter {
        IncrementsGrow(samples);
      }
    }
  }

  predicate AllIdentified(samples: seq<Sample>) {
    forall i | 0 <= i < |samples| ::
      && samples[i].identity.pid != None && samples[i].identity.startTicks != None
      && samples[i].identity.boot != None && samples[i].identity.cgroup != None
  }

  ghost predicate OnePid(samples: seq<Sample>) {
    forall i, j | 0 <= i < |samples| && 0 <= j < |samples| :: samples[i].identity.pid == samples[j].identity.pid
  }

  ghost predicate OneStart(samples: seq<Sample>) {
    forall i, j | 0 <= i < |samples| && 0 <= j < |samples| :: samples[i].identity.startTicks == samples[j].identity.startTicks
  }

  ghost predicate OneBoot(samples: seq<Sample>) {
    forall i, j | 0 <= i < |samples| && 0 <= j < |samples| :: samples[i].identity.boot == samples[j].identity.boot
  }

  ghost predicate OneCgroup(samples: seq<Sample>) {
    forall i, j | 0 <= i < |samples| && 0 <= j < |samples| :: samples[i].identity.cgroup == samples[j].identity.cgroup
  }

  predicate EverFalls(samples: seq<Sample>) {
    exists i | 0 < i < |samples| :: samples[i].value < samples[i - 1].value
  }

  lemma FallsMeans(samples: seq<Sample>)
    ensures EverFalls(samples) <==> exists i | 0 <= i < |samples| - 1 :: samples[i + 1].value < samples[i].value
  {
    if i :| 0 <= i < |samples| - 1 && samples[i + 1].value < samples[i].value {
      assert samples[i + 1].value < samples[i + 1 - 1].value;
    }
    if i :| 0 < i < |samples| && samples[i].value < samples[i - 1].value {
      assert samples[i - 1 + 1].value < samples[i - 1].value;
    }
  }

  /** The outcome is the first that applies: too few samples, an identity that is missing or changed, a fall. */
  lemma OutcomeExactly(samples: seq<Sample>, counter: bool)
    ensures SafeDelta(samples, counter) ==
              if |samples| == 0 then NoDelta(NoSamplesTaken)
              else if |samples| == 1 then NoDelta(InsufficientSamples)
              else if !AllIdentified(samples) then NoDelta(IdentityIncomplete)
              else if !OnePid(samples) then NoDelta(PidChanged)
              else if !OneStart(samples) then NoDelta(ProcessRestarted)
              else if !OneBoot(samples) then NoDelta(BootChanged)
              else if !OneCgroup(samples) then NoDelta(CgroupChanged)
              else if counter && EverFalls(samples) then NoDelta(CounterReset)
              else Delta(samples[|samples| - 1].value - samples[0].value)
  {
    FallsMeans(samples);
    hide EverFalls;
  }
}
