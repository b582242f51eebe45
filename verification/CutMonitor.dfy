/** The supervisor of a cut: a capacity probe, a watcher and the worker it may stop. */
module CutMonitor {
  import opened Wrappers

  datatype Reason =
    | BelowFloor | CapacityUnavailable | HeartbeatOwner | HeartbeatMissing | Resource(code: int) | ReserveReached

  const STALE := 15_000_000     // microseconds
  const GRACE := 5_000_000

  /** Where a watcher tick stands; what it read under the lock is its own from then on. */
  datatype Tick =
    | Waiting
    | Begun(at: int)
    | Observed(at: int, low: bool, success: Option<int>, successAt: int)

  /** The worker asks before each step; a granted step has not begun yet. */
  datatype Worker = Between | Granted | InStep

  /** `continues` keeps every observation that let the cut go on. */
  datatype Monitor = Monitor(
    required: int, low: bool, success: Option<int>, successAt: int,
    reason: Option<Reason>, stoppedAt: Option<int>, tick: Tick, watching: bool, signalled: bool, failed: bool,
    worker: Worker, granted: nat, begun: nat,
    continues: seq<Observation>)

  datatype Observation = Observation(at: int, capacity: int, measuredAt: int, low: bool)

  /** Where the body of a tick raises: observing, cancelling the execution, or writing the first stop request. */
  datatype Failure = Observing | Cancelling(other: Option<Reason>) | Recording(other: Option<Reason>, at: int)

  datatype Event =
    | ProbeMeasures(value: int, at: int)
    | ProbeBelowFloor                       // the probe reports the floor without a value
    | ProbeFails
    | TickBegins(at: int)
    | TickReads
    | TickEnds(other: Option<Reason>, at: int)
    | TickRaises(failure: Failure)
    | WorkerAsks
    | StepBegins
    | StepEnds
    | Closes

  function Ready(required: int): Monitor {
    Monitor(required, false, None, 0, None, None, Waiting, true, false, false, Between, 0, 0, [])
  }

  /** The outcome of an observation, `other` being what the later checks found. */
  function Verdict(tick: Tick, other: Option<Reason>): Option<Reason>
    requires tick.Observed?
  {
    if tick.low then Some(BelowFloor)
    else if tick.success.None? || tick.at - tick.successAt > STALE then Some(CapacityUnavailable)
    else other
  }

  function Probe(m: Monitor, value: int, at: int): Monitor {
    if value < m.required then m.(low := true, success := None)
    else m.(success := Some(value), successAt := at)
  }

  /** The end of a tick: the first reason stays, and five seconds after the first stop tick comes the signal. */
  function End(m: Monitor, other: Option<Reason>, at: int): Monitor
    requires m.tick.Observed?
  {
    var verdict := Verdict(m.tick, other);
    if verdict.None? then
      m.(tick := Waiting,
         continues := m.continues + [Observation(m.tick.at, m.tick.success.value, m.tick.successAt, m.tick.low)])
    else
      var stoppedAt := if m.stoppedAt.Some? then m.stoppedAt.value else at;
      m.(tick := Waiting, reason := if m.reason.Some? then m.reason else verdict, stoppedAt := Some(stoppedAt),
         signalled := m.signalled || at - stoppedAt >= GRACE)
  }

  /** A tick that raises sends the signal and ends the watcher; it keeps what the tick had already set. */
  function Raised(m: Monitor, failure: Failure): Monitor
    requires m.tick.Observed?
  {
    var dead := m.(tick := Waiting, watching := false, signalled := true, failed := true);
    match failure
    case Observing => if Verdict(m.tick, None).None? then dead else m
    case Cancelling(other) =>
      if Verdict(m.tick, other).None? then m
      else dead.(reason := if m.reason.Some? then m.reason else Verdict(m.tick, other))
    case Recording(other, at) =>
      if Verdict(m.tick, other).None? || m.stoppedAt.Some? then m
      else dead.(reason := if m.reason.Some? then m.reason else Verdict(m.tick, other), stoppedAt := Some(at))
  }

  function After(m: Monitor, e: Event): Monitor {
    match e
    case ProbeMeasures(value, at) => Probe(m, value, at)
    case ProbeBelowFloor => m.(low := true, success := None)
    case ProbeFails => m
    case TickBegins(at) => if m.watching && m.tick.Waiting? then m.(tick := Begun(at)) else m
    case TickReads => if m.tick.Begun? then m.(tick := Observed(m.tick.at, m.low, m.success, m.successAt)) else m
    case TickEnds(other, at) => if m.tick.Observed? then End(m, other, at) else m
    case TickRaises(failure) => if m.tick.Observed? then Raised(m, failure) else m
    case WorkerAsks =>
      if m.worker.Between? && m.reason.None? then m.(worker := Granted, granted := m.granted + 1) else m
    case StepBegins => if m.worker.Granted? then m.(worker := InStep, begun := m.begun + 1) else m
    case StepEnds => if m.worker.InStep? then m.(worker := Between) else m
    case Closes => m.(watching := false)
  }

  function Run(m: Monitor, events: seq<Event>): Monitor
    decreases |events|
  {
    if events == [] then m else Run(After(m, events[0]), events[1..])
  }

  /** The three events of one watcher tick with nothing in between. */
  function WholeTick(m: Monitor, begins: int, other: Option<Reason>, ends: int): Monitor {
    After(After(After(m, TickBegins(begins)), TickReads), TickEnds(other, ends))
  }

  /** The monitor object between two ticks: the probe's locked update, and a tick from its read to its end. */
  class Supervisor {
    const required: int
    var low: bool
    var success: Option<int>
    var successAt: int
    var reason: Option<Reason>
    var stoppedAt: Option<int>
    var watching: bool
    var signalled: bool
    ghost var failed: bool
    ghost var worker: Worker
    ghost var granted: nat
    ghost var begun: nat
    ghost var continues: seq<Observation>

    ghost function State(): Monitor
      reads this
    {
      Monitor(required, low, success, successAt, reason, stoppedAt, Waiting, watching, signalled, failed,
              worker, granted, begun, continues)
    }

    constructor (required: int)
      ensures State() == Ready(required)
    {
      this.required := required;
      low, success, successAt, reason, stoppedAt := false, None, 0, None, None;
      watching, signalled, failed := true, false, false;
      worker, granted, begun, continues := Between, 0, 0, [];
    }

    method RecordCapacity(value: int, at: int)
      modifies this
      ensures State() == After(old(State()), ProbeMeasures(value, at))
      ensures low <==> old(low) || value < required
      ensures success == if value < required then None else Some(value)
      ensures value >= required ==> successAt == at
      ensures reason == old(reason) && stoppedAt == old(stoppedAt) && signalled == old(signalled)
    {
      if value < required {
        low := true;
        success := None;
      } else {
        success := Some(value);
        successAt := at;
      }
    }

    method Watch(other: Option<Reason>, begins: int, ends: int)
      requires watching
      modifies this
      ensures State() == WholeTick(old(State()), begins, other, ends)
    {
      ghost var observed := State().(tick := Observed(begins, low, success, successAt));
      assert After(After(State(), TickBegins(begins)), TickReads) == observed;
      var verdict: Option<Reason>;
      if low {
        verdict := Some(BelowFloor);
      } else if success.None? || begins - successAt > STALE {
        verdict := Some(CapacityUnavailable);
      } else {
        verdict := other;
      }
      assert verdict == Verdict(observed.tick, other);
      hide Verdict;
      if verdict.Some? {
        if reason.None? {
          reason := verdict;
        }
        if stoppedAt.None? {
          stoppedAt := Some(ends);
        }
        if ends - stoppedAt.value >= GRACE {
          signalled := true;
        }
      } else {
        continues := continues + [Observation(begins, success.value, successAt, low)];
      }
      assert State() == End(observed, other, ends);
    }
  }

  // ----- Invariant -----

  predicate IsSound(o: Observation, required: int) {
    required <= o.capacity && o.at - o.measuredAt <= STALE && !o.low
  }

  predicate AllSound(os: seq<Observation>, required: int) {
    forall i | 0 <= i < |os| :: IsSound(os[i], required)
  }

  predicate Inv(m: Monitor) {
    && (m.success.Some? ==> m.required <= m.success.value)
    && (m.tick.Observed? && m.tick.success.Some? ==> m.required <= m.tick.success.value)
    && (m.tick.Observed? && m.tick.low ==> m.low)
    && AllSound(m.continues, m.required)
    && (m.stoppedAt.Some? ==> m.reason.Some?)
    && (m.reason.Some? && m.stoppedAt.None? ==> m.failed)
    && (m.failed ==> m.signalled && !m.watching && m.tick.Waiting?)
    && m.begun + (if m.worker.Granted? then 1 else 0) == m.granted
  }

  lemma EndHolds(m: Monitor, other: Option<Reason>, at: int)
    requires Inv(m) && m.tick.Observed?
    ensures Inv(End(m, other, at)) && End(m, other, at).required == m.required && End(m, other, at).low == m.low
    ensures m.reason.Some? ==> End(m, other, at).reason == m.reason && End(m, other, at).stoppedAt == m.stoppedAt
  {
    if Verdict(m.tick, other).None? {
      var o := Observation(m.tick.at, m.tick.success.value, m.tick.successAt, m.tick.low);
      assert AllSound(m.continues + [o], m.required);
    }
    hide AllSound;
  }

  lemma EventHolds(m: Monitor, e: Event)
    requires Inv(m)
    ensures Inv(After(m, e)) && After(m, e).required == m.required
    ensures m.low ==> After(m, e).low
    ensures m.reason.Some? ==> After(m, e).reason == m.reason && After(m, e).stoppedAt == m.stoppedAt
  {
    hide End, Raised, Verdict;
    if e.TickEnds? && m.tick.Observed? {
      EndHolds(m, e.other, e.at);
    } else if e.TickRaises? && m.tick.Observed? {
      RaisedHolds(m, e.failure);
    } else {
      OtherEventHolds(m, e);
    }
  }

  lemma RaisedHolds(m: Monitor, failure: Failure)
    requires Inv(m) && m.tick.Observed?
    ensures Inv(Raised(m, failure)) && Raised(m, failure).required == m.required && Raised(m, failure).low == m.low
    ensures m.reason.Some? ==> Raised(m, failure).reason == m.reason && Raised(m, failure).stoppedAt == m.stoppedAt
  {
    hide Verdict, AllSound;
  }

  lemma OtherEventHolds(m: Monitor, e: Event)
    requires Inv(m) && !(e.TickEnds? && m.tick.Observed?) && !(e.TickRaises? && m.tick.Observed?)
    ensures Inv(After(m, e)) && After(m, e).required == m.required
    ensures m.low ==> After(m, e).low
    ensures m.reason.Some? ==> After(m, e).reason == m.reason && After(m, e).stoppedAt == m.stoppedAt
  {
    hide End, Raised, Verdict, AllSound;
  }

  lemma {:induction false} RunHolds(m: Monitor, events: seq<Event>)
    requires Inv(m)
    ensures Inv(Run(m, events)) && Run(m, events).required == m.required
    ensures m.low ==> Run(m, events).low
    decreases |events|
  {
    hide After, Inv;
    if events != [] {
      EventHolds(m, events[0]);
      RunHolds(After(m, events[0]), events[1..]);
    }
  }

  // ----- Results -----

  /** What one tick does, with nothing in between: it lets the cut on, or it stops it. */
  lemma WholeTickMeans(m: Monitor, begins: int, other: Option<Reason>, ends: int)
    requires m.watching && m.tick.Waiting?
    ensures var n := WholeTick(m, begins, other, ends);
            && n.tick.Waiting? && n.watching && n.low == m.low && n.success == m.success && n.successAt == m.successAt
            && n.worker == m.worker && n.granted == m.granted && n.begun == m.begun && n.failed == m.failed
            && if !m.low && m.success.Some? && begins - m.successAt <= 15_000_000 && other.None? then
                 n.reason == m.reason && n.stoppedAt == m.stoppedAt && n.signalled == m.signalled
                 && n.continues == m.continues + [Observation(begins, m.success.value, m.successAt, false)]
               else
                 && n.continues == m.continues
                 && n.stoppedAt == (if m.stoppedAt.Some? then m.stoppedAt else Some(ends))
                 && (n.signalled <==> m.signalled || ends - n.stoppedAt.value >= 5_000_000)
                 && n.reason == if m.reason.Some? then m.reason
                                else if m.low then Some(BelowFloor)
                                else if m.success.None? || begins - m.successAt > 15_000_000 then Some(CapacityUnavailable)
                                else other
  {
  }

  /** Every observation that let the cut go on had enough capacity, recorded at most 15 s before its tick. */
  lemma ContinuesAreFresh(required: int, events: seq<Event>)
    ensures var m := Run(Ready(required), events);
            forall i | 0 <= i < |m.continues| ::
              required <= m.continues[i].capacity && m.continues[i].at - m.continues[i].measuredAt <= 15_000_000
  {
    RunHolds(Ready(required), events);
  }

  /** Whether the observation under way may still let the cut go on, whatever is measured meanwhile. */
  predicate LetsOn(m: Monitor) {
    m.tick.Observed? && Verdict(m.tick, None).None?
  }

  /** Spelled out: the reading of the observation was not low, is there, and is at most 15 s old. */
  lemma LetsOnExactly(m: Monitor)
    ensures LetsOn(m) <==>
              m.tick.Observed? && !m.tick.low && m.tick.success.Some? && m.tick.at - m.tick.successAt <= 15_000_000
  {
  }

  lemma LatchStep(m: Monitor, e: Event)
    requires m.low
    ensures var n := After(m, e);
            n.low && |n.continues| + (if LetsOn(n) then 1 else 0) <= |m.continues| + (if LetsOn(m) then 1 else 0)
  {
  }

  lemma {:induction false} LatchBound(m: Monitor, events: seq<Event>)
    requires m.low
    ensures var n := Run(m, events);
            n.low && |n.continues| + (if LetsOn(n) then 1 else 0) <= |m.continues| + (if LetsOn(m) then 1 else 0)
    decreases |events|
  {
    hide After, LetsOn;
    if events != [] {
      LatchStep(m, events[0]);
      LatchBound(After(m, events[0]), events[1..]);
    }
  }

  /**
   * Once the floor is latched the cut is let on at most once more, and that can happen exactly if an
   * observation is under way whose own reading has the capacity and is fresh.
   */
  lemma LatchStopsContinues(m: Monitor)
    requires m.low
    ensures (exists events: seq<Event> :: |Run(m, events).continues| > |m.continues|) <==> LetsOn(m)
    ensures forall events: seq<Event> :: |Run(m, events).continues| <= |m.continues| + 1
  {
    forall events: seq<Event>
      ensures |Run(m, events).continues| <= |m.continues| + (if LetsOn(m) then 1 else 0)
    {
      LatchBound(m, events);
    }
    if LetsOn(m) {
      RunOne(m, TickEnds(None, 0));
      assert |Run(m, [TickEnds(None, 0)]).continues| > |m.continues|;
    }
  }

  /** A capacity below the requirement latches the floor, and nothing else does or ever clears it. */
  lemma LatchIsExact(m: Monitor, e: Event)
    ensures After(m, e).low <==> m.low || e.ProbeBelowFloor? || (e.ProbeMeasures? && e.value < m.required)
    ensures e.ProbeBelowFloor? || (e.ProbeMeasures? && e.value < m.required) ==> After(m, e).success.None?
    ensures e.ProbeMeasures? && e.value >= m.required ==>
              After(m, e).success == Some(e.value) && After(m, e).successAt == e.at
    ensures e.ProbeFails? ==> After(m, e) == m
  {
    hide End, Raised;
    if e.TickEnds? && m.tick.Observed? {
      EndKeepsProbe(m, e.other, e.at);
    } else if e.TickRaises? && m.tick.Observed? {
      RaisedKeepsProbe(m, e.failure);
    }
  }

  lemma EndKeepsProbe(m: Monitor, other: Option<Reason>, at: int)
    requires m.tick.Observed?
    ensures End(m, other, at).low == m.low
  {
  }

  lemma RaisedKeepsProbe(m: Monitor, failure: Failure)
    requires m.tick.Observed?
    ensures Raised(m, failure).low == m.low
  {
  }

  /**
   * After a measured capacity below the requirement, whatever happens next and however good later
   * measurements are: no observation that reads from then on lets the cut on, and each stops it.
   */
  lemma LowMeasurementStops(m: Monitor, value: int, at: int, between: seq<Event>, other: Option<Reason>, ends: int)
    requires Inv(m) && value < m.required
    requires Run(After(m, ProbeMeasures(value, at)), between).tick.Begun?
    ensures var read := After(Run(After(m, ProbeMeasures(value, at)), between), TickReads);
            && read.tick.Observed? && read.tick.low && !LetsOn(read)
            && After(read, TickEnds(other, ends)).continues == read.continues
            && After(read, TickEnds(other, ends)).reason.Some?
            && (read.reason.None? ==> After(read, TickEnds(other, ends)).reason == Some(BelowFloor))
  {
    hide Inv, After;
    var low := After(m, ProbeMeasures(value, at));
    LatchIsExact(m, ProbeMeasures(value, at));
    EventHolds(m, ProbeMeasures(value, at));
    RunHolds(low, between);
    ReadingEnds(Run(low, between), other, ends);
  }

  lemma ReadingEnds(m: Monitor, other: Option<Reason>, ends: int)
    requires m.low && m.tick.Begun?
    ensures var read := After(m, TickReads);
            && read.tick.Observed? && read.tick.low && !LetsOn(read)
            && After(read, TickEnds(other, ends)).continues == read.continues
            && After(read, TickEnds(other, ends)).reason.Some?
            && (read.reason.None? ==> After(read, TickEnds(other, ends)).reason == Some(BelowFloor))
  {
  }

  /** One tick at a time: while one is under way none begins, and its end makes room for the next. */
  lemma TicksDoNotOverlap(m: Monitor, at: int, other: Option<Reason>)
    ensures !m.tick.Waiting? || !m.watching ==> After(m, TickBegins(at)) == m
    ensures m.tick.Observed? ==> After(m, TickEnds(other, at)).tick.Waiting?
    ensures m.tick.Waiting? && m.watching ==> After(m, TickBegins(at)).tick == Begun(at)
  {
  }

  /** A run that gets there: the reading is good, then the floor is latched, then the tick ends. */
  lemma LatchMayBeLate(required: int)
    ensures var m := Run(Ready(required), [ProbeMeasures(required, 0), TickBegins(0), TickReads, ProbeBelowFloor]);
            Inv(m) && m.low && LetsOn(m)
  {
    var m := Ready(required);
    assert Inv(m);
    RunHolds(m, [ProbeMeasures(required, 0), TickBegins(0), TickReads, ProbeBelowFloor]);
    RunFour(m, ProbeMeasures(required, 0), TickBegins(0), TickReads, ProbeBelowFloor);
  }

  lemma RunOne(m: Monitor, a: Event)
    ensures Run(m, [a]) == After(m, a)
  {
    hide After;
    assert [a][1..] == [];
    assert Run(After(m, a), []) == After(m, a);
  }

  lemma RunFour(m: Monitor, a: Event, b: Event, c: Event, d: Event)
    ensures Run(m, [a, b, c, d]) == After(After(After(After(m, a), b), c), d)
  {
    hide After;
    assert [a, b, c, d][1..] == [b, c, d] && [b, c, d][1..] == [c, d] && [c, d][1..] == [d];
    var m3 := After(After(After(m, a), b), c);
    RunOne(m3, d);
    assert Run(After(After(m, a), b), [c, d]) == Run(m3, [d]);
    assert Run(After(m, a), [b, c, d]) == Run(After(After(m, a), b), [c, d]);
  }

  /** The first stop reason is never overwritten. */
  lemma {:induction false} FirstReasonStays(m: Monitor, events: seq<Event>)
    requires Inv(m) && m.reason.Some?
    ensures Run(m, events).reason == m.reason && Run(m, events).stoppedAt == m.stoppedAt
    decreases |events|
  {
    hide After, Inv;
    if events != [] {
      EventHolds(m, events[0]);
      FirstReasonStays(After(m, events[0]), events[1..]);
    }
  }

  lemma GrantsAndSteps(m: Monitor, e: Event)
    requires m.reason.Some?
    ensures var n := After(m, e);
            n.granted == m.granted && n.begun + (if n.worker.Granted? then 1 else 0) <= m.begun + (if m.worker.Granted? then 1 else 0)
  {
  }

  lemma {:induction false} StepBound(m: Monitor, events: seq<Event>)
    requires Inv(m) && m.reason.Some?
    ensures Run(m, events).granted == m.granted
    ensures Run(m, events).begun <= m.begun + (if m.worker.Granted? then 1 else 0)
    decreases |events|
  {
    hide Inv, After;
    if events != [] {
      EventHolds(m, events[0]);
      StepBound(After(m, events[0]), events[1..]);
      GrantsAndSteps(m, events[0]);
    }
  }

  /**
   * After the first reason no step is granted, at most one more begins, and that can happen exactly if
   * the worker had been granted a step that has not begun.
   */
  lemma NoStepAfterReason(m: Monitor)
    requires Inv(m) && m.reason.Some?
    ensures (exists events: seq<Event> :: Run(m, events).begun > m.begun) <==> m.worker.Granted?
    ensures forall events: seq<Event> :: Run(m, events).granted == m.granted && Run(m, events).begun <= m.begun + 1
  {
    hide Inv;
    forall events: seq<Event>
      ensures Run(m, events).granted == m.granted
      ensures Run(m, events).begun <= m.begun + (if m.worker.Granted? then 1 else 0)
    {
      StepBound(m, events);
    }
    if m.worker.Granted? {
      RunOne(m, StepBegins);
      assert Run(m, [StepBegins]).begun > m.begun;
    }
  }

  /** A run that gets there: the worker asks while the tick that stops the cut is under way. */
  lemma StepMayBeLate(required: int)
    ensures var m := Run(Ready(required), [TickBegins(0), TickReads, WorkerAsks, TickEnds(None, 0)]);
            Inv(m) && m.reason.Some? && m.worker.Granted?
  {
    var m := Ready(required);
    assert Inv(m);
    RunHolds(m, [TickBegins(0), TickReads, WorkerAsks, TickEnds(None, 0)]);
    RunFour(m, TickBegins(0), TickReads, WorkerAsks, TickEnds(None, 0));
  }

  /** What an observation that can no longer let the cut on does when it ends. */
  lemma StopTickStops(m: Monitor, other: Option<Reason>, at: int)
    requires Inv(m) && m.tick.Observed? && !LetsOn(m)
    ensures var n := After(m, TickEnds(other, at));
            && n.reason.Some? && n.stoppedAt.Some?
            && (m.reason.None? ==> n.stoppedAt == Some(at) && n.reason in {Some(BelowFloor), Some(CapacityUnavailable)})
            && (n.signalled <==> m.signalled || at - n.stoppedAt.value >= 5_000_000)
  {
    hide AllSound;
  }

  /**
   * With the floor latched, and no observation under way that may still let the cut on, every tick that
   * ends stops the cut, and every one that ends at least five seconds after the first stop sends the
   * signal, however probe, worker and closing are interleaved with the ticks.
   */
  lemma LatchEndsInSignal(
    m: Monitor, before: seq<Event>, other: Option<Reason>, at: int, between: seq<Event>, more: Option<Reason>, last: int)
    requires Inv(m) && m.low && !LetsOn(m)
    requires Run(m, before).tick.Observed?
    requires Run(After(Run(m, before), TickEnds(other, at)), between).tick.Observed?
    ensures var stopped := After(Run(m, before), TickEnds(other, at));
            && stopped.reason.Some? && stopped.stoppedAt.Some?
            && (Run(m, before).reason.None? ==>
                  stopped.stoppedAt == Some(at) && stopped.reason in {Some(BelowFloor), Some(CapacityUnavailable)})
            && var n := After(Run(stopped, between), TickEnds(more, last));
               n.reason == stopped.reason && n.stoppedAt == stopped.stoppedAt
               && (last - stopped.stoppedAt.value >= 5_000_000 ==> n.signalled)
  {
    hide Inv, After, LetsOn;
    var first := Run(m, before);
    RunHolds(m, before);
    NeverAgain(m, before);
    StopTickStops(first, other, at);
    var stopped := After(first, TickEnds(other, at));
    EventHolds(first, TickEnds(other, at));
    LetsOnStep(first, TickEnds(other, at));
    RunHolds(stopped, between);
    NeverAgain(stopped, between);
    FirstReasonStays(stopped, between);
    StopTickStops(Run(stopped, between), more, last);
    EventHolds(Run(stopped, between), TickEnds(more, last));
  }

  lemma LetsOnStep(m: Monitor, e: Event)
    requires m.low && !LetsOn(m)
    ensures After(m, e).low && !LetsOn(After(m, e))
  {
  }

  lemma {:induction false} NeverAgain(m: Monitor, events: seq<Event>)
    requires m.low && !LetsOn(m)
    ensures Run(m, events).low && !LetsOn(Run(m, events))
    decreases |events|
  {
    hide After, LetsOn;
    if events != [] {
      LetsOnStep(m, events[0]);
      NeverAgain(After(m, events[0]), events[1..]);
    }
  }

  /**
   * A tick that raises ends the watcher with a signal, keeping the reason it had come to: while it
   * observes before any verdict, and after a stop verdict while it cancels or writes the first stop.
   */
  lemma RaiseMeans(m: Monitor, other: Option<Reason>, at: int)
    requires m.tick.Observed?
    ensures var n := After(m, TickRaises(Observing)); if LetsOn(m) then Dies(m, n) && n.reason == m.reason else n == m
    ensures var n := After(m, TickRaises(Cancelling(other)));
            if !LetsOn(m) || other.Some? then
              Dies(m, n) && n.reason.Some? && (m.reason.Some? ==> n.reason == m.reason) && n.stoppedAt == m.stoppedAt
            else n == m
    ensures var n := After(m, TickRaises(Recording(other, at)));
            if (!LetsOn(m) || other.Some?) && m.stoppedAt.None? then
              Dies(m, n) && n.reason.Some? && (m.reason.Some? ==> n.reason == m.reason) && n.stoppedAt == Some(at)
            else n == m
  {
  }

  predicate Dies(m: Monitor, n: Monitor) {
    n.tick.Waiting? && !n.watching && n.signalled && n.failed && n.continues == m.continues && n.low == m.low
  }

  /** In every run a signal was sent only for a tick that raised, or where there is a stop reason. */
  lemma {:induction false} SignalNeedsReason(required: int, events: seq<Event>)
    ensures var m := Run(Ready(required), events); m.signalled ==> m.failed || m.reason.Some?
  {
    SignalStays(Ready(required), events);
  }

  lemma {:induction false} SignalStays(m: Monitor, events: seq<Event>)
    requires Inv(m) && (m.signalled ==> m.failed || m.reason.Some?)
    ensures var n := Run(m, events); n.signalled ==> n.failed || n.reason.Some?
    decreases |events|
  {
    hide Inv, After;
    if events != [] {
      EventHolds(m, events[0]);
      SignalStep(m, events[0]);
      SignalStays(After(m, events[0]), events[1..]);
    }
  }

  lemma SignalStep(m: Monitor, e: Event)
    requires m.signalled ==> m.failed || m.reason.Some?
    ensures After(m, e).signalled ==> After(m, e).failed || After(m, e).reason.Some?
  {
  }

  /** Conversely a signal means a tick that raised, or a stop reason that stood for five seconds. */
  lemma {:induction false} SignalHasCause(m: Monitor, e: Event)
    requires Inv(m) && !m.signalled && After(m, e).signalled
    ensures var n := After(m, e);
            n.failed || (n.reason.Some? && n.stoppedAt.Some? && e.TickEnds? && e.at - n.stoppedAt.value >= GRACE)
  {
  }
}
