/** From which crash states of a global cut recovery can complete, exactly. */
module CutRecovery {
  import opened Wrappers
  import opened CutWindow
  import opened GlobalCut

  /** The machine stays up and the service does not die by itself; the controller may still fail. */
  predicate Undisturbed(e: Event) {
    !e.Reboot? && !e.ServiceDies?
  }

  ghost predicate CanComplete(s: System) {
    exists events: seq<Event> :: (forall i | 0 <= i < |events| :: Undisturbed(events[i])) && Run(s, events).step.Done?
  }

  predicate SameBoot(s: System)
    requires s.window.Some?
  {
    s.window.value.bootId == s.boot
  }

  /**
   * Read off the window, the receipt, the clock and the live service. On the boot of the cut, the
   * phases between the stop and the activation can return to v1 only within the deadline.
   */
  predicate Recoverable(s: System)
    requires s.window.Some?
  {
    var w := s.window.value;
    match w.phase
    case Prepared => true
    case Stopping | Quiescent | Applying | RecoveryVerified => !SameBoot(s) || s.now <= w.deadline
    case ReturningV1 => true
    case HealthyV1 => s.receipt.Some? || (SameBoot(s) && s.now <= w.deadline)
    case Activating => if SameBoot(s) then s.now < w.deadline else s.service != Some(V1)
    case HealthyV2 => if s.receipt.Some? then s.service == Some(V2) else SameBoot(s) && s.now < w.deadline
    case Aborted => s.bound.V1?
  }

  // ----- When the condition fails, no recovery ever completes -----

  ghost predicate Stuck(s: System)
    requires s.window.Some?
  {
    var w := s.window.value;
    var late := SameBoot(s) && s.now >= w.deadline;
    var before := s.step.Down? || s.step.Dispatching?;
    match w.phase
    case Prepared => false
    case Stopping | Quiescent | Applying | RecoveryVerified => before && late && s.now > w.deadline
    case ReturningV1 => false
    case HealthyV1 =>
      && s.receipt.None? && (!SameBoot(s) || s.now > w.deadline)
      && (before || s.step == ToV1(Returning) || s.step == ToV1(Started) || s.step == ToV1(Answering))
    case Activating => (late || (!SameBoot(s) && s.service == Some(V1))) && (before || s.step == ToV2(Checking))
    case HealthyV2 =>
      if s.receipt.Some? then s.service != Some(V2) && before
      else if SameBoot(s) then late && (before || s.step == ToV2(Checking))
      else before || (s.step.ToV2? && !s.step.forth.Terminal?)
    case Aborted => s.bound.V2? && before
  }

  lemma StuckStays(s: System, e: Event)
    requires Inv(s) && s.window.Some? && Stuck(s) && Undisturbed(e)
    ensures After(s, e).window.Some? && Stuck(After(s, e))
  {
    hide Follows, WriteReceipt;
    if e.Proceed? {
      if s.step.Dispatching? {
        StuckDispatch(s);
      } else if s.step.ToV1? {
        StuckReturn(s);
      } else if s.step.ToV2? {
        StuckForward(s);
      }
    } else {
      StuckOtherwise(s, e);
    }
  }

  lemma StuckOtherwise(s: System, e: Event)
    requires Inv(s) && s.window.Some? && Stuck(s) && Undisturbed(e) && !e.Proceed?
    ensures After(s, e).window.Some? && Stuck(After(s, e))
  {
    hide Follows, Dispatch, ProceedCut, ProceedToV1, ProceedToV2, Inv;
  }

  lemma StuckDispatch(s: System)
    requires Inv(s) && s.window.Some? && Stuck(s) && s.step.Dispatching?
    ensures Dispatch(s).window.Some? && Stuck(Dispatch(s))
  {
    hide StepFits, WellFormed;
  }

  lemma StuckReturn(s: System)
    requires Inv(s) && s.window.Some? && Stuck(s) && s.step.ToV1?
    ensures ProceedToV1(s).window.Some? && Stuck(ProceedToV1(s))
  {
    hide WellFormed;
  }

  lemma StuckForward(s: System)
    requires Inv(s) && s.window.Some? && Stuck(s) && s.step.ToV2?
    ensures ProceedToV2(s).window.Some? && Stuck(ProceedToV2(s))
  {
    hide WellFormed;
  }

  lemma {:induction false} StuckForever(s: System, events: seq<Event>)
    requires Inv(s) && s.window.Some? && Stuck(s)
    requires forall i | 0 <= i < |events| :: Undisturbed(events[i])
    ensures Run(s, events).window.Some? && Stuck(Run(s, events))
    decreases |events|
  {
    hide After, Inv, Stuck;
    if events != [] {
      StuckStays(s, events[0]);
      EventHolds(s, events[0]);
      StuckForever(After(s, events[0]), events[1..]);
    }
  }

  // ----- When it holds, recovery completes -----

  ghost predicate MayConclude(s: System)
    requires s.window.Some?
  {
    var w := s.window.value;
    var timely := SameBoot(s) && s.now <= w.deadline;
    match w.phase
    case Prepared | Stopping | Quiescent | Applying | RecoveryVerified => !SameBoot(s)
    case ReturningV1 | Activating => true
    case HealthyV1 | HealthyV2 => timely
    case Aborted => !timely
  }

  /** From here the controller completes by itself, whatever step it stands at. */
  ghost predicate Ready(s: System)
    requires s.window.Some?
  {
    var w := s.window.value;
    match s.step
    case Dispatching =>
      && Recoverable(s)
      && (w.phase.Prepared? && SameBoot(s) ==> s.service == Some(V1))
      && (w.phase.Aborted? ==> s.receipt.Some? || MayConclude(s))
    case ToV1(at) =>
      && (!at.Returning? ==> s.service == Some(V1))
      && (at.Returning? || at.Started? || at.Answering? ==> s.receipt.Some? || MayConclude(s))
    case ToV2(at) =>
      if at.Checking? then Recoverable(s)
      else if at.Retargeting? || at.Reloading? || at.Restarting? then MayConclude(s)
      else at.Terminal? || (s.service == Some(V2) && MayConclude(s))
    case Done(_) => true
    case Idle | Down | Untouched | Cutting(_) => false
  }

  ghost function Distance(step: Step): nat {
    match step
    case Done(_) => 0
    case Dispatching => 20
    case ToV1(at) => (match at
      case AbortRecorded => 1
      case Returning => 6
      case Started => 5
      case Answering => 4
      case Concluded => 3
      case ReceiptKept => 2)
    case ToV2(at) => (match at
      case Checking => 10
      case Retargeting => 9
      case Reloading => 8
      case Restarting => 7
      case Running => 6
      case Responding => 5
      case NewState => 4
      case NewBinding => 3
      case Terminal => 2)
    case Idle | Down | Untouched | Cutting(_) => 0
  }

  ghost predicate Closer(s: System, t: System) {
    t.window.Some? && Ready(t) && Distance(t.step) < Distance(s.step)
  }

  lemma DispatchIsCloser(s: System)
    requires Inv(s) && s.window.Some? && Ready(s) && s.step.Dispatching?
    ensures Closer(s, Dispatch(s))
  {
    hide StepFits;
  }

  lemma ReturnIsCloser(s: System)
    requires Inv(s) && s.window.Some? && Ready(s) && s.step.ToV1?
    ensures Closer(s, ProceedToV1(s))
  {
  }

  lemma CheckIsCloser(s: System)
    requires Inv(s) && s.window.Some? && Ready(s) && s.step == ToV2(Checking)
    ensures Closer(s, CheckV2(s))
  {
    hide WellFormed;
  }

  lemma BindingIsCloser(s: System)
    requires Inv(s) && s.window.Some? && Ready(s) && s.step == ToV2(NewBinding)
    ensures Closer(s, Conclude(s, V2, ToV2(Terminal)))
  {
  }

  lemma ForwardIsCloser(s: System)
    requires Inv(s) && s.window.Some? && Ready(s) && s.step.ToV2?
    ensures Closer(s, ProceedToV2(s))
  {
    hide CheckV2, Conclude, WellFormed, Follows, Recoverable;
    if s.step.forth.Checking? {
      CheckIsCloser(s);
    } else if s.step.forth.NewBinding? {
      BindingIsCloser(s);
    }
  }

  lemma {:induction false} ReadyCompletes(s: System) returns (events: seq<Event>)
    requires Inv(s) && s.window.Some? && Ready(s)
    ensures Run(s, events).step.Done? && forall i | 0 <= i < |events| :: Undisturbed(events[i])
    decreases Distance(s.step)
  {
    hide Inv, Dispatch, ProceedToV1, ProceedToV2;
    events := [];
    if !s.step.Done? {
      if s.step.Dispatching? {
        DispatchIsCloser(s);
      } else if s.step.ToV1? {
        ReturnIsCloser(s);
      } else {
        ForwardIsCloser(s);
      }
      EventHolds(s, Proceed);
      var rest := ReadyCompletes(After(s, Proceed));
      events := [Proceed] + rest;
      RunCons(s, Proceed, rest);
    }
  }

  /** Recovery starts afresh; where only the deadline stands in the way of a conclusion, it is waited for. */
  lemma RecoverableCompletes(s: System) returns (events: seq<Event>)
    requires Inv(s) && s.window.Some? && s.step.Down? && Recoverable(s)
    ensures Run(s, events).step.Done? && forall i | 0 <= i < |events| :: Undisturbed(events[i])
  {
    hide Inv, Dispatch;
    var w := s.window.value;
    if w.phase.Prepared? && SameBoot(s) && s.service != Some(V1) {
      events := AbortedThenCompletes(s);
    } else if w.phase.Aborted? && s.receipt.None? {
      events := WaitThenComplete(s);
    } else {
      EventHolds(s, StartRecovery);
      var rest := ReadyCompletes(After(s, StartRecovery));
      events := [StartRecovery] + rest;
      RunCons(s, StartRecovery, rest);
    }
  }

  function Wait(s: System): Event
    requires s.window.Some?
  {
    Tick(if s.now > s.window.value.deadline then 0 else s.window.value.deadline + 1 - s.now)
  }

  lemma WaitThenComplete(s: System) returns (events: seq<Event>)
    requires Inv(s) && s.window.Some? && s.step.Down?
    requires s.window.value.phase.Aborted? && s.bound.V1? && s.receipt.None?
    ensures Run(s, events).step.Done? && forall i | 0 <= i < |events| :: Undisturbed(events[i])
  {
    hide Inv, Dispatch;
    var late := After(s, Wait(s));
    EventHolds(s, Wait(s));
    EventHolds(late, StartRecovery);
    var rest := ReadyCompletes(After(late, StartRecovery));
    events := [Wait(s)] + ([StartRecovery] + rest);
    RunCons(late, StartRecovery, rest);
    RunCons(s, Wait(s), [StartRecovery] + rest);
  }

  /** v1 was never stopped by the cut but died: the abort is recorded, and the next recovery restarts v1. */
  lemma AbortedThenCompletes(s: System) returns (events: seq<Event>)
    requires Inv(s) && s.window.Some? && s.step.Down?
    requires s.window.value.phase.Prepared? && SameBoot(s) && s.service != Some(V1)
    ensures Run(s, events).step.Done? && forall i | 0 <= i < |events| :: Undisturbed(events[i])
  {
    var t := After(s, StartRecovery);
    var u := After(t, Proceed);
    var v := After(u, Proceed);
    assert v.step.Down? && v.window.Some? && v.window.value.phase.Aborted? && v.receipt.None? && v.bound.V1?;
    EventHolds(s, StartRecovery);
    EventHolds(t, Proceed);
    EventHolds(u, Proceed);
    hide Inv, Dispatch, After;
    var rest := WaitThenComplete(v);
    events := [StartRecovery] + ([Proceed] + ([Proceed] + rest));
    RunCons(u, Proceed, rest);
    RunCons(t, Proceed, [Proceed] + rest);
    RunCons(s, StartRecovery, [Proceed] + ([Proceed] + rest));
  }

  lemma NotRecoverableIsStuck(s: System)
    requires Inv(s) && s.window.Some? && s.step.Down? && !Recoverable(s)
    ensures Stuck(s)
  {
  }

  /**
   * After a crash, and until the machine reboots or the service dies, some recovery completes if and
   * only if `Recoverable` holds. On the boot of the cut a crash between the stop and the activation
   * cannot return to v1 once the deadline has passed: recording RETURNING_V1 is refused first.
   */
  lemma RecoveryExactly(s: System)
    requires Reachable(s) && s.step.Down? && s.window.Some?
    ensures CanComplete(s) <==> Recoverable(s)
  {
    hide Run, Recoverable, Stuck;
    ReachableHolds(s);
    if Recoverable(s) {
      var events := RecoverableCompletes(s);
      assert Run(s, events).step.Done?;
    } else {
      NotRecoverableIsStuck(s);
      forall events: seq<Event> | forall i | 0 <= i < |events| :: Undisturbed(events[i])
        ensures !Run(s, events).step.Done?
      {
        StuckForever(s, events);
        StuckIsNotDone(Run(s, events));
      }
    }
  }

  lemma StuckIsNotDone(s: System)
    requires s.window.Some? && Stuck(s)
    ensures !s.step.Done?
  {
  }

  /**
   * The late crash is real: such a state is reached, with v1 stopped and no recovery able to complete on
   * this boot. A reboot, whenever it comes, lets recovery complete again.
   */
  lemma LateCrashStrandsV1(start: System, limit: int, reserve: int) returns (events: seq<Event>)
    requires Initial(start) && 0 < reserve < limit
    ensures var s := Run(start, events);
            Reachable(s) && s.step.Down? && s.window.Some? && s.window.value.phase.Stopping?
            && s.service.None? && !CanComplete(s)
            && forall now: nat, autostart: bool :: CanComplete(After(s, Reboot(now, autostart)))
  {
    var a := After(start, StartCut(limit, reserve));
    var b := After(a, Proceed);
    var c := After(b, Proceed);
    var d := After(c, Crash);
    var s := After(d, Tick(limit + 1));
    assert b.window.value.phase.Stopping? && c.service.None?;
    events := [StartCut(limit, reserve)] + ([Proceed] + ([Proceed] + ([Crash] + ([Tick(limit + 1)] + []))));
    assert s.step.Down? && s.service.None? && s.window.Some? && s.window.value.phase.Stopping? && !Recoverable(s);
    RunCons(d, Tick(limit + 1), []);
    RunCons(c, Crash, [Tick(limit + 1)] + []);
    RunCons(b, Proceed, [Crash] + ([Tick(limit + 1)] + []));
    RunCons(a, Proceed, [Proceed] + ([Crash] + ([Tick(limit + 1)] + [])));
    RunCons(start, StartCut(limit, reserve), [Proceed] + ([Proceed] + ([Crash] + ([Tick(limit + 1)] + []))));
    assert Run(start, events) == s;
    RecoveryExactly(s);
    forall now: nat, autostart: bool ensures CanComplete(After(s, Reboot(now, autostart))) {
      RebootFrees(start, events, now, autostart);
    }
  }

  /** On another boot a cut stopped before its activation can be recovered. */
  lemma RebootFrees(start: System, events: seq<Event>, now: nat, autostart: bool)
    requires Initial(start)
    requires Run(start, events).window.Some? && Run(start, events).window.value.phase.Stopping?
    ensures CanComplete(After(Run(start, events), Reboot(now, autostart)))
  {
    hide Run;
    var s := Run(start, events);
    var t := After(s, Reboot(now, autostart));
    InitialHolds(start);
    RunHolds(start, events);
    RunSnoc(start, events, Reboot(now, autostart));
    assert Run(start, events + [Reboot(now, autostart)]) == t;
    RecoveryExactly(t);
  }

  // ----- An undisturbed cut -----

  ghost predicate OnCourse(s: System)
    requires s.window.Some?
  {
    var w := s.window.value;
    && SameBoot(s) && s.now + w.reserve < w.deadline
    && match s.step
       case Cutting(at) =>
         && !at.ActivationFailed?
         && (at.Restarted? || at.Healthy? || at.StateSaved? || at.BindingSaved? ==> s.service == Some(V2))
       case ToV2(at) => at.Terminal? && w.phase.HealthyV2? && s.service == Some(V2)
       case Done(root) => root.V2? && w.phase.HealthyV2? && s.receipt == Some(HealthyV2) && s.service == Some(V2)
       case _ => false
  }

  ghost function StepsLeft(step: Step): nat {
    match step
    case Cutting(at) => (match at
      case WindowPrepared => 15
      case StopRecorded => 14
      case ServiceStopped => 13
      case SourceQuiet => 12
      case CatchingUp => 11
      case RecoveryReady => 10
      case IntentWritten => 9
      case ActivationRecorded => 8
      case Retargeted => 7
      case Reloaded => 6
      case Restarted => 5
      case Healthy => 4
      case StateSaved => 3
      case BindingSaved => 2
      case ActivationFailed => 0)
    case ToV2(_) => 1
    case _ => 0
  }

  ghost predicate Nearer(s: System, t: System) {
    t.window.Some? && OnCourse(t) && StepsLeft(t.step) < StepsLeft(s.step)
  }

  lemma RecordingIsNearer(s: System)
    requires Inv(s) && s.window.Some? && OnCourse(s) && s.step.Cutting?
    requires s.step.cut in {WindowPrepared, ServiceStopped, SourceQuiet, CatchingUp, IntentWritten}
    ensures Nearer(s, ProceedCut(s))
  {
    hide Conclude;
  }

  lemma ActingIsNearer(s: System)
    requires Inv(s) && s.window.Some? && OnCourse(s) && s.step.Cutting?
    requires s.step.cut in {StopRecorded, RecoveryReady, ActivationRecorded, Retargeted, Reloaded, Restarted, Healthy,
                            StateSaved}
    ensures Nearer(s, ProceedCut(s))
  {
    hide Conclude, Record, WellFormed;
  }

  lemma ProceedIsNearer(s: System)
    requires Inv(s) && s.window.Some? && OnCourse(s) && !s.step.Done?
    ensures Nearer(s, After(s, Proceed))
  {
    hide Dispatch, ProceedToV1, Record, Conclude, CheckV2, Inv, OnCourse;
    OnCourseSteps(s);
    if s.step.ToV2? {
      TerminalIsNearer(s);
    } else if s.step.cut in {WindowPrepared, ServiceStopped, SourceQuiet, CatchingUp, IntentWritten} {
      RecordingIsNearer(s);
    } else if s.step.cut.BindingSaved? {
      ConclusionIsNearer(s);
    } else {
      ActingIsNearer(s);
    }
  }

  lemma OnCourseSteps(s: System)
    requires s.window.Some? && OnCourse(s)
    ensures s.step.Done? || s.step == ToV2(Terminal) || (s.step.Cutting? && !s.step.cut.ActivationFailed?)
  {
  }

  lemma TerminalIsNearer(s: System)
    requires Inv(s) && s.window.Some? && OnCourse(s) && s.step == ToV2(Terminal)
    ensures Nearer(s, WriteReceipt(s, Done(V2)))
  {
  }

  lemma ConclusionIsNearer(s: System)
    requires Inv(s) && s.window.Some? && OnCourse(s) && s.step == Cutting(BindingSaved)
    ensures Nearer(s, Conclude(s, V2, ToV2(Terminal)))
  {
  }

  /** The controller goes on, catch-up reserves, or time passes without touching the reserve. */
  predicate InsideReserve(s: System, e: Event)
    requires s.window.Some?
  {
    e.Proceed? || e.Reserve? || (e.Tick? && s.now + e.elapsed + s.window.value.reserve < s.window.value.deadline)
  }

  ghost predicate KeepsReserve(s: System, events: seq<Event>)
    decreases |events|
  {
    events == []
    || (s.window.Some? && InsideReserve(s, events[0]) && KeepsReserve(After(s, events[0]), events[1..]))
  }

  function Proceeds(events: seq<Event>): nat {
    if events == [] then 0 else (if events[0].Proceed? then 1 else 0) + Proceeds(events[1..])
  }

  lemma StaysOnCourse(s: System, e: Event)
    requires Inv(s) && s.window.Some? && OnCourse(s) && InsideReserve(s, e)
    ensures After(s, e).window.Some? && OnCourse(After(s, e))
    ensures StepsLeft(After(s, e).step) <= StepsLeft(s.step)
    ensures e.Proceed? && StepsLeft(s.step) > 0 ==> StepsLeft(After(s, e).step) < StepsLeft(s.step)
  {
    hide Inv, Dispatch, ProceedCut, ProceedToV1, ProceedToV2;
    if e.Proceed? && !s.step.Done? {
      hide After, OnCourse;
      ProceedIsNearer(s);
    }
  }

  lemma CourseEnds(s: System)
    requires s.window.Some? && OnCourse(s) && StepsLeft(s.step) == 0
    ensures s.step == Done(V2) && s.receipt == Some(HealthyV2) && s.service == Some(V2)
  {
  }

  lemma {:induction false} KeepsCourse(s: System, events: seq<Event>)
    requires Inv(s) && s.window.Some? && OnCourse(s) && KeepsReserve(s, events)
    ensures Run(s, events).window.Some? && OnCourse(Run(s, events))
    ensures StepsLeft(Run(s, events).step) <= if Proceeds(events) < StepsLeft(s.step) then StepsLeft(s.step) - Proceeds(events) else 0
    decreases |events|
  {
    hide Inv, After, OnCourse, StepsLeft, InsideReserve;
    if events != [] {
      StaysOnCourse(s, events[0]);
      EventHolds(s, events[0]);
      KeepsCourse(After(s, events[0]), events[1..]);
    }
  }

  /**
   * A cut that keeps inside its reserve completes: in whatever portions time passes between and during
   * its fifteen steps, it ends with v2 served and a HEALTHY_V2 receipt.
   */
  lemma CutCompletes(start: System, limit: int, reserve: int, events: seq<Event>)
    requires Initial(start) && 0 < reserve < limit
    requires KeepsReserve(After(start, StartCut(limit, reserve)), events) && Proceeds(events) >= 15
    ensures var t := Run(start, [StartCut(limit, reserve)] + events);
            t.step == Done(V2) && t.receipt == Some(HealthyV2) && t.service == Some(V2)
  {
    var s := After(start, StartCut(limit, reserve));
    assert s.window.Some? && OnCourse(s) && StepsLeft(s.step) == 15;
    InitialHolds(start);
    EventHolds(start, StartCut(limit, reserve));
    hide Inv, After, OnCourse, StepsLeft, KeepsReserve, Proceeds;
    RunCons(start, StartCut(limit, reserve), events);
    KeepsCourse(s, events);
    CourseEnds(Run(s, events));
  }
}
