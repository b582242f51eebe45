/**
 * The switch of the service from its v1 root to its v2 root, one durable effect at a time.
 * The controller may die between any two steps; recovery may itself be cut short and run again.
 */
module GlobalCut {
  import opened Wrappers
  import opened CutWindow

  datatype Root = V1 | V2

  /** The steps of the cut itself. */
  datatype CutStep =
    | WindowPrepared | StopRecorded | ServiceStopped | SourceQuiet | CatchingUp | RecoveryReady | IntentWritten
    | ActivationRecorded | Retargeted | Reloaded | Restarted | Healthy | StateSaved | BindingSaved | ActivationFailed

  /** The steps of a recovery that returns to v1. */
  datatype ReturnStep = AbortRecorded | Returning | Started | Answering | Concluded | ReceiptKept

  /** The steps of a recovery that completes the activation of v2. */
  datatype ForwardStep =
    | Checking | Retargeting | Reloading | Restarting | Running | Responding | NewState | NewBinding | Terminal

  /** Where the controller process stands. `Down` is no process at all. */
  datatype Step =
    | Idle | Down | Untouched | Done(root: Root)
    | Cutting(cut: CutStep) | Dispatching | ToV1(back: ReturnStep) | ToV2(forth: ForwardStep)

  /** The durable files, the service manager, the machine, and the controller. */
  datatype System = System(
    window: Option<Window>, receipt: Option<Phase>,
    deployed: Root, bound: Root, unitFile: Root, unitLoaded: Root, service: Option<Root>,
    reservation: bool, invalidated: bool,
    boot: nat, now: int,
    step: Step,
    activationRecorded: bool, died: bool)

  datatype Event =
    | Proceed                                             // the controller takes its next step
    | Fail                                                // the controller raises where it stands
    | StartCut(limit: int, reserve: int)
    | StartRecovery
    | Reserve                                             // catch-up reserves a successor generation
    | HealthCheckFails
    | Tick(elapsed: nat)
    | ServiceDies
    | Crash
    | Reboot(now: nat, autostart: bool)

  function Start(s: System, root: Root): System {
    s.(service := Some(root), died := false)
  }

  /** `_cut_advance`: one durable phase, or the controller raises. */
  function Record(s: System, phase: Phase, references: References, step: Step): System
    requires s.window.Some?
  {
    var next := Advanced(s.window.value, phase, s.boot, s.now, references);
    if next.GuardFailure? then s.(step := Down)
    else s.(window := Some(next.value), step := step, activationRecorded := s.activationRecorded || phase == Activating)
  }

  /** `_cut_terminal` up to the receipt: the live service must be the expected one. */
  function Conclude(s: System, root: Root, step: Step): System
    requires s.window.Some?
  {
    var w := s.window.value;
    if s.service != Some(root) || (root.V2? && s.bound.V1?) then s.(step := Down)
    else
      var late := w.bootId != s.boot || s.now > w.deadline;
      var phase := if late then Aborted else if root.V2? then HealthyV2 else HealthyV1;
      if w.phase == phase then s.(step := step)
      else Record(s, phase, References(false, false, root.V2?), step)
  }

  /** A receipt is written once; its clock readings make every attempt different. */
  function WriteReceipt(s: System, step: Step): System
    requires s.window.Some?
  {
    if s.receipt.Some? then s.(step := Down) else s.(receipt := Some(s.window.value.phase), step := step)
  }

  /** Which way the stop hook recovers. */
  function Dispatch(s: System): System {
    if s.window.None? then s.(step := Untouched)
    else
      var w := s.window.value;
      if w.phase.HealthyV2? && s.receipt.Some? then
        s.(step := if s.service == Some(V2) && s.bound.V2? then Done(V2) else Down)
      else if w.phase.Activating? || w.phase.HealthyV2? then s.(step := ToV2(Checking))
      else if s.bound.V2? || s.unitLoaded.V2? then s.(step := Down)
      else if w.bootId == s.boot && !w.phase.ReturningV1? && !w.phase.HealthyV1? && !w.phase.Aborted? then
        if w.phase.Prepared? then Record(s, Aborted, NO_REFERENCES, ToV1(AbortRecorded))
        else Record(s, ReturningV1, NO_REFERENCES, ToV1(Returning))
      else s.(step := ToV1(Returning))
  }

  /** `recover_interrupted_v2_activation` up to its first effect. */
  function CheckV2(s: System): System
    requires s.window.Some?
  {
    var w := s.window.value;
    var timeLeft := w.bootId != s.boot || s.now < w.deadline;
    var ancestry := s.deployed.V2? || s.bound.V1?;
    if !timeLeft || !ancestry || !w.references.intent || !w.references.recovery then s.(step := Down)
    else if s.service.Some? then s.(step := if s.unitLoaded.V2? then ToV2(Running) else Down)
    else s.(step := ToV2(if s.unitLoaded.V2? then Restarting else Retargeting))
  }

  /** The next step of the cut. */
  function ProceedCut(s: System): System
    requires s.window.Some? && s.step.Cutting?
  {
    match s.step.cut
    case WindowPrepared => Record(s, Stopping, NO_REFERENCES, Cutting(StopRecorded))
    case StopRecorded => s.(service := None, step := Cutting(ServiceStopped))
    case ServiceStopped => Record(s, Quiescent, NO_REFERENCES, Cutting(SourceQuiet))
    case SourceQuiet => Record(s, Applying, NO_REFERENCES, Cutting(CatchingUp))
    case CatchingUp => Record(s, RecoveryVerified, References(false, true, false), Cutting(RecoveryReady))
    case RecoveryReady => s.(step := Cutting(IntentWritten))
    case IntentWritten => Record(s, Activating, References(true, false, false), Cutting(ActivationRecorded))
    case ActivationRecorded => s.(unitFile := V2, step := Cutting(Retargeted))
    case Retargeted => s.(unitLoaded := s.unitFile, step := Cutting(Reloaded))
    case Reloaded => Start(s, s.unitLoaded).(step := Cutting(Restarted))
    case Restarted => s.(step := Cutting(if s.service.Some? then Healthy else ActivationFailed))
    case Healthy => s.(deployed := V2, step := Cutting(StateSaved))
    case StateSaved => s.(bound := V2, step := Cutting(BindingSaved))
    case BindingSaved => Conclude(s, V2, ToV2(Terminal))
    case ActivationFailed => s.(service := None, step := Down)
  }

  /** The next step of a recovery toward v1. */
  function ProceedToV1(s: System): System
    requires s.window.Some? && s.step.ToV1?
  {
    match s.step.back
    case AbortRecorded => s.(step := if s.service == Some(V1) then Done(V1) else Down)
    case Returning => (if s.service.None? then Start(s, s.unitLoaded) else s).(step := ToV1(Started))
    case Started => s.(step := if s.service.Some? then ToV1(Answering) else Down)
    case Answering => if s.receipt.Some? then s.(step := ToV1(ReceiptKept)) else Conclude(s, V1, ToV1(Concluded))
    case Concluded => WriteReceipt(s, ToV1(ReceiptKept))
    case ReceiptKept =>
      if s.invalidated || !s.reservation then s.(step := Done(V1))
      else if s.service != Some(V1) then s.(step := Down)
      else s.(invalidated := true, step := Done(V1))
  }

  /** The next step of a recovery toward v2. */
  function ProceedToV2(s: System): System
    requires s.window.Some? && s.step.ToV2?
  {
    match s.step.forth
    case Checking => CheckV2(s)
    case Retargeting => s.(unitFile := V2, step := ToV2(Reloading))
    case Reloading => s.(unitLoaded := s.unitFile, step := ToV2(Restarting))
    case Restarting => Start(s, s.unitLoaded).(step := ToV2(Running))
    case Running => s.(step := if s.service.Some? then ToV2(Responding) else Down)
    case Responding => if s.deployed.V2? && s.bound.V2? then s.(step := ToV2(NewBinding))
                       else s.(deployed := V2, step := ToV2(NewState))
    case NewState => s.(bound := V2, step := ToV2(NewBinding))
    case NewBinding => Conclude(s, V2, ToV2(Terminal))
    case Terminal => WriteReceipt(s, Done(V2))
  }

  predicate Resting(step: Step) {
    step.Idle? || step.Down? || step.Untouched? || step.Done?
  }

  /** An event that cannot happen changes nothing. */
  function After(s: System, e: Event): System {
    match e
    case Proceed =>
      if s.step.Dispatching? then Dispatch(s)
      else if s.window.None? then s
      else if s.step.Cutting? then ProceedCut(s)
      else if s.step.ToV1? then ProceedToV1(s)
      else if s.step.ToV2? then ProceedToV2(s)
      else s
    case Fail => if Resting(s.step) then s else s.(step := Down)
    case StartCut(limit, reserve) =>
      if !Resting(s.step) || s.window.Some? || s.service != Some(V1) || s.now < 0 then s
      else
        var w := Window(Prepared, s.boot, s.now, s.now + limit, reserve, NO_REFERENCES);
        if WellFormed(w) then s.(window := Some(w), step := Cutting(WindowPrepared)) else s.(step := Down)
    case StartRecovery => if Resting(s.step) then s.(step := Dispatching) else s
    case Reserve => if s.step == Cutting(CatchingUp) then s.(reservation := true) else s
    case HealthCheckFails =>
      if s.step == Cutting(Reloaded) || s.step == Cutting(Restarted) then s.(step := Cutting(ActivationFailed))
      else if s.step == ToV1(Started) || s.step == ToV2(Running) then s.(step := Down)
      else s
    case Tick(elapsed) => s.(now := s.now + elapsed)
    case ServiceDies => s.(service := None, died := true)
    case Crash => s.(step := Down)
    case Reboot(now, autostart) =>
      s.(boot := s.boot + 1, now := now, unitLoaded := s.unitFile, died := !autostart,
         service := if autostart then Some(s.unitFile) else None, step := Down)
  }

  function Run(s: System, events: seq<Event>): System
    decreases |events|
  {
    if events == [] then s else Run(After(s, events[0]), events[1..])
  }

  /** v1 in service, no window yet. */
  predicate Initial(s: System) {
    && s.window.None? && s.receipt.None? && s.step.Idle? && s.service == Some(V1)
    && s.deployed.V1? && s.bound.V1? && s.unitFile.V1? && s.unitLoaded.V1?
    && !s.reservation && !s.invalidated && !s.activationRecorded && !s.died && s.now >= 0
  }

  // ----- The invariant -----

  /** Nothing of v2 is live, bound or targeted unless an activation was recorded first. */
  ghost predicate V2NeedsRecord(s: System) {
    && (s.unitLoaded.V2? ==> s.unitFile.V2?)
    && (s.unitFile.V2? ==> s.activationRecorded)
    && (s.deployed.V2? ==> s.unitLoaded.V2?)
    && (s.bound.V2? ==> s.deployed.V2?)
    && (s.service.Some? ==> s.service.value == s.unitLoaded)
    && (s.activationRecorded ==> s.window.Some?)
    && (s.invalidated ==> !s.activationRecorded && s.receipt.Some?)
  }

  /** The durable window tells on which side of the activation record the system is. */
  ghost predicate WindowTells(s: System)
    requires s.window.Some?
  {
    var w := s.window.value;
    && WellFormed(w) && w.bootId <= s.boot && (w.bootId == s.boot ==> w.started <= s.now)
    && (w.phase.Activating? ==> s.activationRecorded)
    && (w.phase.HealthyV2? ==> s.activationRecorded && s.bound.V2?)
    && (s.activationRecorded ==>
          (w.phase.Activating? || w.phase.HealthyV2? || w.phase.Aborted?) && w.references.intent && w.references.recovery
          && (w.phase.Aborted? ==> s.bound.V2?)
          && (w.bootId == s.boot ==> s.service != Some(V1)))
    && (s.receipt.Some? ==> s.receipt.value == w.phase && Finished(w.phase))
    && (w.phase.HealthyV1? ==> !s.activationRecorded)
  }

  /** The service runs from `root`, or has died since it was seen running from it. */
  ghost predicate Serves(s: System, root: Root) {
    s.service == Some(root) || (s.service.None? && s.died)
  }

  ghost predicate CutFits(s: System, w: Window, at: CutStep) {
    && w.bootId == s.boot && !s.invalidated && s.receipt.None?
    && match at
       case WindowPrepared => w.phase.Prepared?
       case StopRecorded => w.phase.Stopping?
       case ServiceStopped => w.phase.Stopping? && s.service.None?
       case SourceQuiet => w.phase.Quiescent? && s.service.None?
       case CatchingUp => w.phase.Applying? && s.service.None?
       case RecoveryReady => w.phase.RecoveryVerified? && w.references.recovery && s.service.None?
       case IntentWritten => w.phase.RecoveryVerified? && w.references.recovery && s.service.None?
       case ActivationRecorded => w.phase.Activating? && s.service.None? && s.unitLoaded.V1?
       case Retargeted => w.phase.Activating? && s.service.None? && s.unitFile.V2? && s.unitLoaded.V1?
       case Reloaded => w.phase.Activating? && s.unitLoaded.V2?
       case Restarted => w.phase.Activating? && s.unitLoaded.V2? && Serves(s, V2)
       case Healthy => w.phase.Activating? && s.unitLoaded.V2? && Serves(s, V2)
       case StateSaved => w.phase.Activating? && s.deployed.V2? && Serves(s, V2)
       case BindingSaved => w.phase.Activating? && s.bound.V2? && Serves(s, V2)
       case ActivationFailed => w.phase.Activating?
  }

  ghost predicate ReturnFits(s: System, w: Window, at: ReturnStep) {
    && !s.activationRecorded
    && match at
       case AbortRecorded => w.phase.Aborted?
       case Returning => true
       case Started => Serves(s, V1)
       case Answering => Serves(s, V1)
       case Concluded => (w.phase.HealthyV1? || w.phase.Aborted?) && s.receipt.None? && Serves(s, V1)
       case ReceiptKept => s.receipt.Some? && Serves(s, V1)
  }

  ghost predicate ForwardFits(s: System, w: Window, at: ForwardStep) {
    && s.activationRecorded && s.receipt.None?
    && (!at.Terminal? ==> w.phase.Activating? || w.phase.HealthyV2?)
    && match at
       case Checking => true
       case Retargeting => s.service.None? && s.unitLoaded.V1?
       case Reloading => s.service.None? && s.unitFile.V2?
       case Restarting => s.unitLoaded.V2?
       case Running => s.unitLoaded.V2? && Serves(s, V2)
       case Responding => s.unitLoaded.V2? && Serves(s, V2)
       case NewState => s.deployed.V2? && Serves(s, V2)
       case NewBinding => s.bound.V2? && Serves(s, V2)
       case Terminal => (w.phase.HealthyV2? || w.phase.Aborted?) && s.bound.V2? && Serves(s, V2)
  }

  /** What holds while the controller stands at each step. */
  ghost predicate StepFits(s: System)
    requires s.window.Some?
  {
    match s.step
    case Cutting(at) => CutFits(s, s.window.value, at)
    case ToV1(at) => ReturnFits(s, s.window.value, at)
    case ToV2(at) => ForwardFits(s, s.window.value, at)
    case Done(root) => (root.V2? <==> s.activationRecorded) && (root.V2? ==> s.bound.V2?) && Serves(s, root)
    case Idle | Down | Untouched | Dispatching => true
  }

  ghost predicate Inv(s: System) {
    && V2NeedsRecord(s)
    && (s.window.None? ==>
          s.receipt.None? && !s.reservation && !s.step.Cutting? && !s.step.ToV1? && !s.step.ToV2? && !s.step.Done?)
    && (s.window.Some? ==> WindowTells(s) && StepFits(s))
  }

  lemma InitialHolds(s: System)
    requires Initial(s)
    ensures Inv(s)
  {
  }

  /** The controller raises, or exactly the phase, its references and the activation flag change. */
  lemma RecordEffect(s: System, phase: Phase, references: References, step: Step)
    requires s.window.Some?
    ensures var t, w := Record(s, phase, references, step), s.window.value;
            var n := w.(phase := phase, references := Merge(w.references, references));
            t == s.(step := Down)
            || (WellFormed(n) && !Finished(w.phase)
                && (Follows(w.phase, phase) || (phase.Aborted? && s.boot != w.bootId))
                && t == s.(window := Some(n), step := step, activationRecorded := s.activationRecorded || phase == Activating))
  {
  }

  /** What a conclusion leaves of the window. */
  ghost predicate Concludes(w: Window, n: Window, root: Root) {
    && n.bootId == w.bootId && n.started == w.started && WellFormed(n)
    && (w.references.intent ==> n.references.intent) && (w.references.recovery ==> n.references.recovery)
    && (n.phase.Aborted? || n.phase == if root.V2? then HealthyV2 else HealthyV1)
    && (n == w || !Finished(w.phase))
  }

  lemma ConcludeEffect(s: System, root: Root, step: Step)
    requires s.window.Some? && WellFormed(s.window.value)
    ensures var t, w := Conclude(s, root, step), s.window.value;
            t == s.(step := Down)
            || (s.service == Some(root) && (root.V2? ==> s.bound.V2?) && t.window.Some?
                && t == s.(window := t.window, step := step)
                && Concludes(w, t.window.value, root))
  {
    hide Record, Advanced;
    var w := s.window.value;
    var late := w.bootId != s.boot || s.now > w.deadline;
    var phase := if late then Aborted else if root.V2? then HealthyV2 else HealthyV1;
    RecordEffect(s, phase, References(false, false, root.V2?), step);
  }

  lemma RecordingHolds(s: System)
    requires Inv(s) && s.window.Some? && s.step.Cutting?
    requires s.step.cut in {WindowPrepared, ServiceStopped, SourceQuiet, CatchingUp, IntentWritten}
    ensures Inv(ProceedCut(s))
  {
    hide Record, Advanced, WellFormed;
    match s.step.cut {
      case WindowPrepared => RecordEffect(s, Stopping, NO_REFERENCES, Cutting(StopRecorded));
      case ServiceStopped => RecordEffect(s, Quiescent, NO_REFERENCES, Cutting(SourceQuiet));
      case SourceQuiet => RecordEffect(s, Applying, NO_REFERENCES, Cutting(CatchingUp));
      case CatchingUp => RecordEffect(s, RecoveryVerified, References(false, true, false), Cutting(RecoveryReady));
      case IntentWritten => RecordEffect(s, Activating, References(true, false, false), Cutting(ActivationRecorded));
    }
  }

  lemma ActivatingHolds(s: System)
    requires Inv(s) && s.window.Some? && s.step.Cutting?
    requires s.step.cut in {StopRecorded, RecoveryReady, ActivationRecorded, Retargeted, Reloaded, Restarted, Healthy,
                            StateSaved, ActivationFailed}
    ensures Inv(ProceedCut(s))
  {
    hide WellFormed, Follows, Finished;
  }

  lemma ConcludingHolds(s: System, root: Root, step: Step)
    requires Inv(s) && s.window.Some? && s.receipt.None?
    requires if root.V1? then !s.activationRecorded && step == ToV1(Concluded)
             else s.activationRecorded && step == ToV2(Terminal)
    ensures Inv(Conclude(s, root, step))
  {
    hide Conclude, Record, Advanced;
    ConcludeEffect(s, root, step);
  }

  lemma CutStepHolds(s: System)
    requires Inv(s) && s.window.Some? && s.step.Cutting?
    ensures Inv(ProceedCut(s))
  {
    hide Inv, Record, Conclude, WellFormed;
    if s.step.cut in {WindowPrepared, ServiceStopped, SourceQuiet, CatchingUp, IntentWritten} {
      RecordingHolds(s);
    } else if s.step.cut.BindingSaved? {
      BoundIsRecorded(s);
      ConcludingHolds(s, V2, ToV2(Terminal));
    } else {
      ActivatingHolds(s);
    }
  }

  lemma BoundIsRecorded(s: System)
    requires Inv(s) && s.window.Some? && s.step == Cutting(BindingSaved)
    ensures s.activationRecorded && s.receipt.None?
  {
  }

  lemma ToV1StepHolds(s: System)
    requires Inv(s) && s.window.Some? && s.step.ToV1?
    ensures Inv(ProceedToV1(s))
  {
    hide Conclude, WellFormed, Follows;
    if s.step.back.Answering? && s.receipt.None? {
      ConcludingHolds(s, V1, ToV1(Concluded));
    }
  }

  lemma CheckingHolds(s: System)
    requires Inv(s) && s.window.Some? && s.step == ToV2(Checking)
    ensures Inv(CheckV2(s))
  {
    hide WellFormed;
  }

  lemma RestartingHolds(s: System)
    requires Inv(s) && s.window.Some? && s.step.ToV2?
    requires s.step.forth.Retargeting? || s.step.forth.Reloading? || s.step.forth.Restarting?
    ensures Inv(ProceedToV2(s))
  {
    hide Conclude, WellFormed, Follows, CheckV2, WriteReceipt;
  }

  lemma RunningHolds(s: System)
    requires Inv(s) && s.window.Some? && s.step.ToV2?
    requires s.step.forth.Running? || s.step.forth.Responding? || s.step.forth.NewState? || s.step.forth.Terminal?
    ensures Inv(ProceedToV2(s))
  {
    hide Conclude, WellFormed, Follows, CheckV2;
  }

  lemma BindingIsRecorded(s: System)
    requires Inv(s) && s.window.Some? && s.step == ToV2(NewBinding)
    ensures s.activationRecorded && s.receipt.None?
  {
  }

  lemma ToV2StepHolds(s: System)
    requires Inv(s) && s.window.Some? && s.step.ToV2?
    ensures Inv(ProceedToV2(s))
  {
    hide Inv, Conclude, WellFormed, Follows, CheckV2, WriteReceipt;
    if s.step.forth.Checking? {
      CheckingHolds(s);
    } else if s.step.forth.Retargeting? || s.step.forth.Reloading? || s.step.forth.Restarting? {
      RestartingHolds(s);
    } else if !s.step.forth.NewBinding? {
      RunningHolds(s);
    } else {
      BindingIsRecorded(s);
      ConcludingHolds(s, V2, ToV2(Terminal));
    }
  }

  lemma DispatchHolds(s: System)
    requires Inv(s) && s.step.Dispatching?
    ensures Inv(Dispatch(s))
  {
    hide Record, WellFormed;
    if s.window.Some? {
      RecordEffect(s, Aborted, NO_REFERENCES, ToV1(AbortRecorded));
      RecordEffect(s, ReturningV1, NO_REFERENCES, ToV1(Returning));
    }
  }

  lemma EnvironmentHolds(s: System, e: Event)
    requires Inv(s) && !e.Proceed?
    ensures Inv(After(s, e))
  {
    hide ProceedCut, ProceedToV1, ProceedToV2, Dispatch, Follows, Finished;
  }

  lemma EventHolds(s: System, e: Event)
    requires Inv(s)
    ensures Inv(After(s, e))
  {
    if !e.Proceed? {
      EnvironmentHolds(s, e);
    } else if s.step.Dispatching? {
      DispatchHolds(s);
    } else if s.window.Some? {
      if s.step.Cutting? {
        CutStepHolds(s);
      } else if s.step.ToV1? {
        ToV1StepHolds(s);
      } else if s.step.ToV2? {
        ToV2StepHolds(s);
      }
    }
  }

  /** Every interleaving of steps, failures, crashes, reboots and repeated recoveries keeps the invariant. */
  lemma {:induction false} RunHolds(s: System, events: seq<Event>)
    requires Inv(s)
    ensures Inv(Run(s, events))
    decreases |events|
  {
    if events != [] {
      EventHolds(s, events[0]);
      RunHolds(After(s, events[0]), events[1..]);
    }
  }

  // ----- Safety of every run -----

  /** Reached from a v1 system by any events at all. */
  ghost predicate Reachable(s: System) {
    exists start, events: seq<Event> :: Initial(start) && Run(start, events) == s
  }

  lemma ReachableHolds(s: System)
    requires Reachable(s)
    ensures Inv(s)
  {
    var start, events: seq<Event> :| Initial(start) && Run(start, events) == s;
    InitialHolds(start);
    RunHolds(start, events);
  }

  /**
   * Whenever the controller starts the service, it starts v2 if an activation was recorded, and v1 only
   * if none was and v2 is bound nowhere.
   */
  lemma ControllerStartsTheRightRoot(s: System)
    requires Reachable(s)
    requires s.service.None? && After(s, Proceed).service.Some?
    ensures After(s, Proceed).service == Some(if s.activationRecorded then V2 else V1)
    ensures !s.activationRecorded ==> s.bound.V1? && s.deployed.V1? && s.unitFile.V1?
    ensures !After(s, Proceed).died
  {
    hide Advanced, WellFormed, Follows;
    ReachableHolds(s);
  }

  /** The step that returns to v1 is never reached once an activation was recorded or v2 is bound. */
  lemma ReturnOnlyBeforeActivation(s: System)
    requires Reachable(s) && s.step.ToV1?
    ensures !s.activationRecorded && s.bound.V1? && s.deployed.V1? && s.unitLoaded.V1?
    ensures s.service != Some(V2)
    ensures s.window.Some? && !s.window.value.phase.Activating? && !s.window.value.phase.HealthyV2?
  {
    hide WellFormed;
    ReachableHolds(s);
  }

  /** v2 serves, is bound or is targeted only after its activation was recorded. */
  lemma V2OnlyAfterRecord(s: System)
    requires Reachable(s)
    requires s.service == Some(V2) || s.bound.V2? || s.deployed.V2? || s.unitFile.V2? || s.unitLoaded.V2?
    ensures s.activationRecorded && !s.invalidated
  {
    ReachableHolds(s);
  }

  /** Where a step that may record a phase can lead. */
  lemma RecordingFlags(s: System)
    requires s.window.Some?
    ensures forall phase, references, step ::
              var t := Record(s, phase, references, step);
              && t.window.Some? && (t.step == step || t.step == Down)
              && (t.activationRecorded == s.activationRecorded
                  || (t.activationRecorded && phase.Activating? && t.window.value.phase.Activating?))
    ensures forall root, step ::
              var t := Conclude(s, root, step);
              t.window.Some? && (t.step == step || t.step == Down) && t.activationRecorded == s.activationRecorded
  {
    hide Advanced;
    forall phase, references, step
      ensures var t := Record(s, phase, references, step);
              && t.window.Some? && (t.step == step || t.step == Down)
              && (t.activationRecorded == s.activationRecorded
                  || (t.activationRecorded && phase.Activating? && t.window.value.phase.Activating?))
    {
      RecordEffect(s, phase, references, step);
    }
  }

  /** The activation record is never withdrawn, and appears only with the phase that makes it. */
  lemma RecordIsKept(s: System, e: Event)
    ensures s.activationRecorded ==> After(s, e).activationRecorded
    ensures !s.activationRecorded && After(s, e).activationRecorded ==>
              After(s, e).window.Some? && After(s, e).window.value.phase.Activating?
  {
    hide Record, Conclude, WellFormed;
    if s.window.Some? {
      RecordingFlags(s);
    }
  }

  lemma RunSnoc(s: System, events: seq<Event>, e: Event)
    ensures Run(s, events + [e]) == After(Run(s, events), e)
    decreases |events|
  {
    if events == [] {
      assert [e][1..] == [];
      assert Run(After(s, e), []) == After(s, e);
    } else {
      assert (events + [e])[1..] == events[1..] + [e];
      RunSnoc(After(s, events[0]), events[1..], e);
    }
  }

  lemma RunCons(s: System, e: Event, rest: seq<Event>)
    ensures Run(s, [e] + rest) == Run(After(s, e), rest)
  {
    hide After;
    assert ([e] + rest)[1..] == rest;
  }

  /** The record is what it claims to be: the window file did say ACTIVATING at some point of the run. */
  lemma {:induction false} RecordMeansActivating(start: System, events: seq<Event>)
    requires !start.activationRecorded && Run(start, events).activationRecorded
    ensures exists n :: 0 < n <= |events|
              && Run(start, events[..n]).window.Some? && Run(start, events[..n]).window.value.phase.Activating?
    decreases |events|
  {
    hide After;
    if events != [] {
      var n := |events| - 1;
      assert events == events[..n] + [events[n]];
      RunSnoc(start, events[..n], events[n]);
      if Run(start, events[..n]).activationRecorded {
        RecordMeansActivating(start, events[..n]);
        var k :| 0 < k <= n && Run(start, events[..n][..k]).window.Some?
                 && Run(start, events[..n][..k]).window.value.phase.Activating?;
        assert events[..n][..k] == events[..k];
      } else {
        RecordIsKept(Run(start, events[..n]), events[n]);
        assert events[..n + 1] == events;
      }
    }
  }

  /**
   * When the cut or a recovery completes, the service it leaves runs from v1 exactly if no activation
   * was ever recorded, and the deployment is bound to that same root.
   */
  lemma CompletionServesOneRoot(s: System, root: Root)
    requires Reachable(s) && s.step == Done(root)
    ensures root == if s.activationRecorded then V2 else V1
    ensures s.bound == root && s.deployed == root && s.unitFile == root
    ensures s.service == Some(root) || (s.service.None? && s.died)
  {
    ReachableHolds(s);
  }

  /** Only a death or a reboot is remembered as one. */
  lemma NobodyDied(s: System, e: Event)
    requires !s.died && !e.ServiceDies? && !e.Reboot?
    ensures !After(s, e).died
  {
    hide Advanced;
  }

  /** Where the service never died and the machine stayed up, a completion leaves its root in service. */
  lemma {:induction false} QuietRunServes(start: System, events: seq<Event>, root: Root)
    requires Initial(start) && Run(start, events).step == Done(root)
    requires forall i | 0 <= i < |events| :: !events[i].ServiceDies? && !events[i].Reboot?
    ensures Run(start, events).service == Some(root)
  {
    NoDeaths(start, events);
    assert Reachable(Run(start, events));
    CompletionServesOneRoot(Run(start, events), root);
  }

  lemma {:induction false} NoDeaths(s: System, events: seq<Event>)
    requires !s.died && forall i | 0 <= i < |events| :: !events[i].ServiceDies? && !events[i].Reboot?
    ensures !Run(s, events).died
    decreases |events|
  {
    hide After;
    if events != [] {
      NobodyDied(s, events[0]);
      NoDeaths(After(s, events[0]), events[1..]);
    }
  }

  /** Once a window exists and the cut is over, no cut runs again and no activation is recorded anew. */
  lemma {:induction false} NoSecondCut(s: System, events: seq<Event>)
    requires s.window.Some? && !s.step.Cutting?
    ensures Run(s, events).window.Some? && Run(s, events).activationRecorded == s.activationRecorded
    decreases |events|
  {
    hide After;
    if events != [] {
      OneStepWithoutCut(s, events[0]);
      NoSecondCut(After(s, events[0]), events[1..]);
    }
  }

  /** The cut is over in `t`, and nothing was recorded on the way from `s`. */
  ghost predicate StaysOver(s: System, t: System) {
    t.window.Some? && !t.step.Cutting? && t.activationRecorded == s.activationRecorded
  }

  lemma OneStepWithoutCut(s: System, e: Event)
    requires s.window.Some? && !s.step.Cutting?
    ensures StaysOver(s, After(s, e))
  {
    hide Dispatch, ProceedToV1, ProceedToV2, WellFormed;
    if e.Proceed? {
      if s.step.Dispatching? {
        DispatchStaysOver(s);
      } else if s.step.ToV1? {
        ReturnStaysOver(s);
      } else if s.step.ToV2? {
        ForwardStaysOver(s);
      }
    }
  }

  lemma DispatchStaysOver(s: System)
    requires s.window.Some?
    ensures StaysOver(s, Dispatch(s))
  {
    hide Record;
    RecordingFlags(s);
  }

  lemma ReturnStaysOver(s: System)
    requires s.window.Some? && s.step.ToV1?
    ensures StaysOver(s, ProceedToV1(s))
  {
    hide Conclude;
    RecordingFlags(s);
  }

  lemma ForwardStaysOver(s: System)
    requires s.window.Some? && s.step.ToV2?
    ensures StaysOver(s, ProceedToV2(s))
  {
    hide Conclude;
    RecordingFlags(s);
  }

  /** Recovering again, whatever happens in between, never changes which root is served. */
  lemma RecoveryIsStable(s: System, events: seq<Event>, first: Root, second: Root)
    requires Reachable(s) && s.step == Done(first) && Run(s, events).step == Done(second)
    ensures first == second
  {
    ReachableHolds(s);
    NoSecondCut(s, events);
    RunHolds(s, events);
  }

  // ----- Health checks -----

  /** The steps that ask whether the service just started answers. */
  predicate ChecksHealth(step: Step) {
    step == Cutting(Restarted) || step == ToV1(Started) || step == ToV2(Running)
  }

  /**
   * Nothing goes on over a failed health check: a cut turns to its failed activation, which stops the
   * service, a recovery raises; and owner loss is recorded only while v1 answers.
   */
  lemma HealthIsChecked(s: System)
    requires s.window.Some?
    ensures ChecksHealth(s.step) && s.service.None? ==>
              After(s, Proceed).step in {Down, Cutting(ActivationFailed)}
    ensures ChecksHealth(s.step) || s.step == Cutting(Reloaded) ==>
              After(s, HealthCheckFails) == s.(step := if s.step.Cutting? then Cutting(ActivationFailed) else Down)
    ensures s.step == Cutting(ActivationFailed) ==> After(s, Proceed).service.None? && After(s, Proceed).step == Down
    ensures s.step == ToV1(AbortRecorded) ==>
              After(s, Proceed) == s.(step := if s.service == Some(V1) then Done(V1) else Down)
    ensures !s.invalidated && After(s, Proceed).invalidated ==> s.service == Some(V1) && s.step == ToV1(ReceiptKept)
    ensures s.step == ToV1(ReceiptKept) && s.reservation && !s.invalidated && s.service != Some(V1) ==>
              After(s, Proceed) == s.(step := Down)
  {
    hide Advanced;
  }

  // ----- Owner loss -----

  /** A successor is reserved only after the stop, and every return to v1 that completes settles it. */
  ghost predicate LossIsRecorded(s: System) {
    && (s.invalidated ==> s.reservation)
    && (s.reservation ==> s.window.Some? && !s.window.value.phase.Prepared? && s.step != ToV1(AbortRecorded))
    && (s.step == Done(V1) && s.reservation ==> s.invalidated)
  }

  lemma RecordKeepsLoss(s: System, phase: Phase, references: References, step: Step)
    requires LossIsRecorded(s) && s.window.Some? && !phase.Prepared? && step.Cutting?
    ensures LossIsRecorded(Record(s, phase, references, step))
  {
    hide Advanced;
    RecordEffect(s, phase, references, step);
  }

  lemma RecordingKeepsLoss(s: System)
    requires LossIsRecorded(s) && s.window.Some? && s.step.Cutting?
    requires s.step.cut in {WindowPrepared, ServiceStopped, SourceQuiet, CatchingUp, IntentWritten}
    ensures LossIsRecorded(ProceedCut(s))
  {
    RecordKeepsLoss(s, Stopping, NO_REFERENCES, Cutting(StopRecorded));
    RecordKeepsLoss(s, Quiescent, NO_REFERENCES, Cutting(SourceQuiet));
    RecordKeepsLoss(s, Applying, NO_REFERENCES, Cutting(CatchingUp));
    RecordKeepsLoss(s, RecoveryVerified, References(false, true, false), Cutting(RecoveryReady));
    RecordKeepsLoss(s, Activating, References(true, false, false), Cutting(ActivationRecorded));
    hide Record, LossIsRecorded;
  }

  lemma CutKeepsLoss(s: System)
    requires Inv(s) && LossIsRecorded(s) && s.window.Some? && s.step.Cutting?
    ensures LossIsRecorded(ProceedCut(s))
  {
    hide Inv, Record, Advanced;
    if s.step.cut in {WindowPrepared, ServiceStopped, SourceQuiet, CatchingUp, IntentWritten} {
      RecordingKeepsLoss(s);
    } else if s.step.cut.BindingSaved? {
      WindowIsWellFormed(s);
      ConcludeEffect(s, V2, ToV2(Terminal));
    }
  }

  lemma WindowIsWellFormed(s: System)
    requires Inv(s) && s.window.Some?
    ensures WellFormed(s.window.value)
  {
  }

  lemma ReturnKeepsLoss(s: System)
    requires LossIsRecorded(s) && s.window.Some? && s.step.ToV1?
    ensures LossIsRecorded(ProceedToV1(s))
  {
    hide WellFormed;
  }

  lemma ForwardKeepsLoss(s: System)
    requires Inv(s) && LossIsRecorded(s) && s.window.Some? && s.step.ToV2?
    ensures LossIsRecorded(ProceedToV2(s))
  {
    hide Inv, Conclude, CheckV2;
    if s.step.forth.NewBinding? {
      WindowIsWellFormed(s);
      ConcludeEffect(s, V2, ToV2(Terminal));
    } else if s.step.forth.Checking? {
      CheckKeepsLoss(s);
    }
  }

  lemma CheckKeepsLoss(s: System)
    requires LossIsRecorded(s) && s.window.Some?
    ensures LossIsRecorded(CheckV2(s))
  {
  }

  lemma DispatchKeepsLoss(s: System)
    requires LossIsRecorded(s) && s.step.Dispatching?
    ensures LossIsRecorded(Dispatch(s))
  {
    hide WellFormed;
  }

  lemma OtherKeepsLoss(s: System, e: Event)
    requires Inv(s) && LossIsRecorded(s) && !e.Proceed?
    ensures LossIsRecorded(After(s, e))
  {
    hide ProceedCut, ProceedToV1, ProceedToV2, Dispatch, WellFormed, WindowTells;
  }

  lemma {:induction false} RunKeepsLoss(s: System, events: seq<Event>)
    requires Inv(s) && LossIsRecorded(s)
    ensures LossIsRecorded(Run(s, events))
    decreases |events|
  {
    if events != [] {
      var e := events[0];
      EventHolds(s, e);
      hide Inv, LossIsRecorded, ProceedCut, ProceedToV1, ProceedToV2, Dispatch;
      if !e.Proceed? {
        OtherKeepsLoss(s, e);
      } else if s.step.Dispatching? {
        DispatchKeepsLoss(s);
      } else if s.window.Some? {
        if s.step.Cutting? {
          CutKeepsLoss(s);
        } else if s.step.ToV1? {
          ReturnKeepsLoss(s);
        } else if s.step.ToV2? {
          ForwardKeepsLoss(s);
        }
      }
      RunKeepsLoss(After(s, e), events[1..]);
    }
  }

  /** A completed return to v1 has recorded owner loss exactly if a successor had been reserved. */
  lemma ReturnRecordsLoss(s: System)
    requires Reachable(s)
    ensures s.step == Done(V1) ==> (s.invalidated <==> s.reservation)
    ensures s.invalidated ==> s.reservation && s.receipt.Some?
  {
    var start, events: seq<Event> :| Initial(start) && Run(start, events) == s;
    InitialHolds(start);
    RunKeepsLoss(start, events);
    RunHolds(start, events);
  }

  /** Owner loss is recorded against the successor only where v2 was never activated, and stays so. */
  lemma InvalidatedStaysOnV1(s: System, events: seq<Event>)
    requires Reachable(s) && s.invalidated
    ensures !Run(s, events).activationRecorded && Run(s, events).bound.V1?
    ensures Run(s, events).service != Some(V2)
  {
    ReachableHolds(s);
    NoSecondCut(s, events);
    RunHolds(s, events);
  }

  // ----- What the window file carries -----

  /** Which artifacts the window names at each phase: none too early, and each from its phase on. */
  ghost predicate ReferencesFit(s: System) {
    s.window.Some? ==>
      var w := s.window.value;
      && (w.references.intent <==> s.activationRecorded)
      && (w.phase.Prepared? || w.phase.Stopping? || w.phase.Quiescent? || w.phase.Applying? ==> !w.references.recovery)
      && (w.phase.RecoveryVerified? || w.phase.Activating? || w.phase.HealthyV2? ==> w.references.recovery)
      && (w.references.binding ==> (w.phase.HealthyV2? || w.phase.Aborted?) && s.bound.V2?)
      && (w.phase.HealthyV2? ==> w.references.binding)
  }

  /** The artifacts that go with the recording of a phase. */
  predicate Brings(phase: Phase, references: References) {
    match phase
    case RecoveryVerified => references == References(false, true, false)
    case Activating => references == References(true, false, false)
    case Stopping | Quiescent | Applying | ReturningV1 | HealthyV1 => references == References(false, false, false)
    case _ => false
  }

  lemma RecordKeepsReferences(s: System, phase: Phase, references: References, step: Step)
    requires ReferencesFit(s) && s.window.Some? && Brings(phase, references)
    requires phase.HealthyV1? ==> !s.activationRecorded
    ensures ReferencesFit(Record(s, phase, references, step))
  {
    hide Advanced, WellFormed;
    RecordEffect(s, phase, references, step);
  }

  lemma AbortKeepsReferences(s: System, step: Step)
    requires ReferencesFit(s) && s.window.Some?
    ensures ReferencesFit(Record(s, Aborted, References(false, false, false), step))
  {
    hide Advanced, WellFormed;
    RecordEffect(s, Aborted, References(false, false, false), step);
  }

  lemma ClosingKeepsReferences(s: System, phase: Phase, binding: bool, step: Step)
    requires ReferencesFit(s) && s.window.Some? && (binding ==> s.bound.V2?)
    requires phase.Aborted? || (phase.HealthyV1? && !binding && !s.activationRecorded) || (phase.HealthyV2? && binding)
    ensures ReferencesFit(Record(s, phase, References(false, false, binding), step))
  {
    hide Advanced, Follows;
    RecordEffect(s, phase, References(false, false, binding), step);
  }

  lemma ConcludeKeepsReferences(s: System, root: Root, step: Step)
    requires ReferencesFit(s) && s.window.Some?
    requires root.V1? <==> !s.activationRecorded
    ensures ReferencesFit(Conclude(s, root, step))
  {
    hide Record;
    if s.bound.V2? || root.V1? {
      ClosingKeepsReferences(s, Aborted, root.V2?, step);
      ClosingKeepsReferences(s, if root.V2? then HealthyV2 else HealthyV1, root.V2?, step);
    }
  }

  lemma RecordingKeepsReferences(s: System)
    requires ReferencesFit(s) && s.window.Some? && s.step.Cutting?
    requires s.step.cut in {WindowPrepared, ServiceStopped, SourceQuiet, CatchingUp, IntentWritten}
    ensures ReferencesFit(ProceedCut(s))
  {
    RecordKeepsReferences(s, Stopping, NO_REFERENCES, Cutting(StopRecorded));
    RecordKeepsReferences(s, Quiescent, NO_REFERENCES, Cutting(SourceQuiet));
    RecordKeepsReferences(s, Applying, NO_REFERENCES, Cutting(CatchingUp));
    RecordKeepsReferences(s, RecoveryVerified, References(false, true, false), Cutting(RecoveryReady));
    RecordKeepsReferences(s, Activating, References(true, false, false), Cutting(ActivationRecorded));
    hide Record, ReferencesFit;
  }

  lemma CutKeepsReferences(s: System)
    requires Inv(s) && ReferencesFit(s) && s.window.Some? && s.step.Cutting?
    ensures ReferencesFit(ProceedCut(s))
  {
    hide Record, Conclude, Inv;
    if s.step.cut in {WindowPrepared, ServiceStopped, SourceQuiet, CatchingUp, IntentWritten} {
      RecordingKeepsReferences(s);
    } else if s.step.cut.BindingSaved? {
      BoundIsRecorded(s);
      WindowIsWellFormed(s);
      ConcludeKeepsReferences(s, V2, ToV2(Terminal));
    }
  }

  lemma ReturnKeepsReferences(s: System)
    requires Inv(s) && ReferencesFit(s) && s.window.Some? && s.step.ToV1?
    ensures ReferencesFit(ProceedToV1(s))
  {
    hide Conclude;
    if s.step.back.Answering? && s.receipt.None? {
      WindowIsWellFormed(s);
      ConcludeKeepsReferences(s, V1, ToV1(Concluded));
    }
    hide WellFormed, WindowTells;
  }

  lemma ForwardKeepsReferences(s: System)
    requires Inv(s) && ReferencesFit(s) && s.window.Some? && s.step.ToV2?
    ensures ReferencesFit(ProceedToV2(s))
  {
    hide Conclude, CheckV2, Inv;
    if s.step.forth.NewBinding? {
      BindingIsRecorded(s);
      WindowIsWellFormed(s);
      ConcludeKeepsReferences(s, V2, ToV2(Terminal));
    } else if s.step.forth.Checking? {
      CheckKeepsReferences(s);
    }
  }

  lemma CheckKeepsReferences(s: System)
    requires ReferencesFit(s) && s.window.Some?
    ensures ReferencesFit(CheckV2(s))
  {
  }

  lemma DispatchKeepsReferences(s: System)
    requires ReferencesFit(s) && s.step.Dispatching?
    ensures ReferencesFit(Dispatch(s))
  {
    hide Record;
    if s.window.Some? {
      AbortKeepsReferences(s, ToV1(AbortRecorded));
      RecordKeepsReferences(s, ReturningV1, NO_REFERENCES, ToV1(Returning));
    }
  }

  lemma OtherKeepsReferences(s: System, e: Event)
    requires Inv(s) && ReferencesFit(s) && !e.Proceed?
    ensures ReferencesFit(After(s, e))
  {
    hide ProceedCut, ProceedToV1, ProceedToV2, Dispatch, WindowTells, StepFits;
  }

  lemma {:induction false} RunKeepsReferences(s: System, events: seq<Event>)
    requires Inv(s) && ReferencesFit(s)
    ensures ReferencesFit(Run(s, events))
    decreases |events|
  {
    if events != [] {
      var e := events[0];
      EventHolds(s, e);
      hide Inv, ReferencesFit, ProceedCut, ProceedToV1, ProceedToV2, Dispatch;
      if !e.Proceed? {
        OtherKeepsReferences(s, e);
      } else if s.step.Dispatching? {
        DispatchKeepsReferences(s);
      } else if s.window.Some? {
        if s.step.Cutting? {
          CutKeepsReferences(s);
        } else if s.step.ToV1? {
          ReturnKeepsReferences(s);
        } else if s.step.ToV2? {
          ForwardKeepsReferences(s);
        }
      }
      RunKeepsReferences(After(s, e), events[1..]);
    }
  }

  /**
   * In every run the window names the activation intent exactly once an activation was recorded, the
   * external recovery from RECOVERY_VERIFIED on, and the binding only where v2 is bound.
   */
  lemma WindowNamesArtifacts(s: System)
    requires Reachable(s) && s.window.Some?
    ensures var w := s.window.value;
            && (w.references.intent <==> s.activationRecorded)
            && (w.phase.Prepared? || w.phase.Stopping? || w.phase.Quiescent? || w.phase.Applying? ==> !w.references.recovery)
            && (w.phase.RecoveryVerified? || w.phase.Activating? || w.phase.HealthyV2? ==> w.references.recovery)
            && (w.references.binding ==> (w.phase.HealthyV2? || w.phase.Aborted?) && s.bound.V2?)
            && (w.phase.HealthyV2? ==> w.references.binding)
  {
    var start, events: seq<Event> :| Initial(start) && Run(start, events) == s;
    InitialHolds(start);
    RunKeepsReferences(start, events);
  }

  /** A cut starts only on v1, with a window whose deadline and reserve are those it was given. */
  lemma CutStarts(s: System, limit: int, reserve: int)
    ensures var n := After(s, StartCut(limit, reserve));
            if !Resting(s.step) || s.window.Some? || s.service != Some(V1) || s.now < 0 then n == s
            else if 0 < reserve && 0 < limit then
              n == s.(window := Some(Window(Prepared, s.boot, s.now, s.now + limit, reserve, References(false, false, false))),
                      step := Cutting(WindowPrepared))
            else n == s.(step := Down)
  {
  }
}
