/** The durable window of one global cut: a boot-bound deadline and a phase that only moves forward. */
module CutWindow {
  import opened Wrappers

  datatype Phase =
    | Prepared | Stopping | Quiescent | Applying | RecoveryVerified
    | Activating | ReturningV1 | HealthyV1 | HealthyV2 | Aborted

  /** The artifacts an advance may attach to the window. */
  datatype References = References(intent: bool, recovery: bool, binding: bool)

  const NO_REFERENCES := References(false, false, false)

  /** Clock readings are nanoseconds of the boot that `bootId` names; the reserve is too. */
  datatype Window = Window(
    phase: Phase, bootId: nat, started: int, deadline: int, reserve: int, references: References)

  /** What the window's own validation demands. */
  predicate WellFormed(w: Window) {
    && 0 < w.reserve && 0 <= w.started < w.deadline
    && ((w.phase.Activating? || w.phase.HealthyV2?) ==> w.references.intent && w.references.recovery)
    && (w.phase == HealthyV2 ==> w.references.binding)
  }

  predicate Follows(phase: Phase, next: Phase) {
    match phase
    case Prepared => next.Stopping? || next.Aborted?
    case Stopping => next.Quiescent? || next.ReturningV1?
    case Quiescent => next.Applying? || next.ReturningV1?
    case Applying => next.RecoveryVerified? || next.ReturningV1?
    case RecoveryVerified => next.Activating? || next.ReturningV1?
    case Activating => next.HealthyV2? || next.Aborted?
    case ReturningV1 => next.HealthyV1? || next.Aborted?
    case HealthyV1 | HealthyV2 | Aborted => false
  }

  predicate Finished(phase: Phase) {
    phase.HealthyV1? || phase.HealthyV2? || phase.Aborted?
  }

  /** Work time left before the recovery reserve; another boot has no clock to compare. */
  function RemainingWork(w: Window, boot: nat, now: int): Guarded<nat> {
    if boot != w.bootId || now < w.started then GuardFailure
    else Pass(if w.deadline - now - w.reserve > 0 then w.deadline - now - w.reserve else 0)
  }

  function Merge(a: References, b: References): References {
    References(a.intent || b.intent, a.recovery || b.recovery, a.binding || b.binding)
  }

  function Advanced(w: Window, phase: Phase, boot: nat, now: int, references: References): Guarded<Window> {
    var changedBootAbort := phase == Aborted && boot != w.bootId && !Finished(w.phase);
    var _ :- Need(Follows(w.phase, phase) || changedBootAbort);
    var remaining :- if changedBootAbort then Pass(0) else RemainingWork(w, boot, now);
    var _ :- Need((phase.ReturningV1? || phase.HealthyV1? || phase.Aborted? || phase.HealthyV2?) || remaining > 0);
    var _ :- Need(now <= w.deadline || phase == Aborted);
    var next := w.(phase := phase, references := Merge(w.references, references));
    var _ :- Need(WellFormed(next));
    Pass(next)
  }

  /** The window file: readers name the contents they saw, and a writer that saw others fails. */
  class WindowFile {
    var window: Window

    constructor (prepared: Window)
      ensures window == prepared
    {
      window := prepared;
    }

    method Advance(expected: Window, phase: Phase, boot: nat, now: int, references: References)
      returns (ok: bool)
      modifies this
      ensures ok <==> expected == old(window) && Advanced(old(window), phase, boot, now, references).Pass?
      ensures ok ==> Advanced(old(window), phase, boot, now, references) == Pass(window)
      ensures !ok ==> window == old(window)
    {
      if window != expected {
        return false;
      }
      var next := Advanced(window, phase, boot, now, references);
      if next.GuardFailure? {
        return false;
      }
      window := next.value;
      ok := true;
    }
  }

  // ----- What an advance can and cannot do -----

  /** How far a phase is along the way; an advance always gets further. */
  ghost function Progress(phase: Phase): nat {
    match phase
    case Prepared => 0
    case Stopping => 1
    case Quiescent => 2
    case Applying => 3
    case RecoveryVerified => 4
    case Activating => 5
    case ReturningV1 => 6
    case HealthyV1 => 7
    case HealthyV2 => 7
    case Aborted => 7
  }

  /** The clock of a window is never restarted, and no phase is entered twice. */
  lemma AdvanceMovesForward(w: Window, phase: Phase, boot: nat, now: int, references: References)
    requires Advanced(w, phase, boot, now, references).Pass?
    ensures var next := Advanced(w, phase, boot, now, references).value;
            && next.bootId == w.bootId && next.started == w.started
            && next.deadline == w.deadline && next.reserve == w.reserve
            && Progress(w.phase) < Progress(next.phase)
            && !Finished(w.phase)
  {
  }

  /**
   * Exactly when an advance succeeds on the boot that opened the window: productive phases must leave
   * the recovery reserve untouched, closing phases must meet the deadline, and an abort may be late.
   */
  lemma AdvanceOnSameBoot(w: Window, phase: Phase, now: int, references: References)
    requires WellFormed(w) && w.started <= now
    ensures Advanced(w, phase, w.bootId, now, references).Pass? <==>
              && Follows(w.phase, phase)
              && (phase == Aborted
                  || ((phase.ReturningV1? || phase.HealthyV1?) && now <= w.deadline)
                  || (phase == HealthyV2 && now <= w.deadline && Merge(w.references, references).binding)
                  || ((phase.Stopping? || phase.Quiescent? || phase.Applying? || phase.RecoveryVerified?) && now + w.reserve < w.deadline)
                  || (phase == Activating && now + w.reserve < w.deadline
                      && Merge(w.references, references).intent && Merge(w.references, references).recovery))
  {
  }

  /** After a reboot the only way out of an unfinished window is to abort it. */
  lemma AdvanceOnOtherBoot(w: Window, phase: Phase, boot: nat, now: int, references: References)
    requires WellFormed(w) && boot != w.bootId
    ensures Advanced(w, phase, boot, now, references).Pass? <==> phase == Aborted && !Finished(w.phase)
  {
  }
}
