/** The cache reclaimer of a maintenance worker, polled from two threads and served by a third. */
module CacheReclaimer {
  import opened Wrappers

  datatype Error = Timeout | Unmeasured | NoProgress | Unavailable | OwnerMismatch | UnsafeController

  /** The reclaim thread: `Recorded` has published its result but is still alive. */
  datatype Worker = NoWorker | Working | Recorded | Gone

  datatype Attempt = Attempt(before: Option<int>, after: Option<int>, elapsed: int, short: bool, error: Option<Error>)

  /** A poll that holds the lock, with what it has decided so far. */
  datatype Entered = Entered(now: int, willMeasure: bool)

  const MIB := 1024 * 1024
  const TIMEOUT := 2_000_000   // microseconds
  const HISTORY := 16

  /** `lost` counts reclaim threads that ended without a result; `issued` keeps the memory of each request. */
  datatype Reclaimer = Reclaimer(
    enabled: bool, high: int, stopped: bool, poll: Option<Entered>, worker: Worker,
    started: int, finished: int, requests: nat, completed: nat, lost: nat,
    short: bool, before: Option<int>, after: Option<int>, error: Option<Error>,
    history: seq<Attempt>, issued: seq<int>)

  datatype Event =
    | PollEnters(now: int)                                  // takes the lock
    | PollLeaves(current: Option<int>, file: Option<int>)   // measures, maybe requests, frees the lock
    | Closes                                                // sets the stop flag without the lock
    | WorkerRecords(failure: Option<Error>, measured: Option<int>, shortReclaim: bool, at: int)
    | WorkerExits
    | WorkerDies                                            // an error the worker does not catch

  function Fresh(enabled: bool, high: int): Reclaimer {
    Reclaimer(enabled, high, false, None, NoWorker, 0, 0, 0, 0, 0, false, None, None, None, [], [])
  }

  predicate Alive(worker: Worker) {
    worker.Working? || worker.Recorded?
  }

  predicate InBand(r: Reclaimer, current: int, file: Option<int>) {
    file.Some? && 256 * MIB <= file.value && r.high - 768 * MIB <= current < r.high
  }

  function LastSixteen(h: seq<Attempt>): seq<Attempt> {
    if |h| <= HISTORY then h else h[|h| - HISTORY..]
  }

  function Or(a: Option<Error>, b: Option<Error>): Option<Error> {
    if a.Some? then a else b
  }

  function Enter(r: Reclaimer, now: int): Reclaimer {
    var active := Alive(r.worker);
    var error := if active && now - r.started > TIMEOUT then Some(Timeout) else r.error;
    r.(error := error, poll := Some(Entered(now, r.enabled && !r.stopped && !active && error.None?)))
  }

  function Leave(r: Reclaimer, current: Option<int>, file: Option<int>): Reclaimer
    requires r.poll.Some?
  {
    if !r.poll.value.willMeasure then r.(poll := None)
    else if current.None? then r.(poll := None, error := Some(Unmeasured))
    else if InBand(r, current.value, file) then
      r.(poll := None, before := current, after := None, started := r.poll.value.now, requests := r.requests + 1,
         worker := Working, issued := r.issued + [current.value])
    else r.(poll := None)
  }

  function Record(r: Reclaimer, failure: Option<Error>, measured: Option<int>, shortReclaim: bool, at: int): Reclaimer {
    var stuck := failure.None? && shortReclaim && r.before.Some? && measured.Some? && measured.value >= r.before.value;
    var after := if failure.Some? then None else measured;
    var error := Or(r.error, if stuck then Some(NoProgress) else failure);
    r.(error := error, after := after, short := shortReclaim, completed := r.completed + 1, finished := at,
       worker := Recorded,
       history := LastSixteen(r.history + [Attempt(r.before, after, at - r.started, shortReclaim, error)]))
  }

  /** An event that cannot happen, such as entering a held lock, changes nothing. */
  function After(r: Reclaimer, e: Event): Reclaimer {
    match e
    case PollEnters(now) => if r.poll.None? then Enter(r, now) else r
    case PollLeaves(current, file) => if r.poll.Some? then Leave(r, current, file) else r
    case Closes => r.(stopped := true)
    case WorkerRecords(failure, measured, shortReclaim, at) =>
      if r.worker.Working? && r.poll.None? then Record(r, failure, measured, shortReclaim, at) else r
    case WorkerExits => if r.worker.Recorded? then r.(worker := Gone) else r
    case WorkerDies => if r.worker.Working? then r.(worker := Gone, lost := r.lost + 1) else r
  }

  function Run(r: Reclaimer, events: seq<Event>): Reclaimer
    decreases |events|
  {
    if events == [] then r else Run(After(r, events[0]), events[1..])
  }

  /** The object itself, between two locked sections: a poll, and the recording of a finished reclaim. */
  class Cache {
    const enabled: bool
    const high: int
    var stopped: bool
    var worker: Worker
    var started: int
    var finished: int
    var requests: nat
    var completed: nat
    var short: bool
    var before: Option<int>
    var after: Option<int>
    var error: Option<Error>
    var history: seq<Attempt>
    ghost var lost: nat
    ghost var issued: seq<int>

    ghost function State(): Reclaimer
      reads this
    {
      Reclaimer(enabled, high, stopped, None, worker, started, finished, requests, completed, lost,
                short, before, after, error, history, issued)
    }

    constructor (enabled: bool, high: int)
      ensures State() == Fresh(enabled, high)
    {
      this.enabled, this.high := enabled, high;
      stopped, worker, started, finished, requests, completed := false, NoWorker, 0, 0, 0, 0;
      short, before, after, error, history := false, None, None, None, [];
      lost, issued := 0, [];
    }

    method Poll(now: int, current: Option<int>, file: Option<int>) returns (active: bool)
      modifies this
      ensures State() == After(After(old(State()), PollEnters(now)), PollLeaves(current, file))
      ensures active <==> Alive(worker)
    {
      active := Alive(worker);
      if active && now - started > TIMEOUT {
        error := Some(Timeout);
      }
      if enabled && !stopped && !active && error.None? {
        if current.None? {
          error := Some(Unmeasured);
        } else if file.Some? && 256 * MIB <= file.value && high - 768 * MIB <= current.value < high {
          before, after := current, None;
          started := now;
          requests := requests + 1;
          worker := Working;
          issued := issued + [current.value];
          active := true;
        }
      }
    }

    method RecordReclaim(failure: Option<Error>, measured: Option<int>, shortReclaim: bool, at: int)
      requires worker.Working?
      modifies this
      ensures State() == After(old(State()), WorkerRecords(failure, measured, shortReclaim, at))
    {
      var result, problem := measured, failure;
      if failure.Some? {
        result := None;
      } else if shortReclaim && before.Some? && measured.Some? && measured.value >= before.value {
        problem := Some(NoProgress);
      }
      error := Or(error, problem);
      after, short := result, shortReclaim;
      completed := completed + 1;
      finished := at;
      worker := Recorded;
      history := LastSixteen(history + [Attempt(before, result, at - started, shortReclaim, error)]);
    }

    method Close()
      modifies this
      ensures State() == After(old(State()), Closes)
    {
      stopped := true;
    }
  }

  // ----- Invariant -----

  predicate Inv(r: Reclaimer) {
    && r.requests == r.completed + r.lost + (if r.worker.Working? then 1 else 0)
    && |r.history| == (if r.completed < HISTORY then r.completed else HISTORY)
    && |r.issued| == r.requests
    && (forall i | 0 <= i < |r.issued| :: r.high - 768 * MIB <= r.issued[i] < r.high)
    && (r.poll.Some? && r.poll.value.willMeasure ==> r.error.None? && !Alive(r.worker) && r.enabled)
    && (!r.enabled ==> r.requests == 0)
  }

  lemma EventHolds(r: Reclaimer, e: Event)
    requires Inv(r)
    ensures Inv(After(r, e))
  {
  }

  lemma {:induction false} RunHolds(r: Reclaimer, events: seq<Event>)
    requires Inv(r)
    ensures Inv(Run(r, events))
    decreases |events|
  {
    hide After, Inv;
    if events != [] {
      EventHolds(r, events[0]);
      RunHolds(After(r, events[0]), events[1..]);
    }
  }

  // ----- Results -----

  /** The conditions of a request: alone, without error, enabled, open, and memory inside the band. */
  predicate MayRequest(r: Reclaimer, now: int, current: Option<int>, file: Option<int>) {
    && r.enabled && !r.stopped && r.error == None && r.worker != Working && r.worker != Recorded
    && current.Some? && r.high - 805306368 <= current.value < r.high
    && file.Some? && file.value >= 268435456
  }

  /**
   * What a poll does, with nothing in between: it requests exactly under the conditions of a request, and
   * latches a timeout of an outstanding reclaim, or the lack of a measurement where it wanted one.
   */
  lemma PollMeans(r: Reclaimer, now: int, current: Option<int>, file: Option<int>)
    requires r.poll.None?
    ensures var n := After(After(r, PollEnters(now)), PollLeaves(current, file));
            && n.poll.None?
            && (if MayRequest(r, now, current, file) then
                  && n.requests == r.requests + 1 && n.issued == r.issued + [current.value]
                  && n.worker == Working && n.started == now && n.before == current && n.after == None
                else
                  n.requests == r.requests && n.issued == r.issued && n.worker == r.worker && n.started == r.started
                  && n.before == r.before && n.after == r.after)
            && n.error == (if (r.worker == Working || r.worker == Recorded) && now - r.started > 2_000_000 then Some(Timeout)
                           else if r.enabled && !r.stopped && r.error == None && r.worker != Working && r.worker != Recorded
                                   && current == None then Some(Unmeasured)
                           else r.error)
            && n.completed == r.completed && n.lost == r.lost && n.history == r.history && n.finished == r.finished
            && n.stopped == r.stopped && n.short == r.short && n.enabled == r.enabled && n.high == r.high
  {
  }

  /** What a finished reclaim leaves: one completion, the first error, and its attempt as the last of sixteen at most. */
  lemma RecordMeans(r: Reclaimer, failure: Option<Error>, measured: Option<int>, shortReclaim: bool, at: int)
    requires r.poll.None? && r.worker == Working
    ensures var n := After(r, WorkerRecords(failure, measured, shortReclaim, at));
            var gained := measured.Some? && r.before.Some? && measured.value < r.before.value;
            var problem := if failure.Some? then failure
                           else if shortReclaim && measured.Some? && r.before.Some? && !gained then Some(NoProgress) else None;
            && n.worker == Recorded && n.completed == r.completed + 1 && n.requests == r.requests && n.lost == r.lost
            && n.error == (if r.error.Some? then r.error else problem)
            && n.after == (if failure.Some? then None else measured) && n.short == shortReclaim && n.finished == at
            && var attempt := Attempt(r.before, n.after, at - r.started, shortReclaim, n.error);
               n.history == if |r.history| < 16 then r.history + [attempt] else (r.history + [attempt])[|r.history| + 1 - 16..]
  {
  }

  /** While a poll holds the lock nobody else enters and no result is recorded. */
  lemma LockExcludes(r: Reclaimer, e: Event)
    requires r.poll.Some? && (e.PollEnters? || e.WorkerRecords?)
    ensures After(r, e) == r
  {
  }

  /**
   * However the polls of two threads, the worker and a close interleave, at most one reclaim is
   * outstanding, every request was made inside the memory band, and the history stays bounded.
   */
  lemma AtMostOneOutstanding(enabled: bool, high: int, events: seq<Event>)
    ensures var r := Run(Fresh(enabled, high), events);
            && 0 <= r.requests - r.completed - r.lost <= 1
            && (r.requests - r.completed - r.lost == 1 <==> r.worker.Working?)
            && (r.lost == 0 ==> 0 <= r.requests - r.completed <= 1)
            && |r.history| <= 16 && |r.issued| == r.requests
            && forall i | 0 <= i < |r.issued| :: r.high - 768 * MIB <= r.issued[i] < r.high
  {
    RunHolds(Fresh(enabled, high), events);
  }

  /** Whether a poll that already holds the lock may still make one request. */
  predicate InFlight(r: Reclaimer) {
    r.poll.Some? && r.poll.value.willMeasure
  }

  /** Once an error is latched it stays latched and no request is made again. */
  lemma {:induction false} ErrorEndsRequests(r: Reclaimer, events: seq<Event>)
    requires Inv(r) && r.error.Some?
    ensures Run(r, events).error.Some? && Run(r, events).requests == r.requests
    decreases |events|
  {
    if events != [] {
      EventHolds(r, events[0]);
      ErrorEndsRequests(After(r, events[0]), events[1..]);
    }
  }

  lemma {:induction false} StopBoundsRequests(r: Reclaimer, events: seq<Event>)
    requires Inv(r) && r.stopped
    ensures Run(r, events).requests <= r.requests + (if InFlight(r) then 1 else 0)
    decreases |events|
  {
    hide Inv;
    if events != [] {
      EventHolds(r, events[0]);
      StopStep(r, events[0]);
      StopBoundsRequests(After(r, events[0]), events[1..]);
    }
  }

  lemma StopStep(r: Reclaimer, e: Event)
    requires r.stopped
    ensures var n := After(r, e);
            n.stopped && n.requests + (if InFlight(n) then 1 else 0) <= r.requests + (if InFlight(r) then 1 else 0)
  {
  }

  /**
   * Closing promises no further request only if no poll is past its check: the stop flag is set
   * without the lock, so a poll already inside may still make one, and never more.
   */
  lemma CloseExactly(r: Reclaimer)
    requires Inv(r) && r.stopped
    ensures (exists events :: Run(r, events).requests > r.requests) <==> InFlight(r)
    ensures forall events :: Run(r, events).requests <= r.requests + 1
  {
    forall events ensures Run(r, events).requests <= r.requests + (if InFlight(r) then 1 else 0) {
      StopBoundsRequests(r, events);
    }
    if InFlight(r) {
      var e := PollLeaves(Some(r.high - 1), Some(256 * MIB));
      assert [e][1..] == [];
      assert Run(r, [e]) == After(r, e);
    }
  }

  /** A run that gets there: a poll is inside when the reclaimer is closed. */
  lemma CloseMayBeLate(high: int)
    ensures var r := Run(Fresh(true, high), [PollEnters(0), Closes]); Inv(r) && r.stopped && InFlight(r)
  {
    var r := Fresh(true, high);
    RunHolds(r, [PollEnters(0), Closes]);
    assert [PollEnters(0), Closes][1..] == [Closes] && [Closes][1..] == [];
    assert Run(After(r, PollEnters(0)), [Closes]) == After(After(r, PollEnters(0)), Closes);
  }

  /**
   * A reclaim thread that dies without recording is forgotten: the next poll requests again, so requests
   * can run ahead of completions by more than one.
   */
  lemma LostWorkerIsReplaced(high: int) returns (events: seq<Event>)
    ensures var r := Run(Fresh(true, high), events);
            r.requests - r.completed == 2 && r.error.None? && r.worker.Working?
  {
    var leave := PollLeaves(Some(high - 1), Some(256 * MIB));
    events := [PollEnters(0), leave, WorkerDies, PollEnters(1), leave];
    var r := Fresh(true, high);
    var r1 := After(After(r, PollEnters(0)), leave);
    var r2 := After(r1, WorkerDies);
    var r3 := After(After(r2, PollEnters(1)), leave);
    assert events[1..] == [leave, WorkerDies, PollEnters(1), leave];
    assert events[1..][1..] == [WorkerDies, PollEnters(1), leave];
    assert events[1..][1..][1..] == [PollEnters(1), leave];
    assert events[1..][1..][1..][1..] == [leave] && [leave][1..] == [];
    assert Run(After(r2, PollEnters(1)), [leave]) == r3;
    assert Run(r2, [PollEnters(1), leave]) == r3;
    assert Run(r1, [WorkerDies, PollEnters(1), leave]) == r3;
    assert Run(r, events) == r3;
  }
}
