/** Failure-compatible results shared by every component. */
module Wrappers {
  datatype Option<+T> = None | Some(value: T) {
    function GetOr(default: T): T {
      if Some? then value else default
    }
  }

  /** A guarded computation either passes a value on or fails closed, as `GuardFailure` does. */
  datatype Guarded<+T> = Pass(value: T) | GuardFailure {
    predicate IsFailure() {
      GuardFailure?
    }

    function PropagateFailure<U>(): Guarded<U>
      requires GuardFailure?
    {
      GuardFailure
    }

    function Extract(): T
      requires Pass?
    {
      value
    }
  }

  /** Fails closed unless `condition` holds. */
  function Need(condition: bool): Guarded<()> {
    if condition then Pass(()) else GuardFailure
  }
}
