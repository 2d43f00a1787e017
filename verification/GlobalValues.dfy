/** The MoveVM slot that holds a global value, as the four-state machine the object runtime relies on. */
module GlobalValues {
  import opened Common

  /** The failures an object-runtime call can report. */
  datatype StatusCode =
    | MissingData
    | ResourceAlreadyExists
    | TypeMismatch
    | InvariantViolation
    | Aborted(code: nat)

  /** The effect a slot has on the store at the end of a transaction. */
  datatype Op<T> = New(state: T) | Modify(state: T) | Delete

  datatype GlobalValue<T> = GvNone | GvFresh(v: T) | GvCached(v: T, dirty: bool) | GvDeleted {
    predicate Exists() {
      GvFresh? || GvCached?
    }

    /** The slot was filled from the store, whatever has happened to it since. */
    predicate Persisted() {
      GvCached? || GvDeleted?
    }

    function MoveTo(x: T): Result<GlobalValue<T>, StatusCode> {
      match this
      case GvNone => Ok(GvFresh(x))
      case GvDeleted => Ok(GvCached(x, true))
      case _ => Err(ResourceAlreadyExists)
    }

    function MoveFrom(): Result<(GlobalValue<T>, T), StatusCode> {
      match this
      case GvFresh(x) => Ok((GvNone, x))
      case GvCached(x, _) => Ok((GvDeleted, x))
      case _ => Err(MissingData)
    }

    function Borrow(): Result<T, StatusCode> {
      if Exists() then Ok(v) else Err(MissingData)
    }

    /** Borrow the slot and write through the reference. */
    function Write(x: T): Result<GlobalValue<T>, StatusCode> {
      match this
      case GvFresh(_) => Ok(GvFresh(x))
      case GvCached(_, _) => Ok(GvCached(x, true))
      case _ => Err(MissingData)
    }

    function IntoEffect(): Option<Op<T>> {
      match this
      case GvNone => None
      case GvFresh(x) => Some(New(x))
      case GvCached(x, d) => if d then Some(Modify(x)) else None
      case GvDeleted => Some(Delete)
    }
  }
}
