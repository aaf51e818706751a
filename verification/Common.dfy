/** Values shared by every part of the model: optional values, the errors the library tells apart,
    and the state of a Go context. */
module Common {

  datatype Option<+T> = None | Some(value: T)

  /** The error classes that the library distinguishes with errors.Is and errors.As. */
  datatype Error = DeadlineExceeded | Canceled | LockLost | UnauthorizedAccess | Other(code: nat)

  datatype Cause = ByCancel | ByDeadline

  /** A context is live until it ends, and it keeps its first cause. */
  datatype Context = Live | Ended(cause: Cause) {

    /** ctx.Err() */
    function Err(): Option<Error> {
      match this
      case Live => None
      case Ended(ByCancel) => Some(Canceled)
      case Ended(ByDeadline) => Some(DeadlineExceeded)
    }

    /** The effect of calling a cancel function. */
    function Cancel(): Context {
      if Live? then Ended(ByCancel) else this
    }
  }

  predicate IsContextError(e: Error) {
    e.Canceled? || e.DeadlineExceeded?
  }

  /** peekLockRenewer.isPermanent */
  predicate IsPermanent(e: Error) {
    e.LockLost? || e.UnauthorizedAccess?
  }

  /** How the race of a send against its context ends for the caller. After Abandoned the send may
      have succeeded or failed, or may still do either. */
  datatype SendOutcome = Confirmed | Rejected(err: Error) | Abandoned(err: Error) {

    /** The error that the caller returns. */
    function Returned(): Option<Error> {
      if Confirmed? then None else Some(err)
    }
  }
}
