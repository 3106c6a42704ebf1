// Error values, and the two retryability tests of internal/resilience/errors.go
// and internal/types/errors.go. An error is a chain of wrappers around one cause,
// which is what `errors.Is` and `errors.As` walk.

module Errors {
  datatype Option<+T> = None | Some(value: T)

  /** The system call errors that are told apart, and any other with its own answer to `Timeout()`. */
  datatype Errno = ConnectionRefused | ConnectionReset | TimedOut | OtherErrno(timeout: bool)

  datatype Error =
    | CacheMiss
    | RedisUnavailable
    | CircuitOpen
    | ManagerClosed
    | WriteQueueFull
    | BulkheadFull
    | BulkheadTimeout
    | InvalidKey
    | Network(timeout: bool)            // an error of package net or context that implements net.Error
    | SystemCall(errno: Errno)          // syscall.Errno, which implements net.Error too
    | DeadlineExceeded                  // os.ErrDeadlineExceeded, which implements net.Error too
    | Cancelled                         // context.Canceled
    | Other(code: int)                  // any further error
    | Wrapped(layer: string, inner: Error)  // a CacheError around its cause

  function Cause(e: Error): Error {
    match e
    case Wrapped(_, inner) => Cause(inner)
    case _ => e
  }

  /** `errors.Is` against one of the sentinel values. */
  function Is(e: Error, target: Error): bool {
    e == target || (e.Wrapped? && Is(e.inner, target))
  }

  /** `Errno.Timeout()`. */
  function IsTimeout(errno: Errno): bool {
    errno == TimedOut || (errno.OtherErrno? && errno.timeout)
  }

  /** `errors.As` against net.Error, answering `Timeout()` of the error found. */
  function AsNetwork(e: Error): Option<bool> {
    match e
    case Network(timeout) => Some(timeout)
    case SystemCall(errno) => Some(IsTimeout(errno))
    case DeadlineExceeded => Some(true)
    case Wrapped(_, inner) => AsNetwork(inner)
    case _ => None
  }

  /** The system call errors that the retry loop means to repeat. */
  function IsSystemCall(e: Error): bool {
    Is(e, SystemCall(ConnectionRefused)) || Is(e, SystemCall(ConnectionReset)) || Is(e, SystemCall(TimedOut))
  }

  /** resilience.IsRetryable: decides whether the retry loop makes another attempt. */
  function IsRetryable(e: Error): bool {
    if Is(e, CircuitOpen) then false
    else if Is(e, BulkheadFull) || Is(e, BulkheadTimeout) then false
    else match AsNetwork(e)
      case Some(timeout) => timeout
      case None =>
        if IsSystemCall(e) then true
        else if Is(e, DeadlineExceeded) then true
        else true
  }

  /** What the policy itself refuses with is never repeated. */
  lemma RefusalsAreFinal()
    ensures !IsRetryable(CircuitOpen) && !IsRetryable(BulkheadFull) && !IsRetryable(BulkheadTimeout)
  {
  }

  /** types.IsRetryable: the classification published for callers. */
  function IsRetryableForCallers(e: Error): bool {
    !(Is(e, CacheMiss) || Is(e, CircuitOpen) || Is(e, ManagerClosed) || Is(e, InvalidKey))
  }

  lemma {:induction false} CauseDecides(e: Error, target: Error)
    requires !target.Wrapped?
    ensures Is(e, target) <==> Cause(e) == target
    ensures AsNetwork(e) == AsNetwork(Cause(e))
  {
    if e.Wrapped? {
      CauseDecides(e.inner, target);
    } else {
    }
  }

  lemma {:induction false} CauseIsBare(e: Error)
    ensures !Cause(e).Wrapped?
  {
    if e.Wrapped? {
      CauseIsBare(e.inner);
    } else {
    }
  }

  /**
   * The tests for system calls and deadlines are dead: what satisfies them implements net.Error, and
   * the test before them has decided. So a refused or a reset connection is not repeated, however
   * deep it is wrapped; one that timed out is.
   */
  lemma SystemCallTestIsDead(e: Error)
    ensures IsSystemCall(e) || Is(e, DeadlineExceeded) ==> AsNetwork(e).Some?
    ensures Is(e, SystemCall(ConnectionRefused)) || Is(e, SystemCall(ConnectionReset)) ==> !IsRetryable(e)
    ensures Is(e, SystemCall(TimedOut)) || Is(e, DeadlineExceeded) ==> IsRetryable(e)
    ensures forall timeout :: Is(e, SystemCall(OtherErrno(timeout))) || Is(e, Network(timeout)) ==>
              (IsRetryable(e) <==> timeout)
  {
    forall timeout
      ensures Is(e, SystemCall(OtherErrno(timeout))) <==> Cause(e) == SystemCall(OtherErrno(timeout))
      ensures Is(e, Network(timeout)) <==> Cause(e) == Network(timeout)
    {
      CauseDecides(e, SystemCall(OtherErrno(timeout)));
      CauseDecides(e, Network(timeout));
    }
    CauseDecides(e, SystemCall(ConnectionRefused));
    CauseDecides(e, SystemCall(ConnectionReset));
    CauseDecides(e, SystemCall(TimedOut));
    CauseDecides(e, DeadlineExceeded);
    CauseDecides(e, CircuitOpen);
    CauseDecides(e, BulkheadFull);
    CauseDecides(e, BulkheadTimeout);
  }

  /** An error that the test for net.Error takes and that did not time out. */
  predicate NotATimeout(cause: Error) {
    cause == Network(false) || (cause.SystemCall? && !IsTimeout(cause.errno))
  }

  /** Exactly these causes end a run at once; everything else is repeated. */
  lemma RetryableIff(e: Error)
    ensures IsRetryable(e) <==> Cause(e) !in {CircuitOpen, BulkheadFull, BulkheadTimeout} && !NotATimeout(Cause(e))
  {
    CauseIsBare(e);
    CauseDecides(e, CircuitOpen);
    CauseDecides(e, BulkheadFull);
    CauseDecides(e, BulkheadTimeout);
  }

  /**
   * The two classifications disagree on exactly these causes. In particular the retry loop repeats a
   * cache miss, which callers are told is not retryable, and does not repeat a refused connection,
   * which they are told is.
   */
  lemma ClassificationsDisagree(e: Error)
    ensures IsRetryable(e) && !IsRetryableForCallers(e) <==>
            Cause(e) in {CacheMiss, ManagerClosed, InvalidKey}
    ensures !IsRetryable(e) && IsRetryableForCallers(e) <==>
            Cause(e) in {BulkheadFull, BulkheadTimeout} || NotATimeout(Cause(e))
  {
    RetryableIff(e);
    CauseDecides(e, CacheMiss);
    CauseDecides(e, CircuitOpen);
    CauseDecides(e, ManagerClosed);
    CauseDecides(e, InvalidKey);
  }
}
