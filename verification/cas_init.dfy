/** The initialisation guard that opens `checkPassword` and `getDisplayName`:
    when the application service reports CAS as not initialised, call its
    `init()`, and turn a "phpCAS library not found" exception into a logged
    error instead of letting it reach the host. */
module CasInit {

  /** What `AppService::init()` does when the guard calls it. The service is
      a collaborator: `Completed(b)` means it returned normally and the next
      `isCasInitialized()` answers `b`; `LibraryNotFound` is the exception the
      guard catches, after which CAS stays uninitialised. */
  datatype InitOutcome =
    | Completed(nowInitialized: bool)
    | LibraryNotFound(code: int, message: string)

  /** The two log levels the backend writes at. */
  datatype Severity = Error | Debug

  /** The entries the backend hands to its logging service. */
  datatype LogEvent =
    | InitFailed(code: int, message: string)  // "Fatal error with code: … and message: …"
    | PhpCasNotInitialized                    // "phpCAS has not been initialized."
    | PasswordChecked                         // "phpCAS user password has been checked."

  function SeverityOf(e: LogEvent): Severity {
    match e
    case PasswordChecked => Debug
    case _ => Error
  }

  /** What the guard leaves behind: whether CAS now counts as initialised,
      whether `init()` was called, and what was logged. */
  datatype GuardResult = GuardResult(initialized: bool, initAttempted: bool, log: seq<LogEvent>)

  /** The guard: `init()` only when not yet initialised, exceptions caught. */
  function EnsureInitialized(initializedBefore: bool, outcome: InitOutcome): (g: GuardResult)
    ensures g.initAttempted <==> !initializedBefore
    ensures initializedBefore ==> g.initialized && g.log == []
    ensures !initializedBefore ==>
              (g.initialized <==> outcome == Completed(true))
    ensures g.log != [] <==> !initializedBefore && outcome.LibraryNotFound?
    ensures g.log != [] ==>
              g.log == [InitFailed(outcome.code, outcome.message)] && SeverityOf(g.log[0]) == Error
  {
    if initializedBefore then
      GuardResult(true, false, [])
    else
      match outcome
      case Completed(now) => GuardResult(now, true, [])
      case LibraryNotFound(code, message) => GuardResult(false, true, [InitFailed(code, message)])
  }

  /** Running the guard a second time after a successful first run calls
      `init()` at most once in total and keeps CAS initialised. */
  lemma GuardIdempotent(before: bool, first: InitOutcome, second: InitOutcome)
    requires EnsureInitialized(before, first).initialized
    ensures var g2 := EnsureInitialized(EnsureInitialized(before, first).initialized, second);
            !g2.initAttempted && g2.initialized && g2.log == []
  {
  }

  /** A failure is not cached: after a run that leaves CAS uninitialised,
      the next run calls `init()` again and its outcome alone decides. */
  lemma GuardRetriesAfterFailure(before: bool, first: InitOutcome, second: InitOutcome)
    requires !EnsureInitialized(before, first).initialized
    ensures var g2 := EnsureInitialized(EnsureInitialized(before, first).initialized, second);
            g2.initAttempted && g2 == EnsureInitialized(false, second)
  {
  }
}
