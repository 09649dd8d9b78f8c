/** The Go errors that reach the resource manager, as far as it can tell them apart. */
module Errors {
  import opened Nullable

  /** Errors the code compares by identity. */
  datatype Sentinel = NotFound | SecretTypeNotSupported | SecretNotFound | Terminal | Ordinary

  /** An error of the AWS API: its code and its text. */
  datatype ApiError = ApiError(code: string, text: string)

  /**
   An error value: which sentinel it is, its text, the API error errors.As finds in its
   chain, and whether errors.As finds an *ackerr.TerminalError there.
   */
  datatype GoError = GoError(sentinel: Sentinel, text: string, api: Option<ApiError>, wrapsTerminal: bool)

  const NOT_FOUND := GoError(NotFound, "resource not found", None, false)
  const TERMINAL := GoError(Terminal, "resource is in terminal condition", None, false)

  function Plain(text: string): GoError {
    GoError(Ordinary, text, None, false)
  }

  /** terminalAWSError */
  predicate TerminalAwsError(err: Option<GoError>) {
    && err.Some?
    && err.value.api.Some?
    && err.value.api.value.code == "InvalidParameterException"
  }

  /** The secret sentinels and wrapped terminal errors: terminal whatever the API said. */
  predicate LocallyTerminal(err: GoError) {
    err.sentinel == SecretTypeNotSupported || err.sentinel == SecretNotFound || err.wrapsTerminal
  }

  predicate IsTerminal(err: Option<GoError>) {
    TerminalAwsError(err) || (err.Some? && LocallyTerminal(err.value))
  }
}
