/**
 * The error delivered when submitting a one-time code fails: one case out of
 * three, an optional message, a description that falls back to a fixed
 * per-case message, and two predicates derived from the case alone.
 */
module VerifyCodeErrors {
  import opened Wrappers
  import opened NativeAuthErrors

  /** The closed case set, in declaration order. */
  datatype VerifyCodeErrorType = BrowserRequired | InvalidCode | GeneralError {

    /** The implicit `Int` raw value: the position in declaration order. */
    function RawValue(): (n: int)
      ensures 0 <= n < 3
    {
      match this
      case BrowserRequired => 0
      case InvalidCode => 1
      case GeneralError => 2
    }

    /** The fixed description used when no message was given. */
    function DefaultDescription(messages: ErrorMessages): (s: string)
      ensures s in {messages.browserRequired, messages.invalidCode, messages.generalError}
      ensures this == GeneralError ==> s == messages.generalError
    {
      match this
      case BrowserRequired => messages.browserRequired
      case InvalidCode => messages.invalidCode
      case GeneralError => messages.generalError
    }
  }

  /** The failable raw-value initialiser of the case set. */
  function TypeFromRawValue(n: int): (r: Option<VerifyCodeErrorType>)
    ensures r.Some? <==> 0 <= n < 3
    ensures r.Some? ==> r.value.RawValue() == n
  {
    if n == 0 then Some(BrowserRequired)
    else if n == 1 then Some(InvalidCode)
    else if n == 2 then Some(GeneralError)
    else None
  }

  /** A verify-code error: its case and the base error it embeds. */
  datatype VerifyCodeError = VerifyCodeError(errorType: VerifyCodeErrorType, base: NativeAuthError) {

    /** The initialiser: stores the case and hands its raw value and the message to the base. */
    static function Init(errorType: VerifyCodeErrorType, message: Option<string> := None): (e: VerifyCodeError)
      ensures e.errorType == errorType
      ensures e.base.identifier == Some(errorType.RawValue()) && e.base.message == message
      ensures e.Valid()
    {
      VerifyCodeError(errorType, NativeAuthError(Some(errorType.RawValue()), message))
    }

    /** What every initialised error satisfies: the base identifier is the case's raw value. */
    predicate Valid() {
      base.identifier == Some(errorType.RawValue())
    }

    /** The base description when there is one, otherwise the case's default; never `nil`. */
    function ErrorDescription(messages: ErrorMessages): (r: Option<string>)
      ensures r.Some?
      ensures base.ErrorDescription().Some? ==> r == base.ErrorDescription()
      ensures base.ErrorDescription().None? ==> r == Some(errorType.DefaultDescription(messages))
    {
      match base.ErrorDescription()
      case Some(description) => Some(description)
      case None => Some(errorType.DefaultDescription(messages))
    }

    /** Whether the case is `BrowserRequired`; on an initialised error, whether the base identifier is 0. */
    predicate IsBrowserRequired()
      ensures Valid() ==> (IsBrowserRequired() <==> base.identifier == Some(0))
    {
      errorType == BrowserRequired
    }

    /** Whether the case is `InvalidCode`; on an initialised error, whether the base identifier is 1. */
    predicate IsInvalidCode()
      ensures Valid() ==> (IsInvalidCode() <==> base.identifier == Some(1))
    {
      errorType == InvalidCode
    }
  }

  /** The raw values are 0..2 in declaration order, and the initialiser inverts them. */
  lemma RawValueRoundTrip(t: VerifyCodeErrorType)
    ensures TypeFromRawValue(t.RawValue()) == Some(t)
    ensures t == BrowserRequired <==> t.RawValue() == 0
    ensures t == InvalidCode <==> t.RawValue() == 1
    ensures t == GeneralError <==> t.RawValue() == 2
  {
  }

  /** The identifier of an initialised error gives back its case. */
  lemma IdentifierDeterminesType(e: VerifyCodeError)
    requires e.Valid()
    ensures e.base.identifier.Some? && TypeFromRawValue(e.base.identifier.value) == Some(e.errorType)
  {
  }

  /** A supplied message is returned unchanged, whatever the case. */
  lemma MessageTakesPrecedence(t: VerifyCodeErrorType, message: string, messages: ErrorMessages)
    ensures VerifyCodeError.Init(t, Some(message)).ErrorDescription(messages) == Some(message)
  {
  }

  /** Without a message, each case falls back to its own default. */
  lemma DefaultDescriptions(messages: ErrorMessages)
    ensures VerifyCodeError.Init(BrowserRequired).ErrorDescription(messages) == Some(messages.browserRequired)
    ensures VerifyCodeError.Init(InvalidCode).ErrorDescription(messages) == Some(messages.invalidCode)
    ensures VerifyCodeError.Init(GeneralError).ErrorDescription(messages) == Some(messages.generalError)
  {
  }

  /** Each predicate holds exactly for its own case. */
  lemma PredicatesFollowType(e: VerifyCodeError)
    ensures e.IsBrowserRequired() <==> e.errorType == BrowserRequired
    ensures e.IsInvalidCode() <==> e.errorType == InvalidCode
  {
  }

  /** The two predicates never hold together, and neither holds for `GeneralError`. */
  lemma PredicatesExclusive(e: VerifyCodeError)
    ensures !(e.IsBrowserRequired() && e.IsInvalidCode())
    ensures e.errorType == GeneralError <==> !e.IsBrowserRequired() && !e.IsInvalidCode()
  {
  }

  /** An `InvalidCode` error answers `isInvalidCode` and not `isBrowserRequired`, whatever its message. */
  lemma InvalidCodePredicates(message: Option<string>)
    ensures VerifyCodeError.Init(InvalidCode, message).IsInvalidCode()
    ensures !VerifyCodeError.Init(InvalidCode, message).IsBrowserRequired()
  {
  }
}
