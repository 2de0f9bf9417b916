/**
 * The error delivered when starting a password reset fails: one case out of
 * five, an optional message, and a description that falls back to a fixed
 * string per case. Unlike the other error types it passes no identifier to
 * the base error.
 */
module ResetPasswordStartErrors {
  import opened Wrappers
  import opened NativeAuthErrors

  /** The closed case set, in declaration order. */
  datatype ResetPasswordStartErrorType =
    | BrowserRequired
    | GeneralError
    | UserDoesNotHavePassword
    | UserNotFound
    | InvalidUsername
  {
    /** The fixed description used when no message was given. */
    function DefaultDescription(): (s: string)
      ensures |s| > 0
    {
      match this
      case BrowserRequired => "Browser required"
      case GeneralError => "General error"
      case UserDoesNotHavePassword => "User does not have a password"
      case UserNotFound => "User not found"
      case InvalidUsername => "Invalid username"
    }
  }

  /** Recovers the case from its default description, if `s` is one. */
  function TypeFromDefaultDescription(s: string): (r: Option<ResetPasswordStartErrorType>)
    ensures r.Some? ==> r.value.DefaultDescription() == s
  {
    if s == "Browser required" then Some(BrowserRequired)
    else if s == "General error" then Some(GeneralError)
    else if s == "User does not have a password" then Some(UserDoesNotHavePassword)
    else if s == "User not found" then Some(UserNotFound)
    else if s == "Invalid username" then Some(InvalidUsername)
    else None
  }

  /** A reset-password-start error: its case and the base error it embeds. */
  datatype ResetPasswordStartError = ResetPasswordStartError(errorType: ResetPasswordStartErrorType, base: NativeAuthError) {

    /** The initialiser: stores the case and hands only the message to the base. */
    static function Init(errorType: ResetPasswordStartErrorType, message: Option<string> := None): (e: ResetPasswordStartError)
      ensures e.errorType == errorType
      ensures e.base.identifier.None? && e.base.message == message
    {
      ResetPasswordStartError(errorType, NativeAuthError(None, message))
    }

    /** The base description when there is one, otherwise the case's default; never `nil`. */
    function ErrorDescription(): (r: Option<string>)
      ensures r.Some?
      ensures base.ErrorDescription().None? ==> |r.value| > 0
      ensures base.ErrorDescription().Some? ==> r == base.ErrorDescription()
      ensures base.ErrorDescription().None? ==> r == Some(errorType.DefaultDescription())
    {
      match base.ErrorDescription()
      case Some(description) => Some(description)
      case None => Some(errorType.DefaultDescription())
    }
  }

  /** Without a message, the descriptions are exactly these five strings. */
  lemma DefaultDescriptions()
    ensures ResetPasswordStartError.Init(BrowserRequired).ErrorDescription() == Some("Browser required")
    ensures ResetPasswordStartError.Init(GeneralError).ErrorDescription() == Some("General error")
    ensures ResetPasswordStartError.Init(UserDoesNotHavePassword).ErrorDescription() == Some("User does not have a password")
    ensures ResetPasswordStartError.Init(UserNotFound).ErrorDescription() == Some("User not found")
    ensures ResetPasswordStartError.Init(InvalidUsername).ErrorDescription() == Some("Invalid username")
  {
  }

  /** A supplied message is returned unchanged, whatever the case. */
  lemma MessageTakesPrecedence(t: ResetPasswordStartErrorType, message: string)
    ensures ResetPasswordStartError.Init(t, Some(message)).ErrorDescription() == Some(message)
  {
  }

  /** The default descriptions are pairwise distinct, so the case can be read back from one. */
  lemma DefaultDescriptionRoundTrip(t: ResetPasswordStartErrorType)
    ensures TypeFromDefaultDescription(t.DefaultDescription()) == Some(t)
  {
  }

  /** Distinct cases have distinct default descriptions. */
  lemma DefaultDescriptionsDistinct(t1: ResetPasswordStartErrorType, t2: ResetPasswordStartErrorType)
    ensures t1.DefaultDescription() == t2.DefaultDescription() <==> t1 == t2
  {
  }

  /** The case set has exactly five members, each with its own default. */
  lemma CaseSetClosed(t: ResetPasswordStartErrorType)
    ensures t in {BrowserRequired, GeneralError, UserDoesNotHavePassword, UserNotFound, InvalidUsername}
    ensures |{BrowserRequired, GeneralError, UserDoesNotHavePassword, UserNotFound, InvalidUsername}| == 5
  {
  }
}
