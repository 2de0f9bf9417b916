/**
 * The error delivered when retrieving an access token fails: one case out of
 * four, an optional message, a description that falls back to a fixed
 * per-case message, and three predicates derived from the case alone.
 */
module RetrieveAccessTokenErrors {
  import opened Wrappers
  import opened NativeAuthErrors

  /** The closed case set, in declaration order. */
  datatype RetrieveAccessTokenErrorType = BrowserRequired | RefreshTokenExpired | TokenNotFound | GeneralError {

    /** The implicit `Int` raw value: the position in declaration order. */
    function RawValue(): (n: int)
      ensures 0 <= n < 4
    {
      match this
      case BrowserRequired => 0
      case RefreshTokenExpired => 1
      case TokenNotFound => 2
      case GeneralError => 3
    }

    /** The fixed description used when no message was given. */
    function DefaultDescription(messages: ErrorMessages): (s: string)
      ensures s in {messages.browserRequired, messages.refreshTokenExpired, messages.tokenNotFound, messages.generalError}
      ensures this == GeneralError ==> s == messages.generalError
    {
      match this
      case BrowserRequired => messages.browserRequired
      case RefreshTokenExpired => messages.refreshTokenExpired
      case TokenNotFound => messages.tokenNotFound
      case GeneralError => messages.generalError
    }
  }

  /** The failable raw-value initialiser of the case set. */
  function TypeFromRawValue(n: int): (r: Option<RetrieveAccessTokenErrorType>)
    ensures r.Some? <==> 0 <= n < 4
    ensures r.Some? ==> r.value.RawValue() == n
  {
    if n == 0 then Some(BrowserRequired)
    else if n == 1 then Some(RefreshTokenExpired)
    else if n == 2 then Some(TokenNotFound)
    else if n == 3 then Some(GeneralError)
    else None
  }

  /** A retrieve-access-token error: its case and the base error it embeds. */
  datatype RetrieveAccessTokenError = RetrieveAccessTokenError(errorType: RetrieveAccessTokenErrorType, base: NativeAuthError) {

    /** The initialiser: stores the case and hands its raw value and the message to the base. */
    static function Init(errorType: RetrieveAccessTokenErrorType, message: Option<string> := None): (e: RetrieveAccessTokenError)
      ensures e.errorType == errorType
      ensures e.base.identifier == Some(errorType.RawValue()) && e.base.message == message
      ensures e.Valid()
    {
      RetrieveAccessTokenError(errorType, NativeAuthError(Some(errorType.RawValue()), message))
    }

    /** What every initialised error satisfies: the base identifier is the case's raw value. */
    predicate Valid() {
      base.identifier == Some(errorType.RawValue())
    }

    /** The base description when there is one, otherwise the case's default; never `nil`. */
    function ErrorDescription(messages: ErrorMessages): (r: Option<string>)
      ensures r.Some?
      ensures base.ErrorDescription().Some? ==> r == base.ErrorDescription()
      ensures base.ErrorDescription().None? ==> r == Some(errorType.DefaultDescription(messages))
    {
      match base.ErrorDescription()
      case Some(description) => Some(description)
      case None => Some(errorType.DefaultDescription(messages))
    }

    /** Whether the case is `BrowserRequired`; on an initialised error, whether the base identifier is 0. */
    predicate IsBrowserRequired()
      ensures Valid() ==> (IsBrowserRequired() <==> base.identifier == Some(0))
    {
      errorType == BrowserRequired
    }

    /** Whether the case is `RefreshTokenExpired`; on an initialised error, whether the base identifier is 1. */
    predicate IsRefreshTokenExpired()
      ensures Valid() ==> (IsRefreshTokenExpired() <==> base.identifier == Some(1))
    {
      errorType == RefreshTokenExpired
    }

    /** Whether the case is `TokenNotFound`; on an initialised error, whether the base identifier is 2. */
    predicate IsTokenNotFound()
      ensures Valid() ==> (IsTokenNotFound() <==> base.identifier == Some(2))
    {
      errorType == TokenNotFound
    }
  }

  /** The raw values are 0..3 in declaration order, and the initialiser inverts them. */
  lemma RawValueRoundTrip(t: RetrieveAccessTokenErrorType)
    ensures TypeFromRawValue(t.RawValue()) == Some(t)
    ensures t == BrowserRequired <==> t.RawValue() == 0
    ensures t == RefreshTokenExpired <==> t.RawValue() == 1
    ensures t == TokenNotFound <==> t.RawValue() == 2
    ensures t == GeneralError <==> t.RawValue() == 3
  {
  }

  /** The identifier of an initialised error gives back its case. */
  lemma IdentifierDeterminesType(e: RetrieveAccessTokenError)
    requires e.Valid()
    ensures e.base.identifier.Some? && TypeFromRawValue(e.base.identifier.value) == Some(e.errorType)
  {
  }

  /** A supplied message is returned unchanged, whatever the case. */
  lemma MessageTakesPrecedence(t: RetrieveAccessTokenErrorType, message: string, messages: ErrorMessages)
    ensures RetrieveAccessTokenError.Init(t, Some(message)).ErrorDescription(messages) == Some(message)
  {
  }

  /** Without a message, each case falls back to its own default. */
  lemma DefaultDescriptions(messages: ErrorMessages)
    ensures RetrieveAccessTokenError.Init(BrowserRequired).ErrorDescription(messages) == Some(messages.browserRequired)
    ensures RetrieveAccessTokenError.Init(RefreshTokenExpired).ErrorDescription(messages) == Some(messages.refreshTokenExpired)
    ensures RetrieveAccessTokenError.Init(TokenNotFound).ErrorDescription(messages) == Some(messages.tokenNotFound)
    ensures RetrieveAccessTokenError.Init(GeneralError).ErrorDescription(messages) == Some(messages.generalError)
  {
  }

  /** Each predicate holds exactly for its own case. */
  lemma PredicatesFollowType(e: RetrieveAccessTokenError)
    ensures e.IsBrowserRequired() <==> e.errorType == BrowserRequired
    ensures e.IsRefreshTokenExpired() <==> e.errorType == RefreshTokenExpired
    ensures e.IsTokenNotFound() <==> e.errorType == TokenNotFound
  {
  }

  /** At most one predicate holds, and none for `GeneralError`. */
  lemma PredicatesExclusive(e: RetrieveAccessTokenError)
    ensures !(e.IsBrowserRequired() && e.IsRefreshTokenExpired())
    ensures !(e.IsBrowserRequired() && e.IsTokenNotFound())
    ensures !(e.IsRefreshTokenExpired() && e.IsTokenNotFound())
    ensures e.errorType == GeneralError <==> !e.IsBrowserRequired() && !e.IsRefreshTokenExpired() && !e.IsTokenNotFound()
  {
  }

  /** The predicates depend on the case only, never on the message. */
  lemma PredicatesIgnoreMessage(t: RetrieveAccessTokenErrorType, m1: Option<string>, m2: Option<string>)
    ensures var e1, e2 := RetrieveAccessTokenError.Init(t, m1), RetrieveAccessTokenError.Init(t, m2);
      && (e1.IsBrowserRequired() <==> e2.IsBrowserRequired())
      && (e1.IsRefreshTokenExpired() <==> e2.IsRefreshTokenExpired())
      && (e1.IsTokenNotFound() <==> e2.IsTokenNotFound())
  {
  }
}
