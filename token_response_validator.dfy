/**
 * The native-auth token-response validator: it turns the result of a call to
 * the token endpoint into either a validated success (account, token result,
 * raw response) or one error kind out of a closed list.
 *
 * The two collaborators the validator holds (the token-response handler and
 * the account-result factory) are foreign code; they are modelled as
 * functions returning `Option`, `None` standing for a handler that threw or a
 * factory that returned `nil`.
 */
module TokenResponseValidation {
  import opened Wrappers

  /** The request context; the validator only passes it to its collaborators. */
  datatype RequestContext = RequestContext(correlationId: string)

  /** The MSID configuration; the validator only passes it to the handler. */
  datatype Configuration = Configuration(authority: string, clientId: string)

  /** The claims of the parsed id token that the validator reads. */
  datatype IdTokenClaims = IdTokenClaims(username: Option<string>, uniqueId: Option<string>)

  /** A successful token-endpoint payload, with its parsed id token when there is one. */
  datatype TokenResponse = TokenResponse(
    tokenType: string,
    scope: string,
    accessToken: string,
    refreshToken: string,
    idToken: string,
    expiresIn: int,
    extExpiresIn: int,
    idTokenObj: Option<IdTokenClaims>)

  /** The account identifier the handler is asked to validate the response against. */
  datatype AccountIdentifier = AccountIdentifier(displayableId: Option<string>, homeAccountId: Option<string>)

  /** Everything the validator hands to the token-response handler in one call. */
  datatype HandleArguments = HandleArguments(
    context: RequestContext,
    accountIdentifier: AccountIdentifier,
    tokenResponse: TokenResponse,
    configuration: Configuration,
    validateAccount: bool)

  /** The top-level OAuth2 `error` codes of the token endpoint. */
  datatype TokenOauth2ErrorCode =
    | InvalidRequest
    | InvalidClient
    | InvalidGrant
    | ExpiredToken
    | ExpiredRefreshToken
    | UnsupportedChallengeType
    | InvalidScope
    | AuthorizationPending
    | SlowDown

  /** The structured error body of the token endpoint. */
  datatype TokenResponseError = TokenResponseError(
    error: TokenOauth2ErrorCode,
    errorDescription: Option<string>,
    errorCodes: Option<seq<int>>,
    errorURI: Option<string>)

  /**
   * The `Error` on the transport's failure path: either the structured token
   * error or an error of any other type (which the validator cannot inspect).
   */
  datatype TransportError =
    | StructuredTokenError(tokenError: TokenResponseError)
    | UnexpectedError(description: string)

  /** The transport result the validator is given: `Result<TokenResponse, Error>`. */
  datatype TransportResult =
    | TransportSuccess(response: TokenResponse)
    | TransportFailure(failure: TransportError)

  /** The closed list of error kinds a validated token response can carry. */
  datatype ValidatedErrorType =
    | InvalidServerResponse
    | InvalidRequest
    | InvalidClient
    | ExpiredToken
    | ExpiredRefreshToken
    | UnsupportedChallengeType
    | InvalidScope
    | AuthorizationPending
    | SlowDown
    | UserNotFound
    | InvalidPassword
    | InvalidAuthenticationType
    | InvalidOOBCode
    | StrongAuthRequired
    | GeneralError

  /** The six kinds the `invalid_grant` sub-code table (and its fallback) can produce. */
  const SubCodeKinds: set<ValidatedErrorType> := {
    ValidatedErrorType.UserNotFound, InvalidPassword, ValidatedErrorType.InvalidAuthenticationType,
    InvalidOOBCode, ValidatedErrorType.StrongAuthRequired, GeneralError}

  /** The validator's outcome; `T` is the token result, `A` the account result. */
  datatype ValidatedResponse<T, A> =
    | Success(userAccountResult: A, tokenResult: T, tokenResponse: TokenResponse)
    | Error(errorType: ValidatedErrorType)

  /** The numeric sub-codes the server sends along with `invalid_grant`. */
  datatype EstsApiErrorCode =
    | UserNotFound
    | InvalidCredentials
    | InvalidAuthenticationType
    | InvalidOTP
    | StrongAuthRequired
    | InvalidPasswordResetToken

  /**
   * The integer raw values of the six sub-codes, in declaration order. The
   * numbers themselves are not part of this model, so they are a parameter.
   */
  datatype EstsErrorCodeRawValues = EstsErrorCodeRawValues(
    userNotFound: int,
    invalidCredentials: int,
    invalidAuthenticationType: int,
    invalidOTP: int,
    strongAuthRequired: int,
    invalidPasswordResetToken: int)
  {
    /** The raw value of one sub-code. */
    function RawValue(code: EstsApiErrorCode): (n: int) {
      match code
      case UserNotFound => userNotFound
      case InvalidCredentials => invalidCredentials
      case InvalidAuthenticationType => invalidAuthenticationType
      case InvalidOTP => invalidOTP
      case StrongAuthRequired => strongAuthRequired
      case InvalidPasswordResetToken => invalidPasswordResetToken
    }

    /** An integer-backed enum has pairwise distinct raw values. */
    predicate Distinct() {
      forall c1: EstsApiErrorCode, c2: EstsApiErrorCode :: RawValue(c1) == RawValue(c2) ==> c1 == c2
    }

    /** The failable raw-value initialiser `EstsApiErrorCode(rawValue:)`. */
    function Init(n: int): (r: Option<EstsApiErrorCode>)
      ensures r.Some? ==> RawValue(r.value) == n
      ensures r.None? <==> forall c: EstsApiErrorCode :: RawValue(c) != n
    {
      if n == userNotFound then Some(EstsApiErrorCode.UserNotFound)
      else if n == invalidCredentials then Some(InvalidCredentials)
      else if n == invalidAuthenticationType then Some(EstsApiErrorCode.InvalidAuthenticationType)
      else if n == invalidOTP then Some(InvalidOTP)
      else if n == strongAuthRequired then Some(EstsApiErrorCode.StrongAuthRequired)
      else if n == invalidPasswordResetToken then Some(InvalidPasswordResetToken)
      else None
    }
  }

  /** The account identifier built from the response's id token (both parts absent without one). */
  function AccountIdentifierFor(tokenResponse: TokenResponse): (r: AccountIdentifier)
    ensures tokenResponse.idTokenObj.None? ==> r.displayableId.None? && r.homeAccountId.None?
    ensures tokenResponse.idTokenObj.Some? ==>
      r.displayableId == tokenResponse.idTokenObj.value.username &&
      r.homeAccountId == tokenResponse.idTokenObj.value.uniqueId
  {
    match tokenResponse.idTokenObj
    case None => AccountIdentifier(None, None)
    case Some(claims) => AccountIdentifier(claims.username, claims.uniqueId)
  }

  /** The arguments of the one handler call made for `tokenResponse`. */
  function HandleArgumentsFor(tokenResponse: TokenResponse, context: RequestContext, configuration: Configuration): (r: HandleArguments)
    ensures r.validateAccount
    ensures r.tokenResponse == tokenResponse && r.context == context && r.configuration == configuration
    ensures r.accountIdentifier == AccountIdentifierFor(tokenResponse)
  {
    HandleArguments(context, AccountIdentifierFor(tokenResponse), tokenResponse, configuration, true)
  }

  /** Maps a recognised `invalid_grant` sub-code to the error kind it stands for. */
  function ConvertErrorCodeToErrorType(code: EstsApiErrorCode): (r: ValidatedErrorType)
    ensures r in SubCodeKinds
  {
    match code
    case UserNotFound => ValidatedErrorType.UserNotFound
    case InvalidCredentials => InvalidPassword
    case InvalidAuthenticationType => ValidatedErrorType.InvalidAuthenticationType
    case InvalidOTP => InvalidOOBCode
    case StrongAuthRequired => ValidatedErrorType.StrongAuthRequired
    case InvalidPasswordResetToken => GeneralError
  }

  /** Swift's `errorCodes.compactMap(convertErrorCodeToApiErrorCode)`: the recognised sub-codes, in list order. */
  function RecognisedErrorCodes(raw: EstsErrorCodeRawValues, errorCodes: seq<int>): (r: seq<EstsApiErrorCode>)
    ensures |r| <= |errorCodes|
    ensures forall k :: 0 <= k < |r| ==> exists i :: 0 <= i < |errorCodes| && raw.Init(errorCodes[i]) == Some(r[k])
    ensures forall i :: 0 <= i < |errorCodes| && raw.Init(errorCodes[i]).Some? ==> raw.Init(errorCodes[i]).value in r
  {
    if errorCodes == [] then []
    else
      var rest := RecognisedErrorCodes(raw, errorCodes[1..]);
      assert forall i :: 1 <= i < |errorCodes| ==> errorCodes[i] == errorCodes[1..][i - 1];
      assert forall k :: 0 <= k < |rest| ==> exists i :: 0 <= i < |errorCodes| && raw.Init(errorCodes[i]) == Some(rest[k]) by {
        forall k | 0 <= k < |rest|
          ensures exists i :: 0 <= i < |errorCodes| && raw.Init(errorCodes[i]) == Some(rest[k])
        {
          var i :| 0 <= i < |errorCodes[1..]| && raw.Init(errorCodes[1..][i]) == Some(rest[k]);
          assert raw.Init(errorCodes[i + 1]) == Some(rest[k]);
        }
      }
      match raw.Init(errorCodes[0])
      case Some(code) => [code] + rest
      case None => rest
  }

  /**
   * The `invalid_grant` case: the first recognised sub-code decides the error
   * kind; a missing list, an empty list or one without a recognised code gives
   * `GeneralError`.
   */
  function HandleInvalidGrantErrorCodes<T, A>(raw: EstsErrorCodeRawValues, errorCodes: Option<seq<int>>): (r: ValidatedResponse<T, A>)
    ensures r.Error?
    ensures r.errorType in SubCodeKinds
  {
    var known := if errorCodes.Some? then RecognisedErrorCodes(raw, errorCodes.value) else [];
    if known != [] then Error(ConvertErrorCodeToErrorType(known[0]))
    else Error(GeneralError)
  }

  /** The failure path for a structured token error: a total case analysis on the top-level code. */
  function HandleFailedTokenResult<T, A>(raw: EstsErrorCodeRawValues, responseError: TokenResponseError): (r: ValidatedResponse<T, A>)
    ensures r.Error? && r.errorType != InvalidServerResponse
  {
    match responseError.error
    case InvalidRequest => Error(ValidatedErrorType.InvalidRequest)
    case InvalidClient => Error(ValidatedErrorType.InvalidClient)
    case InvalidGrant => HandleInvalidGrantErrorCodes(raw, responseError.errorCodes)
    case ExpiredToken => Error(ValidatedErrorType.ExpiredToken)
    case ExpiredRefreshToken => Error(ValidatedErrorType.ExpiredRefreshToken)
    case UnsupportedChallengeType => Error(ValidatedErrorType.UnsupportedChallengeType)
    case InvalidScope => Error(ValidatedErrorType.InvalidScope)
    case AuthorizationPending => Error(ValidatedErrorType.AuthorizationPending)
    case SlowDown => Error(ValidatedErrorType.SlowDown)
  }

  /**
   * The validator and its two immutable collaborators: the token-response
   * handler (`None` when it throws) and the account-result factory (`None`
   * when it returns `nil`).
   */
  datatype TokenResponseValidator<!T, A> = TokenResponseValidator(
    tokenResponseHandler: HandleArguments -> Option<T>,
    factory: (T, RequestContext) -> Option<A>)
  {
    /** Runs the handler on the response, with the account identifier taken from its id token. */
    function ValidateAndConvertTokenResponse(tokenResponse: TokenResponse, context: RequestContext, configuration: Configuration): (r: Option<T>)
      ensures r == tokenResponseHandler(HandleArguments(context, AccountIdentifierFor(tokenResponse), tokenResponse, configuration, true))
    {
      tokenResponseHandler(HandleArgumentsFor(tokenResponse, context, configuration))
    }

    /** Validates a transport result; total, so it never throws. */
    function Validate(raw: EstsErrorCodeRawValues, context: RequestContext, configuration: Configuration, result: TransportResult): (r: ValidatedResponse<T, A>)
      ensures r.Success? <==>
        result.TransportSuccess? &&
        ValidateAndConvertTokenResponse(result.response, context, configuration).Some? &&
        factory(ValidateAndConvertTokenResponse(result.response, context, configuration).value, context).Some?
      ensures r.Success? ==>
        r.tokenResponse == result.response &&
        ValidateAndConvertTokenResponse(result.response, context, configuration) == Some(r.tokenResult) &&
        factory(r.tokenResult, context) == Some(r.userAccountResult)
    {
      match result
      case TransportSuccess(tokenResponse) =>
        (match ValidateAndConvertTokenResponse(tokenResponse, context, configuration)
         case None => Error(InvalidServerResponse)
         case Some(tokenResult) =>
           (match factory(tokenResult, context)
            case None => Error(InvalidServerResponse)
            case Some(userAccountResult) => Success(userAccountResult, tokenResult, tokenResponse)))
      case TransportFailure(UnexpectedError(_)) => Error(InvalidServerResponse)
      case TransportFailure(StructuredTokenError(tokenResponseError)) => HandleFailedTokenResult(raw, tokenResponseError)
    }
  }
}
