/**
 * What the token-response validator promises: the collaborator failures and
 * unexpected errors that become `InvalidServerResponse`, the success payload,
 * the one-to-one table of top-level codes, and first-match-wins over the
 * `invalid_grant` sub-codes.
 */
module TokenResponseValidatorProperties {
  import opened Wrappers
  import opened TokenResponseValidation

  // ---------------------------------------------------------------------------
  // Success path
  // ---------------------------------------------------------------------------

  /** A handler that throws makes the whole validation `InvalidServerResponse`. */
  lemma HandlerFailureIsInvalidServerResponse<T, A>(
    v: TokenResponseValidator<T, A>, raw: EstsErrorCodeRawValues,
    context: RequestContext, configuration: Configuration, tokenResponse: TokenResponse)
    requires v.tokenResponseHandler(HandleArgumentsFor(tokenResponse, context, configuration)).None?
    ensures v.Validate(raw, context, configuration, TransportSuccess(tokenResponse)) == Error(InvalidServerResponse)
  {
  }

  /** A factory that returns `nil` after a successful handler call gives `InvalidServerResponse`. */
  lemma FactoryFailureIsInvalidServerResponse<T, A>(
    v: TokenResponseValidator<T, A>, raw: EstsErrorCodeRawValues,
    context: RequestContext, configuration: Configuration, tokenResponse: TokenResponse, tokenResult: T)
    requires v.tokenResponseHandler(HandleArgumentsFor(tokenResponse, context, configuration)) == Some(tokenResult)
    requires v.factory(tokenResult, context).None?
    ensures v.Validate(raw, context, configuration, TransportSuccess(tokenResponse)) == Error(InvalidServerResponse)
  {
  }

  /** When both collaborators succeed, the success carries their values and the response unchanged. */
  lemma CollaboratorsSucceed<T, A>(
    v: TokenResponseValidator<T, A>, raw: EstsErrorCodeRawValues,
    context: RequestContext, configuration: Configuration, tokenResponse: TokenResponse,
    tokenResult: T, account: A)
    requires v.tokenResponseHandler(HandleArgumentsFor(tokenResponse, context, configuration)) == Some(tokenResult)
    requires v.factory(tokenResult, context) == Some(account)
    ensures v.Validate(raw, context, configuration, TransportSuccess(tokenResponse)) == Success(account, tokenResult, tokenResponse)
  {
  }

  /**
   * The handler is consulted on exactly one argument: the response, with
   * `displayableId` the id token's username, `homeAccountId` its unique id
   * (both absent without an id token) and `validateAccount` set. Two handlers
   * that agree on that argument give the same validation.
   */
  lemma HandlerSeesIdTokenIdentity<T, A>(
    v1: TokenResponseValidator<T, A>, v2: TokenResponseValidator<T, A>, raw: EstsErrorCodeRawValues,
    context: RequestContext, configuration: Configuration, tokenResponse: TokenResponse)
    requires v1.factory == v2.factory
    requires
      var arguments := HandleArguments(context, AccountIdentifierFor(tokenResponse), tokenResponse, configuration, true);
      v1.tokenResponseHandler(arguments) == v2.tokenResponseHandler(arguments)
    ensures v1.Validate(raw, context, configuration, TransportSuccess(tokenResponse))
         == v2.Validate(raw, context, configuration, TransportSuccess(tokenResponse))
  {
  }

  // ---------------------------------------------------------------------------
  // Failure path
  // ---------------------------------------------------------------------------

  /** A transport error that is not the structured token error gives `InvalidServerResponse`. */
  lemma UnexpectedErrorIsInvalidServerResponse<T, A>(
    v: TokenResponseValidator<T, A>, raw: EstsErrorCodeRawValues,
    context: RequestContext, configuration: Configuration, description: string)
    ensures v.Validate(raw, context, configuration, TransportFailure(UnexpectedError(description))) == Error(InvalidServerResponse)
  {
  }

  /**
   * `InvalidServerResponse` arises exactly from a failing collaborator on the
   * success path or an unexpected error type on the failure path; never from
   * a structured token error.
   */
  lemma InvalidServerResponseExactly<T, A>(
    v: TokenResponseValidator<T, A>, raw: EstsErrorCodeRawValues,
    context: RequestContext, configuration: Configuration, result: TransportResult)
    ensures v.Validate(raw, context, configuration, result) == Error(InvalidServerResponse) <==>
      match result
      case TransportFailure(failure) => failure.UnexpectedError?
      case TransportSuccess(tokenResponse) =>
        var handled := v.tokenResponseHandler(HandleArgumentsFor(tokenResponse, context, configuration));
        handled.None? || v.factory(handled.value, context).None?
  {
  }

  /** Every top-level code other than `invalid_grant` maps to the same-named error kind. */
  lemma TopLevelCodesMapOneToOne<T, A>(
    v: TokenResponseValidator<T, A>, raw: EstsErrorCodeRawValues,
    context: RequestContext, configuration: Configuration, e: TokenResponseError)
    ensures var r := v.Validate(raw, context, configuration, TransportFailure(StructuredTokenError(e)));
      && (e.error == TokenOauth2ErrorCode.InvalidRequest ==> r == Error(ValidatedErrorType.InvalidRequest))
      && (e.error == TokenOauth2ErrorCode.InvalidClient ==> r == Error(ValidatedErrorType.InvalidClient))
      && (e.error == TokenOauth2ErrorCode.ExpiredToken ==> r == Error(ValidatedErrorType.ExpiredToken))
      && (e.error == TokenOauth2ErrorCode.ExpiredRefreshToken ==> r == Error(ValidatedErrorType.ExpiredRefreshToken))
      && (e.error == TokenOauth2ErrorCode.UnsupportedChallengeType ==> r == Error(ValidatedErrorType.UnsupportedChallengeType))
      && (e.error == TokenOauth2ErrorCode.InvalidScope ==> r == Error(ValidatedErrorType.InvalidScope))
      && (e.error == TokenOauth2ErrorCode.AuthorizationPending ==> r == Error(ValidatedErrorType.AuthorizationPending))
      && (e.error == TokenOauth2ErrorCode.SlowDown ==> r == Error(ValidatedErrorType.SlowDown))
  {
  }

  /**
   * Outside `invalid_grant` the mapping is injective and looks at nothing but
   * the top-level code (not the sub-codes, description or URI), and the kinds
   * it yields are never ones the `invalid_grant` path can yield.
   */
  lemma TopLevelMappingInjective<T, A>(
    v: TokenResponseValidator<T, A>, raw: EstsErrorCodeRawValues,
    context: RequestContext, configuration: Configuration, e1: TokenResponseError, e2: TokenResponseError)
    requires e1.error != InvalidGrant && e2.error != InvalidGrant
    ensures var r1 := v.Validate(raw, context, configuration, TransportFailure(StructuredTokenError(e1)));
      var r2 := v.Validate(raw, context, configuration, TransportFailure(StructuredTokenError(e2)));
      (r1 == r2 <==> e1.error == e2.error)
    ensures var r1 := v.Validate(raw, context, configuration, TransportFailure(StructuredTokenError(e1)));
      r1.Error? && r1.errorType !in SubCodeKinds
  {
  }

  // ---------------------------------------------------------------------------
  // invalid_grant and its sub-codes
  // ---------------------------------------------------------------------------

  /** The sub-code table, row by row. */
  lemma SubCodeTable()
    ensures ConvertErrorCodeToErrorType(EstsApiErrorCode.UserNotFound) == ValidatedErrorType.UserNotFound
    ensures ConvertErrorCodeToErrorType(InvalidCredentials) == InvalidPassword
    ensures ConvertErrorCodeToErrorType(EstsApiErrorCode.InvalidAuthenticationType) == ValidatedErrorType.InvalidAuthenticationType
    ensures ConvertErrorCodeToErrorType(InvalidOTP) == InvalidOOBCode
    ensures ConvertErrorCodeToErrorType(EstsApiErrorCode.StrongAuthRequired) == ValidatedErrorType.StrongAuthRequired
    ensures ConvertErrorCodeToErrorType(InvalidPasswordResetToken) == GeneralError
  {
  }

  /** With distinct raw values, the raw-value initialiser inverts `RawValue`. */
  lemma InitInvertsRawValue(raw: EstsErrorCodeRawValues, code: EstsApiErrorCode)
    requires raw.Distinct()
    ensures raw.Init(raw.RawValue(code)) == Some(code)
  {
  }

  /** The compact map of a one-entry list: the entry's sub-code when it is recognised, else nothing. */
  lemma RecognisedErrorCodesSingleton(raw: EstsErrorCodeRawValues, n: int)
    ensures RecognisedErrorCodes(raw, [n]) == if raw.Init(n).Some? then [raw.Init(n).value] else []
  {
  }

  /**
   * The compact map keeps list order: mapping a concatenation is concatenating
   * the maps. With the one-entry case, this fixes the result as exactly the
   * recognised entries' sub-codes, in list order.
   */
  lemma {:induction false} RecognisedErrorCodesConcat(raw: EstsErrorCodeRawValues, front: seq<int>, back: seq<int>)
    ensures RecognisedErrorCodes(raw, front + back) == RecognisedErrorCodes(raw, front) + RecognisedErrorCodes(raw, back)
  {
    if front == [] {
      assert front + back == back;
    } else {
      assert (front + back)[0] == front[0];
      assert (front + back)[1..] == front[1..] + back;
      RecognisedErrorCodesConcat(raw, front[1..], back);
    }
  }

  /** The compact-mapped list starts with the sub-code of the first recognised entry. */
  lemma {:induction false} FirstRecognisedCodeLeads(raw: EstsErrorCodeRawValues, errorCodes: seq<int>, i: nat)
    requires i < |errorCodes| && raw.Init(errorCodes[i]).Some?
    requires forall j :: 0 <= j < i ==> raw.Init(errorCodes[j]).None?
    ensures RecognisedErrorCodes(raw, errorCodes) != []
    ensures RecognisedErrorCodes(raw, errorCodes)[0] == raw.Init(errorCodes[i]).value
  {
    if i > 0 {
      assert raw.Init(errorCodes[0]).None?;
      assert RecognisedErrorCodes(raw, errorCodes) == RecognisedErrorCodes(raw, errorCodes[1..]);
      FirstRecognisedCodeLeads(raw, errorCodes[1..], i - 1);
    }
  }

  /** The compact-mapped list is empty exactly when no entry is recognised. */
  lemma {:induction false} NoRecognisedCode(raw: EstsErrorCodeRawValues, errorCodes: seq<int>)
    ensures RecognisedErrorCodes(raw, errorCodes) == [] <==>
      forall j :: 0 <= j < |errorCodes| ==> raw.Init(errorCodes[j]).None?
  {
    if errorCodes != [] {
      NoRecognisedCode(raw, errorCodes[1..]);
      assert forall j :: 1 <= j < |errorCodes| ==> errorCodes[j] == errorCodes[1..][j - 1];
    }
  }

  /**
   * First match wins: for `invalid_grant`, the first entry of `error_codes`
   * that is a recognised sub-code decides the error kind; the entries before
   * it are skipped.
   */
  lemma InvalidGrantFirstMatchWins<T, A>(
    v: TokenResponseValidator<T, A>, raw: EstsErrorCodeRawValues,
    context: RequestContext, configuration: Configuration, e: TokenResponseError, i: nat)
    requires e.error == InvalidGrant && e.errorCodes.Some?
    requires i < |e.errorCodes.value| && raw.Init(e.errorCodes.value[i]).Some?
    requires forall j :: 0 <= j < i ==> raw.Init(e.errorCodes.value[j]).None?
    ensures v.Validate(raw, context, configuration, TransportFailure(StructuredTokenError(e)))
         == Error(ConvertErrorCodeToErrorType(raw.Init(e.errorCodes.value[i]).value))
  {
    FirstRecognisedCodeLeads(raw, e.errorCodes.value, i);
  }

  /** A missing, empty or wholly unrecognised `error_codes` list makes `invalid_grant` a `GeneralError`. */
  lemma InvalidGrantFallsBackToGeneralError<T, A>(
    v: TokenResponseValidator<T, A>, raw: EstsErrorCodeRawValues,
    context: RequestContext, configuration: Configuration, e: TokenResponseError)
    requires e.error == InvalidGrant
    requires e.errorCodes.Some? ==> forall j :: 0 <= j < |e.errorCodes.value| ==> raw.Init(e.errorCodes.value[j]).None?
    ensures v.Validate(raw, context, configuration, TransportFailure(StructuredTokenError(e))) == Error(GeneralError)
  {
  }

  /**
   * Conversely, `invalid_grant` yields a kind other than `GeneralError` only
   * through a recognised entry in the list, one that maps to that kind.
   */
  lemma InvalidGrantSpecificKindHasRecognisedCode<T, A>(
    v: TokenResponseValidator<T, A>, raw: EstsErrorCodeRawValues,
    context: RequestContext, configuration: Configuration, e: TokenResponseError)
    requires e.error == InvalidGrant
    requires v.Validate(raw, context, configuration, TransportFailure(StructuredTokenError(e))) != Error(GeneralError)
    ensures e.errorCodes.Some?
    ensures exists i ::
      && 0 <= i < |e.errorCodes.value|
      && raw.Init(e.errorCodes.value[i]).Some?
      && v.Validate(raw, context, configuration, TransportFailure(StructuredTokenError(e)))
         == Error(ConvertErrorCodeToErrorType(raw.Init(e.errorCodes.value[i]).value))
  {
  }

  /** An unknown code followed by `invalidCredentials` gives `InvalidPassword`. */
  lemma UnknownThenInvalidCredentialsIsInvalidPassword<T, A>(
    v: TokenResponseValidator<T, A>, raw: EstsErrorCodeRawValues,
    context: RequestContext, configuration: Configuration, unknown: int,
    description: Option<string>, uri: Option<string>)
    requires raw.Distinct()
    requires forall c: EstsApiErrorCode :: raw.RawValue(c) != unknown
    ensures var e := TokenResponseError(InvalidGrant, description, Some([unknown, raw.invalidCredentials]), uri);
      v.Validate(raw, context, configuration, TransportFailure(StructuredTokenError(e))) == Error(InvalidPassword)
  {
    var e := TokenResponseError(InvalidGrant, description, Some([unknown, raw.invalidCredentials]), uri);
    InitInvertsRawValue(raw, InvalidCredentials);
    InvalidGrantFirstMatchWins(v, raw, context, configuration, e, 1);
  }
}
