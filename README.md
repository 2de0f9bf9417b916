# Native-auth token validation and public error types, in Dafny

This project models two parts of the native-authentication SDK of the Microsoft
Authentication Library for iOS/macOS:

1. **The token-response validator** (`MSALNativeAuthTokenResponseValidator`). It
   takes the transport result of a call to the token endpoint and returns either
   `success(account, tokenResult, rawResponse)` or `error(kind)`, where `kind`
   comes from a closed list of fifteen error kinds. On the success path, the
   token-response handler and then the account-result factory must both succeed.
   On the failure path, an error of unexpected type becomes
   `invalidServerResponse`. Eight top-level OAuth2 codes map one-to-one to error
   kinds. For `invalid_grant`, the first recognised numeric sub-code in
   `error_codes` is looked up in a six-row table.
2. **Three public error types**: `RetrieveAccessTokenError`, `VerifyCodeError`
   and `ResetPasswordStartError`. Each one has a closed case enum, an optional
   message, an `errorDescription` that returns the message or else a fixed
   per-case default, and (for the first two) boolean predicates defined as
   `type == .case`.

All four source files are pure, so the model is made of datatypes, functions
and lemmas:

- `wrappers.dfy`: `Option`, standing for Swift's optionals.
- `token_response_validator.dfy`, module `TokenResponseValidation`: the
  validator's data model and its functions.
- `token_response_validator_properties.dfy`, module
  `TokenResponseValidatorProperties`: the lemmas about the validator.
- `native_auth_error.dfy`, module `NativeAuthErrors`: the base error record
  that every error type embeds, and the library's default messages.
- `retrieve_access_token_error.dfy`, `verify_code_error.dfy`,
  `reset_password_start_error.dfy`: one module per public error type.

Modelling choices:

- The validator's two collaborators are function-valued fields of the
  datatype `TokenResponseValidator<T, A>`. They are the token-response handler
  (`None` means it threw) and the account-result factory (`None` means it
  returned `nil`). `T` is the token result type and `A` the account result type.
- The integer raw values of `MSALNativeAuthESTSAPIErrorCodes` are not part of
  this model. They are a parameter, `EstsErrorCodeRawValues`. Its `Init` is the
  enum's failable `init(rawValue:)`. Swift requires an `Int` enum's raw values
  to be distinct; that is the predicate `Distinct()`, which `InitInvertsRawValue`
  and the lemmas that use it require.
- The base class `MSALNativeAuthError` is not part of this model. Its stored
  state is the record `NativeAuthError(identifier, message)`, and its
  `errorDescription` is taken to be the message.
- The `MSALNativeAuthErrorMessage` constants are not part of this model. They
  are the parameter record `ErrorMessages`.
- `type` is a Dafny keyword, so the stored case is the field `errorType`.
- Swift's `init` becomes the static function `Init` of each error datatype.
- `validateAndConvertTokenResponse` and `validate` use the collaborators, so
  they are members of `TokenResponseValidator`. The other private helpers do
  not, so they are module-level functions. They also drop the request
  context, which those helpers use only for logging.

## Model

| member | source | states |
|---|---|---|
| `TokenResponseValidation.TokenResponseValidator.Validate` | MSAL/src/native_auth/network/responses/validator/token/MSALNativeAuthTokenResponseValidator.swift:47-79 | total (no precondition, so it never throws); success exactly when the transport succeeded and both collaborators returned a value, and a success carries the factory's account, the handler's token result and the unchanged response |
| `TokenResponseValidation.TokenResponseValidator.ValidateAndConvertTokenResponse` | MSAL/src/native_auth/network/responses/validator/token/MSALNativeAuthTokenResponseValidator.swift:106-129 | the handler's outcome on the response, with the account identifier taken from the id token and `validateAccount` true; a throw is `None` |
| `TokenResponseValidation.AccountIdentifierFor` | MSAL/src/native_auth/network/responses/validator/token/MSALNativeAuthTokenResponseValidator.swift:112-113 | `displayableId` is the id token's username and `homeAccountId` its unique id; both are absent when there is no id token |
| `TokenResponseValidation.HandleArgumentsFor` | MSAL/src/native_auth/network/responses/validator/token/MSALNativeAuthTokenResponseValidator.swift:114-120 | the handler receives the context, the response and the configuration unchanged, the id-token account identifier, and `validateAccount` true |
| `TokenResponseValidation.HandleFailedTokenResult` | MSAL/src/native_auth/network/responses/validator/token/MSALNativeAuthTokenResponseValidator.swift:81-104 | a structured token error always yields an error, and never `invalidServerResponse` |
| `TokenResponseValidation.HandleInvalidGrantErrorCodes` | MSAL/src/native_auth/network/responses/validator/token/MSALNativeAuthTokenResponseValidator.swift:131-138 | `invalid_grant` always yields an error, and only one of the six kinds the sub-code table (or its fallback) can produce |
| `TokenResponseValidation.RecognisedErrorCodes` | MSAL/src/native_auth/network/responses/validator/token/MSALNativeAuthTokenResponseValidator.swift:132 | the `compactMap` keeps at most as many entries as the list has, each kept sub-code is what the initialiser gives for some entry of the list, and every recognised entry is kept |
| `TokenResponseValidation.EstsErrorCodeRawValues.Init` | MSAL/src/native_auth/network/responses/validator/token/MSALNativeAuthTokenResponseValidator.swift:140-147 | an integer is recognised exactly when it is the raw value of some sub-code, and the sub-code returned has that raw value |
| `TokenResponseValidation.ConvertErrorCodeToErrorType` | MSAL/src/native_auth/network/responses/validator/token/MSALNativeAuthTokenResponseValidator.swift:149-164 | every sub-code maps into the six-kind sub-code range |
| `TokenResponseValidatorProperties.HandlerFailureIsInvalidServerResponse` | MSAL/src/native_auth/network/responses/validator/token/MSALNativeAuthTokenResponseValidator.swift:54-60 | a throwing handler on a transport success gives `error(invalidServerResponse)` |
| `TokenResponseValidatorProperties.FactoryFailureIsInvalidServerResponse` | MSAL/src/native_auth/network/responses/validator/token/MSALNativeAuthTokenResponseValidator.swift:61-66 | a succeeding handler followed by a `nil` factory result gives `error(invalidServerResponse)` |
| `TokenResponseValidatorProperties.CollaboratorsSucceed` | MSAL/src/native_auth/network/responses/validator/token/MSALNativeAuthTokenResponseValidator.swift:67 | when both collaborators succeed, the result is `success` with exactly the factory's account, the handler's token result and the original response |
| `TokenResponseValidatorProperties.HandlerSeesIdTokenIdentity` | MSAL/src/native_auth/network/responses/validator/token/MSALNativeAuthTokenResponseValidator.swift:112-119 | the handler is consulted only on the argument with the id token's username and unique id (absent without an id token) and `validateAccount` true: two handlers that agree there give the same validation |
| `TokenResponseValidatorProperties.UnexpectedErrorIsInvalidServerResponse` | MSAL/src/native_auth/network/responses/validator/token/MSALNativeAuthTokenResponseValidator.swift:68-77 | a transport error that is not the structured token error gives `error(invalidServerResponse)` |
| `TokenResponseValidatorProperties.InvalidServerResponseExactly` | MSAL/src/native_auth/network/responses/validator/token/MSALNativeAuthTokenResponseValidator.swift:52-104 | `invalidServerResponse` arises if and only if a collaborator fails on the success path or the error has an unexpected type; a structured token error never gives it |
| `TokenResponseValidatorProperties.TopLevelCodesMapOneToOne` | MSAL/src/native_auth/network/responses/validator/token/MSALNativeAuthTokenResponseValidator.swift:84-103 | each of the eight top-level codes other than `invalid_grant` gives its same-named error kind |
| `TokenResponseValidatorProperties.TopLevelMappingInjective` | MSAL/src/native_auth/network/responses/validator/token/MSALNativeAuthTokenResponseValidator.swift:84-103 | outside `invalid_grant`, two errors give the same result if and only if their top-level codes are equal (sub-codes, description and URI are ignored), and the kind is never one the sub-code path produces |
| `TokenResponseValidatorProperties.SubCodeTable` | MSAL/src/native_auth/network/responses/validator/token/MSALNativeAuthTokenResponseValidator.swift:149-164 | the sub-code table row by row: userNotFound, invalidCredentials to invalidPassword, invalidAuthenticationType, invalidOTP to invalidOOBCode, strongAuthRequired, invalidPasswordResetToken to generalError |
| `TokenResponseValidatorProperties.InitInvertsRawValue` | MSAL/src/native_auth/network/responses/validator/token/MSALNativeAuthTokenResponseValidator.swift:141 | with distinct raw values, the raw-value initialiser gives back every sub-code from its raw value |
| `TokenResponseValidatorProperties.RecognisedErrorCodesSingleton` | MSAL/src/native_auth/network/responses/validator/token/MSALNativeAuthTokenResponseValidator.swift:132 | the compact map of a one-entry list is that entry's sub-code when the initialiser recognises it, and empty otherwise |
| `TokenResponseValidatorProperties.RecognisedErrorCodesConcat` | MSAL/src/native_auth/network/responses/validator/token/MSALNativeAuthTokenResponseValidator.swift:132 | the compact map preserves list order: the map of a concatenation is the concatenation of the maps (by induction); with the one-entry case, the result is exactly the recognised entries in order |
| `TokenResponseValidatorProperties.FirstRecognisedCodeLeads` | MSAL/src/native_auth/network/responses/validator/token/MSALNativeAuthTokenResponseValidator.swift:132 | `compactMap(...).first` is the sub-code of the first recognised entry in list order; the unrecognised entries before it are skipped (by induction) |
| `TokenResponseValidatorProperties.NoRecognisedCode` | MSAL/src/native_auth/network/responses/validator/token/MSALNativeAuthTokenResponseValidator.swift:132 | the compact-mapped list is empty if and only if no entry is recognised (by induction) |
| `TokenResponseValidatorProperties.InvalidGrantFirstMatchWins` | MSAL/src/native_auth/network/responses/validator/token/MSALNativeAuthTokenResponseValidator.swift:131-133 | for `invalid_grant`, the first recognised entry of `error_codes` decides the error kind through the sub-code table |
| `TokenResponseValidatorProperties.InvalidGrantFallsBackToGeneralError` | MSAL/src/native_auth/network/responses/validator/token/MSALNativeAuthTokenResponseValidator.swift:131-137 | for `invalid_grant`, a nil, empty or wholly unrecognised `error_codes` list gives `error(generalError)` |
| `TokenResponseValidatorProperties.InvalidGrantSpecificKindHasRecognisedCode` | MSAL/src/native_auth/network/responses/validator/token/MSALNativeAuthTokenResponseValidator.swift:131-138 | conversely, `invalid_grant` gives a kind other than `generalError` only when the list is present and has a recognised entry that maps to that kind |
| `TokenResponseValidatorProperties.UnknownThenInvalidCredentialsIsInvalidPassword` | MSAL/src/native_auth/network/responses/validator/token/MSALNativeAuthTokenResponseValidator.swift:131-164 | `invalid_grant` with sub-codes `[unknown, invalidCredentials]` gives `error(invalidPassword)` |
| `RetrieveAccessTokenErrors.RetrieveAccessTokenErrorType.RawValue` | MSAL/src/native_auth/public/state_machine/error/RetrieveAccessTokenError.swift:71-76 | the raw value of every case lies in 0..3 |
| `RetrieveAccessTokenErrors.TypeFromRawValue` | MSAL/src/native_auth/public/state_machine/error/RetrieveAccessTokenError.swift:71-76 | exactly the integers 0..3 name a case, and the case named has that raw value |
| `RetrieveAccessTokenErrors.RetrieveAccessTokenError.Init` | MSAL/src/native_auth/public/state_machine/error/RetrieveAccessTokenError.swift:31-34 | the stored type is the argument, the base identifier is the type's raw value, and the base message is the given message |
| `RetrieveAccessTokenErrors.RetrieveAccessTokenError.ErrorDescription` | MSAL/src/native_auth/public/state_machine/error/RetrieveAccessTokenError.swift:37-52 | never nil; the base description when there is one, whatever the type, and otherwise the type's fixed default |
| `RetrieveAccessTokenErrors.RetrieveAccessTokenErrorType.DefaultDescription` | MSAL/src/native_auth/public/state_machine/error/RetrieveAccessTokenError.swift:42-51 | the default of every case is one of the library's browser-required, refresh-token-expired, token-not-found and general-error messages, and generalError uses the general-error message; `DefaultDescriptions` gives each case's message |
| `RetrieveAccessTokenErrors.RetrieveAccessTokenError.IsBrowserRequired` | MSAL/src/native_auth/public/state_machine/error/RetrieveAccessTokenError.swift:55-57 | on an initialised error, holds exactly when the base identifier is 0; `PredicatesFollowType` proves it holds iff the type is browserRequired |
| `RetrieveAccessTokenErrors.RetrieveAccessTokenError.IsRefreshTokenExpired` | MSAL/src/native_auth/public/state_machine/error/RetrieveAccessTokenError.swift:60-62 | on an initialised error, holds exactly when the base identifier is 1; `PredicatesFollowType` proves it holds iff the type is refreshTokenExpired |
| `RetrieveAccessTokenErrors.RetrieveAccessTokenError.IsTokenNotFound` | MSAL/src/native_auth/public/state_machine/error/RetrieveAccessTokenError.swift:65-67 | on an initialised error, holds exactly when the base identifier is 2; `PredicatesFollowType` proves it holds iff the type is tokenNotFound |
| `RetrieveAccessTokenErrors.RawValueRoundTrip` | MSAL/src/native_auth/public/state_machine/error/RetrieveAccessTokenError.swift:71-76 | raw values are 0..3 in declaration order, and the raw-value initialiser inverts them |
| `RetrieveAccessTokenErrors.IdentifierDeterminesType` | MSAL/src/native_auth/public/state_machine/error/RetrieveAccessTokenError.swift:31-34 | the base identifier of an initialised error gives back its type |
| `RetrieveAccessTokenErrors.MessageTakesPrecedence` | MSAL/src/native_auth/public/state_machine/error/RetrieveAccessTokenError.swift:37-40 | a message given to the initialiser is the description, unchanged, for every type |
| `RetrieveAccessTokenErrors.DefaultDescriptions` | MSAL/src/native_auth/public/state_machine/error/RetrieveAccessTokenError.swift:42-51 | without a message, browserRequired, refreshTokenExpired, tokenNotFound and generalError each describe themselves with their own default message |
| `RetrieveAccessTokenErrors.PredicatesFollowType` | MSAL/src/native_auth/public/state_machine/error/RetrieveAccessTokenError.swift:55-67 | `isBrowserRequired`, `isRefreshTokenExpired` and `isTokenNotFound` each hold if and only if the type is their case |
| `RetrieveAccessTokenErrors.PredicatesExclusive` | MSAL/src/native_auth/public/state_machine/error/RetrieveAccessTokenError.swift:55-76 | at most one predicate holds, and all three are false exactly for generalError |
| `RetrieveAccessTokenErrors.PredicatesIgnoreMessage` | MSAL/src/native_auth/public/state_machine/error/RetrieveAccessTokenError.swift:31-67 | the predicates depend on the type only, never on the message |
| `VerifyCodeErrors.VerifyCodeErrorType.RawValue` | MSAL/src/native_auth/public/state_machine/error/VerifyCodeError.swift:64-68 | the raw value of every case lies in 0..2 |
| `VerifyCodeErrors.TypeFromRawValue` | MSAL/src/native_auth/public/state_machine/error/VerifyCodeError.swift:64-68 | exactly the integers 0..2 name a case, and the case named has that raw value |
| `VerifyCodeErrors.VerifyCodeError.Init` | MSAL/src/native_auth/public/state_machine/error/VerifyCodeError.swift:31-34 | the stored type is the argument, the base identifier is the type's raw value, and the base message is the given message |
| `VerifyCodeErrors.VerifyCodeError.ErrorDescription` | MSAL/src/native_auth/public/state_machine/error/VerifyCodeError.swift:37-50 | never nil; the base description when there is one, whatever the type, and otherwise the type's fixed default |
| `VerifyCodeErrors.VerifyCodeErrorType.DefaultDescription` | MSAL/src/native_auth/public/state_machine/error/VerifyCodeError.swift:42-49 | the default of every case is one of the library's browser-required, invalid-code and general-error messages, and generalError uses the general-error message; `DefaultDescriptions` gives each case's message |
| `VerifyCodeErrors.VerifyCodeError.IsBrowserRequired` | MSAL/src/native_auth/public/state_machine/error/VerifyCodeError.swift:53-55 | on an initialised error, holds exactly when the base identifier is 0; `PredicatesFollowType` proves it holds iff the type is browserRequired |
| `VerifyCodeErrors.VerifyCodeError.IsInvalidCode` | MSAL/src/native_auth/public/state_machine/error/VerifyCodeError.swift:58-60 | on an initialised error, holds exactly when the base identifier is 1; `PredicatesFollowType` proves it holds iff the type is invalidCode |
| `VerifyCodeErrors.RawValueRoundTrip` | MSAL/src/native_auth/public/state_machine/error/VerifyCodeError.swift:64-68 | raw values are 0..2 in declaration order, and the raw-value initialiser inverts them |
| `VerifyCodeErrors.IdentifierDeterminesType` | MSAL/src/native_auth/public/state_machine/error/VerifyCodeError.swift:31-34 | the base identifier of an initialised error gives back its type |
| `VerifyCodeErrors.MessageTakesPrecedence` | MSAL/src/native_auth/public/state_machine/error/VerifyCodeError.swift:37-40 | a message given to the initialiser is the description, unchanged, for every type |
| `VerifyCodeErrors.DefaultDescriptions` | MSAL/src/native_auth/public/state_machine/error/VerifyCodeError.swift:42-49 | without a message, browserRequired, invalidCode and generalError each describe themselves with their own default message |
| `VerifyCodeErrors.PredicatesFollowType` | MSAL/src/native_auth/public/state_machine/error/VerifyCodeError.swift:53-60 | `isBrowserRequired` and `isInvalidCode` each hold if and only if the type is their case |
| `VerifyCodeErrors.PredicatesExclusive` | MSAL/src/native_auth/public/state_machine/error/VerifyCodeError.swift:53-68 | the two predicates never hold together, and both are false exactly for generalError |
| `VerifyCodeErrors.InvalidCodePredicates` | MSAL/src/native_auth/public/state_machine/error/VerifyCodeError.swift:31-60 | an invalidCode error answers `isInvalidCode` true and `isBrowserRequired` false, whatever its message |
| `ResetPasswordStartErrors.ResetPasswordStartErrorType.DefaultDescription` | MSAL/src/native_auth/public/state_machine/error/ResetPasswordStartError.swift:42-53 | every default description is non-empty |
| `ResetPasswordStartErrors.TypeFromDefaultDescription` | MSAL/src/native_auth/public/state_machine/error/ResetPasswordStartError.swift:42-53 | no source function does this: it is a proof-side inverse of the `errorDescription` switch, there only to state that each case can be recovered from its default description; a recognised string is the default description of the case returned |
| `ResetPasswordStartErrors.ResetPasswordStartError.Init` | MSAL/src/native_auth/public/state_machine/error/ResetPasswordStartError.swift:32-35 | the stored type is the argument; only the message goes to the base, with no identifier |
| `ResetPasswordStartErrors.ResetPasswordStartError.ErrorDescription` | MSAL/src/native_auth/public/state_machine/error/ResetPasswordStartError.swift:37-54 | never nil; the base description when there is one, and otherwise the type's non-empty default |
| `ResetPasswordStartErrors.DefaultDescriptions` | MSAL/src/native_auth/public/state_machine/error/ResetPasswordStartError.swift:42-53 | without a message the descriptions are exactly "Browser required", "General error", "User does not have a password", "User not found" and "Invalid username" |
| `ResetPasswordStartErrors.MessageTakesPrecedence` | MSAL/src/native_auth/public/state_machine/error/ResetPasswordStartError.swift:37-40 | a message given to the initialiser is the description, unchanged, for every type |
| `ResetPasswordStartErrors.DefaultDescriptionRoundTrip` | MSAL/src/native_auth/public/state_machine/error/ResetPasswordStartError.swift:43-53 | the case can be recovered from its default description |
| `ResetPasswordStartErrors.DefaultDescriptionsDistinct` | MSAL/src/native_auth/public/state_machine/error/ResetPasswordStartError.swift:43-53 | two cases have the same default description if and only if they are the same case |
| `ResetPasswordStartErrors.CaseSetClosed` | MSAL/src/native_auth/public/state_machine/error/ResetPasswordStartError.swift:58-64 | the case set is closed and has exactly five members |

## Left out

- Logging: the `MSALLogger.log` calls in the validator are fire-and-forget and do not affect any result, so they are not modelled.
- The internals of `tokenResponseHandler.handle`, `factory.makeUserAccountResult` and `MSIDTokenResponse.idTokenObj` are foreign code. The two collaborators are arbitrary functions returning `Option`, and the parsed id token is the field `idTokenObj`.
- The request context and the MSID configuration are opaque records with a few fields. The validator only passes them on.
- The numeric raw values of `MSALNativeAuthESTSAPIErrorCodes` are not part of this model. They are the parameter `EstsErrorCodeRawValues`.
- `MSALNativeAuthError` and the `MSALNativeAuthErrorMessage` constants are not part of this model. The wording of the defaults for `RetrieveAccessTokenError` and `VerifyCodeError` is a parameter, so those defaults are not proved non-empty or distinct.
- The reset-password, sign-in and sign-up flow controllers, their state objects and their delegate protocols are not modelled.
- `MSALNativeAuthResponseErrorHandler` (JSON decoding of the error body and delegation to the foreign request error handler), the telemetry provider, the sample app's view controller and the integration tests are transport, telemetry, UI and test code. They are not modelled.
- An error of kind `slowDown` (or any other kind) carries only its kind: `.error(.slowDown)` in the validator drops `error_description` and `error_uri`.
- A message supplied to an error initialiser is returned as given, even when it is empty. So a non-empty description is guaranteed only for the per-case defaults of `ResetPasswordStartError`.
