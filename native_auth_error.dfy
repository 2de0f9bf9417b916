/**
 * The part every public native-auth error shares: an optional numeric
 * identifier and an optional message. The base class itself is not part of
 * this model; its description is taken to be the message it was given.
 */
module NativeAuthErrors {
  import opened Wrappers

  /** The common record the per-operation error types embed. */
  datatype NativeAuthError = NativeAuthError(identifier: Option<int>, message: Option<string>) {

    /** The base description: the message, when one was supplied. */
    function ErrorDescription(): (d: Option<string>) {
      message
    }
  }

  /**
   * The library's fixed default error messages. Their wording is not part of
   * this model, so they are a parameter of the descriptions that use them.
   */
  datatype ErrorMessages = ErrorMessages(
    browserRequired: string,
    generalError: string,
    invalidCode: string,
    refreshTokenExpired: string,
    tokenNotFound: string)
}
