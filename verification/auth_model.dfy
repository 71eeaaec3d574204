/** The record shapes shared by the authentication service, the simulated
    backend and the pages: the body of an authentication response, the session
    state the service publishes, and the error an HTTP call fails with. */
module AuthModel {
  import opened Wrappers
  import opened Json

  /** `AuthResponse`: tokens and, optionally, the signed-in user. */
  datatype AuthResponse = AuthResponse(
    accessToken: string,
    refreshToken: Option<string>,
    user: Option<Record>)

  /** `AuthState`. The `user` is whatever JSON object the service was handed
      (a stored profile or decoded token claims). */
  datatype AuthState = AuthState(
    isAuthenticated: bool,
    user: Option<Record>,
    token: Option<string>,
    loading: bool,
    error: Option<string>)

  /** The state the service starts in and returns to on logout. */
  const SignedOut := AuthState(false, None, None, false, None)

  /** The `error` member of a failed HTTP call: either a client-side
      `ErrorEvent`, or the response body, whose `message` may be missing. */
  datatype ErrorPayload = ErrorEvent(eventMessage: string) | ErrorBody(bodyMessage: Option<string>)

  /** A failed HTTP call. A `status` of 0 stands for an absent status. */
  datatype HttpError = HttpError(status: int, payload: ErrorPayload)
}
