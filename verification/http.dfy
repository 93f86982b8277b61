/** The HTTP status codes the handlers answer with. */
module Http {
  const OK := 200
  const CREATED := 201
  const NO_CONTENT := 204
  const UNAUTHORIZED := 401
  const NOT_FOUND := 404
  const CONFLICT := 409
  const UNPROCESSABLE := 422
  /** An exception the handler catches (a failed commit, rolled back) or one
      that escapes it (Flask then answers 500 as well). */
  const SERVER_ERROR := 500
}
