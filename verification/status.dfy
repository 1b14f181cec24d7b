/** The application status pairs (code, message) carried in every response
    envelope, and the HTTP status codes the core produces or inspects. */
module Status {

  datatype Res = Res(code: nat, msg: string)

  const OK: Res := Res(1000, "success")
  const SYS_ERROR: Res := Res(1010, "system error")
  const BAD_REQUEST: Res := Res(1011, "bad request")
  const UNAUTH: Res := Res(1012, "Unauthorized")
  const TIME_OUT: Res := Res(1013, "TIME_OUT")
  const UNKNOWN: Res := Res(1020, "UNKNOWN")

  // HTTP status codes (tide's StatusCode)
  const HTTP_OK: nat := 200
  const HTTP_BAD_REQUEST: nat := 400
  const HTTP_UNAUTHORIZED: nat := 401
  const HTTP_UNPROCESSABLE_ENTITY: nat := 422
  const HTTP_INTERNAL_SERVER_ERROR: nat := 500
}
