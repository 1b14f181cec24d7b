/** The JSON envelope every handler answers with, and the `responser`
    middleware that turns failed responses into envelopes.

    A response is modelled by its HTTP status, its envelope body (absent for a
    response tide built from an error) and the error attached to it. An error
    a handler propagates with `?` becomes such a response; its status is the
    error's status. */
module Responser {
  import opened Wrappers
  import opened Status

  datatype Envelope<T> = Envelope(code: nat, data: Option<T>, msg: string)

  datatype Response<T> = Response(status: nat, body: Option<Envelope<T>>, error: Option<string>)

  /** `Responser::new`: the code and message come from the status pair, the
      payload from the argument. */
  function New<T>(t: Option<T>, res: Res): (e: Envelope<T>)
    ensures e.code == res.code && e.msg == res.msg && e.data == t
  {
    Envelope(res.code, t, res.msg)
  }

  /** `Responser::to_result`: always HTTP 200 with the envelope as body; the
      logical outcome is carried only by the envelope's code. */
  function ToResult<T>(e: Envelope<T>): (r: Response<T>)
    ensures r.status == HTTP_OK && r.error == None
    ensures r.body == Some(e)
  {
    Response(HTTP_OK, Some(e), None)
  }

  /** The response tide builds from an error that a handler returns. */
  function Failure<T>(status: nat, message: string): (r: Response<T>)
    ensures r.status == status && r.body == None && r.error == Some(message)
  {
    Response(status, None, Some(message))
  }

  /** The answer of the `responser` middleware: the incoming response (with any
      error taken out of it), or a fresh envelope whose payload is a string. */
  datatype Mapped<T> = PassedOn(passed: Response<T>) | Replaced(replacement: Response<string>)

  const FALLBACK_MESSAGE: string := "UNKNOWN错误，请查看日志"

  /** The status pair and payload a failed response of HTTP status `status` is
      mapped to, given the message the middleware extracted. */
  function ErrorEnvelope(status: nat, msg: string): Envelope<string>
    requires status != HTTP_OK
  {
    if status == HTTP_INTERNAL_SERVER_ERROR then New(Some(msg), SYS_ERROR)
    else if status == HTTP_UNPROCESSABLE_ENTITY then New(Some("请求参数有误"), SYS_ERROR)
    else if status == HTTP_UNAUTHORIZED then New(Some(msg), UNAUTH)
    else if status == HTTP_BAD_REQUEST then New(Some(msg), BAD_REQUEST)
    else New(Some("UNKNOWN"), UNKNOWN)
  }

  /** `responser` as written. The first `take_error` removes the error from
      the response, so the second one finds none. The message handed to the
      envelope is therefore always the fallback text, which statuses 500, 401
      and 400 show; 422 shows its fixed "请求参数有误" and any other status
      "UNKNOWN". */
  function Respond<T>(res: Response<T>): (m: Mapped<T>)
    ensures res.error.None? ==> m == PassedOn(res)
    ensures res.error.Some? && res.status == HTTP_OK ==> m == PassedOn(res.(error := None))
    ensures res.error.Some? && res.status != HTTP_OK ==>
              m.Replaced? && m.replacement == ToResult(ErrorEnvelope(res.status, FALLBACK_MESSAGE))
  {
    if res.error.Some? then
      var taken := res.(error := None);
      var msg := match taken.error
                 case Some(e) => e
                 case None => FALLBACK_MESSAGE;
      if res.status == HTTP_OK then PassedOn(taken)
      else Replaced(ToResult(ErrorEnvelope(res.status, msg)))
    else PassedOn(res)
  }

  /** `responser` as evidently intended: the message of the error is shown to
      the client, and the fallback text only when there is none. */
  function RespondFixed<T>(res: Response<T>): (m: Mapped<T>)
    ensures res.error.None? ==> m == PassedOn(res)
    ensures res.error.Some? && res.status == HTTP_OK ==> m == PassedOn(res.(error := None))
    ensures res.error.Some? && res.status != HTTP_OK ==>
              m.Replaced? && m.replacement == ToResult(ErrorEnvelope(res.status, res.error.value))
  {
    if res.error.Some? then
      var msg := res.error.value;
      if res.status == HTTP_OK then PassedOn(res.(error := None))
      else Replaced(ToResult(ErrorEnvelope(res.status, msg)))
    else PassedOn(res)
  }

  /** The status mapping of the middleware, code by code: 500 and 422 become
      SYS_ERROR, 401 UNAUTH, 400 BAD_REQUEST, any other failing status
      UNKNOWN; every replacement is an HTTP 200. */
  lemma StatusMapping<T>(res: Response<T>)
    requires res.error.Some? && res.status != HTTP_OK
    ensures Respond(res).Replaced?
    ensures Respond(res).replacement.status == HTTP_OK
    ensures var code := Respond(res).replacement.body.value.code;
            && (res.status == 500 ==> code == 1010)
            && (res.status == 422 ==> code == 1010)
            && (res.status == 401 ==> code == 1012)
            && (res.status == 400 ==> code == 1011)
            && (res.status !in {400, 401, 422, 500} ==> code == 1020)
    ensures res.status == 422 ==> Respond(res).replacement.body.value.data == Some("请求参数有误")
  {
  }

  /** The bug in `responser`: an error carrying the text "boom" on a 400
      response reaches the client as the fallback text, not as "boom". */
  lemma RespondDropsErrorMessage()
    ensures var res: Response<string> := Failure(HTTP_BAD_REQUEST, "boom");
            && Respond(res).replacement.body.value.data == Some(FALLBACK_MESSAGE)
            && RespondFixed(res).replacement.body.value.data == Some("boom")
  {
  }

  /** Both versions agree on every response except in the payload of a
      replaced 500, 401 or 400 response. */
  lemma RespondVersionsAgreeOnCodes<T>(res: Response<T>)
    ensures Respond(res).PassedOn? <==> RespondFixed(res).PassedOn?
    ensures Respond(res).PassedOn? ==> Respond(res) == RespondFixed(res)
    ensures Respond(res).Replaced? ==>
              Respond(res).replacement.body.value.code == RespondFixed(res).replacement.body.value.code
  {
  }
}
