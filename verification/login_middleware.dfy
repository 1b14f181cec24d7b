/** `LoginMiddleware::handle`: the guard installed on the API server, in front
    of the auth and user routes alike. */
module LoginMiddleware {
  import opened Wrappers
  import opened Status
  import opened Responser
  import opened RedisDb
  import Text

  /** What the guard does with a request: run the next handler with the value
      it read from the cache attached, or answer by itself. */
  datatype Guarded<R> = Forwarded(ext: Token, result: R) | Refused(response: Response<string>)

  /** Without an `Authorization` header the request is refused with an UNAUTH
      envelope and `next` does not run. With one, the cache value stored under
      the header text is attached as the request's `Token` and `next` runs once,
      its answer returned as is. An unknown header attaches the empty string,
      as `Get` reads a missing key: the guard does not refuse it. */
  function Handle<R>(authorization: Option<string>, c: Cache, next: Token -> R): (g: Guarded<R>)
    ensures g.Refused? <==> authorization.None?
    ensures g.Refused? ==> g.response == ToResult(New(Some(""), UNAUTH))
    ensures g.Forwarded? ==> g.ext.token == Get(c, authorization.value) && g.result == next(g.ext)
  {
    match authorization
    case Some(header) =>
      var ext := Token(Get(c, header));
      Forwarded(ext, next(ext))
    case None => Refused(ToResult(New(Some(""), UNAUTH)))
  }

  /** A header carrying the token `set_token(I)` handed out attaches `I`, the
      account id, not a token. */
  lemma AttachesAccountId<R>(c: Cache, id: string, samples: seq<char>, next: Token -> R)
    requires |samples| >= TOKEN_SIZE && Text.AllAlphanumeric(samples)
    ensures var issued := SetToken(c, id, samples);
            Handle(Some(issued.token.token), issued.cache, next) == Forwarded(Token(id), next(Token(id)))
  {
    SetTokenResolves(c, id, samples);
  }

  /** Looking the attached value up once more, as a handler that mistakes it
      for a token would, gives back the token of the header itself. */
  lemma LookupAgainGivesToken<R>(c: Cache, header: string, next: Token -> R)
    requires Consistent(c) && header in c
    ensures Get(c, Handle(Some(header), c, next).ext.token) == header
  {
    assert PairedAt(c, header);
  }

  /** A header that is no key of the cache is let through with an empty id,
      under the reading of a missing key as the empty string (`Get`). */
  lemma UnknownTokenIsForwarded<R>(c: Cache, header: string, next: Token -> R)
    requires header !in c
    ensures Handle(Some(header), c, next) == Forwarded(Token(""), next(Token("")))
  {
  }
}
