/** The authentication handlers: `login`, `register`, `confirm`, `resend` and
    `reset_pwd`.

    A handler is a function from the request, the current cache and store,
    and the outside inputs it consumes (random characters for tokens and
    salts, a fresh ObjectId, the clock) to an `Outcome`: the response, the new
    cache and store, and the mails it sent. An error a handler propagates with
    `?` becomes a failed response (status 500, or 422 for an unreadable
    body); connection and delivery failures are not modelled. */
module AuthRouters {
  import opened Wrappers
  import opened Text
  import opened Status
  import opened Responser
  import opened RedisDb
  import opened Bson
  import MongoDb
  import Crypto
  import AuthSchema
  import Models

  /** The payload of an envelope a handler answers with. */
  datatype Reply = Message(text: string) | Session(token: Token) | Invalid(fields: set<string>)

  datatype Mail = Mail(to: string, subject: string, body: string)

  /** The deployment's inputs: the public domain used in confirmation links,
      the e-mail format check and the Argon2 primitive. */
  datatype Config = Config(domain: string, isEmail: AuthSchema.EmailCheck, argon: Crypto.Digest)

  datatype World = World(cache: Cache, store: MongoDb.Store)

  datatype Outcome = Outcome(response: Response<Reply>, world: World, mails: seq<Mail>)

  const NO_ACCOUNT: string := "帐号不存在"
  const ACCOUNT_EXISTS: string := "帐号已注册"
  const RESEND_TOO_SOON: string := "请勿重复发送"
  const LOGIN_FIRST: string := "请先登录，或者发送验证邮件！"
  const PASSWORD_CHANGED: string := "密码修改成功！"
  const REGISTER_SUBJECT: string := "Register API TEST Email"
  const RESEND_SUBJECT: string := "Resend API TEST Email"
  const CONFIRM_PATH: string := "/api/v1/auth/confirm/"

  /** Seconds of remaining session life around which login renews a session
      and resend refuses to send again. */
  const RENEW_THRESHOLD: nat := 3600

  /** An envelope answer: HTTP 200, the given status pair and payload. */
  function Answer(data: Reply, res: Res, w: World): (o: Outcome)
    ensures o.response.status == HTTP_OK && o.response.body == Some(New(Some(data), res))
    ensures o.world == w && o.mails == []
  {
    Outcome(ToResult(New(Some(data), res)), w, [])
  }

  /** An error propagated with `?`. */
  function Fail(status: nat, message: string, w: World): (o: Outcome)
    ensures o.response.body.None? && o.response.status == status
    ensures o.world == w && o.mails == []
  {
    Outcome(Failure(status, message), w, [])
  }

  /** The outcome when the body is not JSON of the expected shape. */
  function Unreadable(w: World): (o: Outcome)
    ensures o.response.status == HTTP_UNPROCESSABLE_ENTITY && o.world == w && o.mails == []
  {
    Fail(HTTP_UNPROCESSABLE_ENTITY, "unreadable request body", w)
  }

  /** The confirmation mail carrying `token`. */
  function ConfirmMail(to: string, subject: string, domain: string, token: Token): (m: Mail)
    ensures m.to == to && m.subject == subject
    ensures m.body == domain + CONFIRM_PATH + token.token
  {
    Mail(to, subject, domain + CONFIRM_PATH + token.token)
  }

  /** `find_one_opt(USER, {"email": email})` */
  function ByEmail(email: string): MongoDb.Options {
    MongoDb.FindOneOpt(MongoDb.Default(), Models.USER, Some(map["email" := Str(email)]))
  }

  /** `update_opt(USER, {"_id": oid}, None)` */
  function ById(oid: ObjectId): MongoDb.Options {
    MongoDb.UpdateOpt(MongoDb.Default(), Models.USER, Some(map["_id" := Oid(oid)]), None)
  }

  /** Remove both halves of the session of `id` whose token is `token`, then
      issue a new one. Afterwards `id` and the new token resolve to each
      other, the old token no longer resolves (unless the draw repeated it),
      and every other key keeps its entry. */
  function Reissue(c: Cache, id: string, token: string, samples: seq<char>): (r: Issued)
    requires |samples| >= TOKEN_SIZE && AllAlphanumeric(samples)
    ensures r.token.token == NewToken(samples)
    ensures Get(r.cache, id) == r.token.token
    ensures r.token.token != id ==> Get(r.cache, r.token.token) == id
    ensures token != r.token.token && token != id ==> Get(r.cache, token) == ""
    ensures r.cache.Keys == (c.Keys - {id, token}) + {r.token.token, id}
    ensures forall k | k in c && k != id && k != token && k != r.token.token :: r.cache[k] == c[k]
  {
    SetToken(Del(Del(c, id), token), id, samples)
  }

  // ---------------------------------------------------------------------------
  // login
  // ---------------------------------------------------------------------------

  /** The session `login` hands to account `id` once the password verified:
      the existing one while it has at least an hour left, otherwise a new one
      replacing it, or a first one. */
  function LoginSession(c: Cache, id: string, samples: seq<char>): (r: Issued)
    requires |samples| >= TOKEN_SIZE && AllAlphanumeric(samples)
    ensures r.cache == c || r.token.token == NewToken(samples)
  {
    var tokenStr := Get(c, id);
    if tokenStr != "" then
      if Ttl(c, id) < RENEW_THRESHOLD then Reissue(c, id, tokenStr, samples)
      else Issued(Token(tokenStr), c)
    else SetToken(c, id, samples)
  }

  /** `login`. A session is handed out only after the password verifies; an
      existing session is reused unless it has less than an hour left. */
  function Login(cfg: Config, body: Option<AuthSchema.Login>, w: World, samples: seq<char>): (o: Outcome)
    requires |samples| >= TOKEN_SIZE && AllAlphanumeric(samples)
    ensures o.world.store == w.store && o.mails == []
    ensures o.response.body.None? ==> o.world == w
    ensures o.response.body.Some? && o.response.body.value.code != OK.code ==> o.world == w
    ensures o.response.body.Some? && o.response.body.value.code == OK.code ==>
              o.response.body.value.data.Some? && o.response.body.value.data.value.Session?
  {
    match body
    case None => Unreadable(w)
    case Some(req) =>
      var errors := AuthSchema.ValidateLogin(req, cfg.isEmail);
      if errors != {} then Answer(Invalid(errors), BAD_REQUEST, w)
      else
        match MongoDb.Find(w.store, ByEmail(req.email))
        case Err(e) => Fail(HTTP_INTERNAL_SERVER_ERROR, e, w)
        case Ok(docs) =>
          if |docs| == 0 then Answer(Message(NO_ACCOUNT), BAD_REQUEST, w)
          else
            var data := Last(docs);
            match GetObjectId(data, "_id")
            case None => Fail(HTTP_INTERNAL_SERVER_ERROR, "no ObjectId under _id", w)
            case Some(oid) =>
              var id := ToHex(oid);
              match Models.FromDocument(data)
              case None => Fail(HTTP_INTERNAL_SERVER_ERROR, "not a user document", w)
              case Some(user) =>
                if !Crypto.PasswordVerify(cfg.argon, user.password, req.password) then
                  Answer(Message(""), UNAUTH, w)
                else
                  var session := LoginSession(w.cache, id, samples);
                  Answer(Session(session.token), OK, World(session.cache, w.store))
  }

  // ---------------------------------------------------------------------------
  // register
  // ---------------------------------------------------------------------------

  /** `register`. A new e-mail address gets an inactive account stored under
      `oid`, a session, and a confirmation mail carrying the session's token. */
  function Register(cfg: Config, body: Option<AuthSchema.Register>, w: World,
                    saltSamples: seq<char>, tokenSamples: seq<char>, oid: ObjectId, now: Models.Timestamp): (o: Outcome)
    requires |saltSamples| >= Crypto.SALT_LEN && AllAlphanumeric(saltSamples)
    requires |tokenSamples| >= TOKEN_SIZE && AllAlphanumeric(tokenSamples)
    ensures o.response.body.None? ==> o.world == w && o.mails == []
    ensures o.response.body.Some? && o.response.body.value.code != OK.code ==> o.world == w && o.mails == []
    ensures o.response.body.Some? && o.response.body.value.code == OK.code ==>
              && body.Some?
              && o.mails == [ConfirmMail(body.value.email, REGISTER_SUBJECT, cfg.domain,
                                         SetToken(w.cache, ToHex(oid), tokenSamples).token)]
              && o.world.cache == SetToken(w.cache, ToHex(oid), tokenSamples).cache
  {
    match body
    case None => Unreadable(w)
    case Some(reg) =>
      var errors := AuthSchema.ValidateRegister(reg, cfg.isEmail);
      if errors != {} then Answer(Invalid(errors), BAD_REQUEST, w)
      else
        match MongoDb.Find(w.store, ByEmail(reg.email))
        case Err(e) => Fail(HTTP_INTERNAL_SERVER_ERROR, e, w)
        case Ok(existing) =>
          if |existing| != 0 then Answer(Message(ACCOUNT_EXISTS), BAD_REQUEST, w)
          else
            var user := Models.FromRegister(cfg.argon, saltSamples, now, reg);
            var opt := MongoDb.SetCollect(MongoDb.Default(), Models.USER);
            match MongoDb.InsertOne(w.store, opt, Models.ToDocument(user), oid)
            case Err(e) => Fail(HTTP_INTERNAL_SERVER_ERROR, e, w)
            case Ok(inserted) =>
              var issued := SetToken(w.cache, inserted.1, tokenSamples);
              var mail := ConfirmMail(reg.email, REGISTER_SUBJECT, cfg.domain, issued.token);
              Outcome(ToResult(New(Some(Message("success")), OK)), World(issued.cache, inserted.0), [mail])
  }

  // ---------------------------------------------------------------------------
  // confirm
  // ---------------------------------------------------------------------------

  /** `confirm`. The submitted token must resolve to an account id; both halves
      of that session are removed, the account is activated, and a new session
      is issued. */
  function Confirm(body: Option<Token>, w: World, samples: seq<char>): (o: Outcome)
    requires |samples| >= TOKEN_SIZE && AllAlphanumeric(samples)
    ensures o.mails == []
    ensures o.response.body.None? ==> o.world == w
    ensures o.response.body.Some? ==>
              && body.Some?
              && ParseObjectId(Get(w.cache, body.value.token)).Some?
              && o.response.body.value.code == OK.code
              && o.response.body.value.data == Some(Session(Token(NewToken(samples))))
  {
    match body
    case None => Unreadable(w)
    case Some(token) =>
      var idStr := Get(w.cache, token.token);
      match ParseObjectId(idStr)
      case None => Fail(HTTP_INTERNAL_SERVER_ERROR, "invalid ObjectId", w)
      case Some(oid) =>
        var c1 := Del(Del(w.cache, token.token), idStr);
        var updated := MongoDb.Update(w.store, map["active" := Bool(true)], ById(oid));
        var issued := SetToken(c1, idStr, samples);
        Answer(Session(issued.token), OK, World(issued.cache, updated.0))
  }

  // ---------------------------------------------------------------------------
  // resend
  // ---------------------------------------------------------------------------

  /** The session `resend` mails to account `id`, or `None` when the existing
      one has more than an hour left: a new one replacing it, or a first one. */
  function ResendSession(c: Cache, id: string, samples: seq<char>): (r: Option<Issued>)
    requires |samples| >= TOKEN_SIZE && AllAlphanumeric(samples)
    ensures r.Some? ==> r.value.token.token == NewToken(samples)
    ensures r.None? <==> Get(c, id) != "" && c[id].ttl > RENEW_THRESHOLD
  {
    var tokenStr := Get(c, id);
    if tokenStr != "" then
      if Ttl(c, id) > RENEW_THRESHOLD then None
      else Some(Reissue(c, id, tokenStr, samples))
    else Some(SetToken(c, id, samples))
  }

  /** `resend`. The body is not validated. A session with more than an hour
      left is a refusal; otherwise the session is replaced (or first issued)
      and its token mailed to the address in the request. */
  function Resend(cfg: Config, body: Option<AuthSchema.Resend>, w: World, samples: seq<char>): (o: Outcome)
    requires |samples| >= TOKEN_SIZE && AllAlphanumeric(samples)
    ensures o.world.store == w.store
    ensures o.response.body.None? ==> o.world == w && o.mails == []
    ensures o.response.body.Some? && o.response.body.value.code != OK.code ==> o.world == w && o.mails == []
    ensures body.Some? && MongoDb.Find(w.store, ByEmail(body.value.email)) == Ok([]) ==>
              o == Answer(Message(NO_ACCOUNT), BAD_REQUEST, w)
    ensures o.response.body.Some? && o.response.body.value.code == OK.code ==>
              && body.Some?
              && o.response.body.value.data == Some(Session(Token(NewToken(samples))))
              && o.mails == [ConfirmMail(body.value.email, RESEND_SUBJECT, cfg.domain, Token(NewToken(samples)))]
  {
    match body
    case None => Unreadable(w)
    case Some(req) =>
      match MongoDb.Find(w.store, ByEmail(req.email))
      case Err(e) => Fail(HTTP_INTERNAL_SERVER_ERROR, e, w)
      case Ok(docs) =>
        if |docs| == 0 then Answer(Message(NO_ACCOUNT), BAD_REQUEST, w)
        else
          match GetObjectId(docs[0], "_id")
          case None => Fail(HTTP_INTERNAL_SERVER_ERROR, "no ObjectId under _id", w)
          case Some(oid) =>
            match ResendSession(w.cache, ToHex(oid), samples)
            case None => Answer(Message(RESEND_TOO_SOON), BAD_REQUEST, w)
            case Some(issued) =>
              var mail := ConfirmMail(req.email, RESEND_SUBJECT, cfg.domain, issued.token);
              Outcome(ToResult(New(Some(Session(issued.token)), OK)), World(issued.cache, w.store), [mail])
  }

  // ---------------------------------------------------------------------------
  // reset_pwd
  // ---------------------------------------------------------------------------

  /** Store the hash of `password` on the account `oid`. */
  function ChangePassword(cfg: Config, password: string, oid: ObjectId, w: World, saltSamples: seq<char>): (o: Outcome)
    requires |saltSamples| >= Crypto.SALT_LEN && AllAlphanumeric(saltSamples)
    ensures o.world.cache == w.cache && o.mails == []
    ensures o.response.body == Some(New(Some(Message(PASSWORD_CHANGED)), OK))
  {
    var hash := Crypto.HashPassword(cfg.argon, saltSamples, password);
    var updated := MongoDb.Update(w.store, map["password" := Str(hash)], ById(oid));
    Answer(Message(PASSWORD_CHANGED), OK, World(w.cache, updated.0))
  }

  /** `reset_pwd` as written. `ext` is the token an upstream guard attached to
      the request, if any. The handler looks the attached value up in the
      cache once more and parses the result as the account's ObjectId. */
  function ResetPwd(cfg: Config, body: Option<AuthSchema.ResetPwd>, ext: Option<Token>, w: World,
                    saltSamples: seq<char>): (o: Outcome)
    requires |saltSamples| >= Crypto.SALT_LEN && AllAlphanumeric(saltSamples)
    ensures o.world.cache == w.cache && o.mails == []
    ensures o.response.body.Some? && o.response.body.value.code == OK.code ==>
              && ext.Some?
              && ParseObjectId(Get(w.cache, ext.value.token)).Some?
    ensures o.response.body.Some? && o.response.body.value.code != OK.code ==> o.world == w
    ensures o.response.body.None? ==> o.world == w
  {
    match body
    case None => Unreadable(w)
    case Some(req) =>
      var errors := AuthSchema.ValidateResetPwd(req);
      if errors != {} then Answer(Invalid(errors), BAD_REQUEST, w)
      else
        match ext
        case None => Answer(Message(LOGIN_FIRST), UNAUTH, w)
        case Some(token) =>
          var id := Get(w.cache, token.token);
          match ParseObjectId(id)
          case None => Fail(HTTP_INTERNAL_SERVER_ERROR, "invalid ObjectId", w)
          case Some(oid) => ChangePassword(cfg, req.password, oid, w, saltSamples)
  }

  /** `reset_pwd` as evidently intended: the attached value already is the
      account id, so it is parsed directly. */
  function ResetPwdFixed(cfg: Config, body: Option<AuthSchema.ResetPwd>, ext: Option<Token>, w: World,
                         saltSamples: seq<char>): (o: Outcome)
    requires |saltSamples| >= Crypto.SALT_LEN && AllAlphanumeric(saltSamples)
    ensures o.world.cache == w.cache && o.mails == []
    ensures o.response.body.Some? && o.response.body.value.code == OK.code ==>
              && ext.Some?
              && ParseObjectId(ext.value.token).Some?
    ensures o.response.body.Some? && o.response.body.value.code != OK.code ==> o.world == w
    ensures o.response.body.None? ==> o.world == w
  {
    match body
    case None => Unreadable(w)
    case Some(req) =>
      var errors := AuthSchema.ValidateResetPwd(req);
      if errors != {} then Answer(Invalid(errors), BAD_REQUEST, w)
      else
        match ext
        case None => Answer(Message(LOGIN_FIRST), UNAUTH, w)
        case Some(token) =>
          match ParseObjectId(token.token)
          case None => Fail(HTTP_INTERNAL_SERVER_ERROR, "invalid ObjectId", w)
          case Some(oid) => ChangePassword(cfg, req.password, oid, w, saltSamples)
  }
}
