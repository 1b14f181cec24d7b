/** Properties of the authentication handlers over the session cache and the
    account store: what each hands out, what it leaves behind, the renewal
    policy of `login` and `resend`, and the account-id mix-up in `reset_pwd`. */
module AuthFlows {
  import opened Wrappers
  import opened Text
  import opened Status
  import opened Responser
  import opened RedisDb
  import opened Bson
  import MongoDb
  import Crypto
  import AuthSchema
  import Models
  import LoginMiddleware
  import opened AuthRouters

  /** An account id as the handlers write it is 24 hex characters: neither
      empty nor as long as a token. */
  lemma HexIdIsNoToken(oid: ObjectId)
    ensures ToHex(oid) != "" && |ToHex(oid)| != TOKEN_SIZE
  {
  }

  /** Replacing the session of `id` keeps the cache made of session pairs. */
  lemma ReissueKeepsConsistent(c: Cache, id: string, samples: seq<char>)
    requires |samples| >= TOKEN_SIZE && AllAlphanumeric(samples)
    requires Consistent(c) && id in c && id != "" && |id| != TOKEN_SIZE
    requires NewToken(samples) !in c
    ensures Consistent(Reissue(c, id, c[id].value, samples).cache)
  {
    InvalidateKeepsConsistent(c, id);
    SetTokenKeepsConsistent(Del(Del(c, id), c[id].value), id, samples);
  }

  /** Login's renewal policy for account `id`. With an hour or more left, the
      existing token is handed back and nothing changes; with less, a new
      token replaces it and the old one stops resolving; without a session a
      first one is issued. Whatever the case the token handed out resolves to
      `id`, and the cache stays made of session pairs. */
  lemma LoginSessionPolicy(c: Cache, id: string, samples: seq<char>)
    requires |samples| >= TOKEN_SIZE && AllAlphanumeric(samples)
    requires Consistent(c) && id != "" && |id| != TOKEN_SIZE
    ensures var r := LoginSession(c, id, samples);
            && Get(r.cache, r.token.token) == id && Get(r.cache, id) == r.token.token
            && (id in c && c[id].ttl >= RENEW_THRESHOLD ==> r == Issued(Token(c[id].value), c))
            && (id in c && c[id].ttl < RENEW_THRESHOLD ==>
                  && r.token.token == NewToken(samples)
                  && (NewToken(samples) != c[id].value ==> Get(r.cache, c[id].value) == ""))
            && (id !in c ==> r.token.token == NewToken(samples))
    ensures NewToken(samples) !in c ==> Consistent(LoginSession(c, id, samples).cache)
  {
    PresentKeysResolve(c);
    if id in c {
      assert PairedAt(c, id);
      SetTokenResolves(Del(Del(c, id), c[id].value), id, samples);
      if NewToken(samples) !in c {
        ReissueKeepsConsistent(c, id, samples);
      }
    } else {
      SetTokenResolves(c, id, samples);
      if NewToken(samples) !in c {
        SetTokenKeepsConsistent(c, id, samples);
      }
    }
  }

  /** Resend's policy for account `id`: with more than an hour left it
      refuses; with less, a new token replaces the old one, which stops
      resolving; without a session a first one is issued. A token it issues
      resolves to `id`, and the cache stays made of session pairs. */
  lemma ResendSessionPolicy(c: Cache, id: string, samples: seq<char>)
    requires |samples| >= TOKEN_SIZE && AllAlphanumeric(samples)
    requires Consistent(c) && id != "" && |id| != TOKEN_SIZE
    ensures var r := ResendSession(c, id, samples);
            && (id in c ==> (r.None? <==> c[id].ttl > RENEW_THRESHOLD))
            && (id !in c ==> r.Some?)
            && (r.Some? ==> Get(r.value.cache, r.value.token.token) == id
                            && Get(r.value.cache, id) == r.value.token.token)
            && (r.Some? && id in c && NewToken(samples) != c[id].value ==> Get(r.value.cache, c[id].value) == "")
    ensures var r := ResendSession(c, id, samples);
            r.Some? && NewToken(samples) !in c ==> Consistent(r.value.cache)
  {
    PresentKeysResolve(c);
    if id in c {
      assert PairedAt(c, id);
      SetTokenResolves(Del(Del(c, id), c[id].value), id, samples);
      if NewToken(samples) !in c {
        ReissueKeepsConsistent(c, id, samples);
      }
    } else {
      SetTokenResolves(c, id, samples);
      if NewToken(samples) !in c {
        SetTokenKeepsConsistent(c, id, samples);
      }
    }
  }

  /** The two renewal comparisons are opposite: at exactly one hour left,
      login hands back the existing token while resend replaces it. */
  lemma ThresholdBoundary(c: Cache, id: string, samples: seq<char>)
    requires |samples| >= TOKEN_SIZE && AllAlphanumeric(samples)
    requires Consistent(c) && id != "" && |id| != TOKEN_SIZE
    requires id in c && c[id].ttl == RENEW_THRESHOLD
    ensures LoginSession(c, id, samples) == Issued(Token(c[id].value), c)
    ensures ResendSession(c, id, samples).Some?
    ensures ResendSession(c, id, samples).value.token.token == NewToken(samples)
  {
    LoginSessionPolicy(c, id, samples);
    ResendSessionPolicy(c, id, samples);
  }

  // ---------------------------------------------------------------------------
  // login
  // ---------------------------------------------------------------------------

  /** `login` keeps the cache made of session pairs, given a token it draws
      that is not already a key. */
  lemma LoginKeepsConsistent(cfg: Config, body: Option<AuthSchema.Login>, w: World, samples: seq<char>)
    requires |samples| >= TOKEN_SIZE && AllAlphanumeric(samples)
    requires Consistent(w.cache) && NewToken(samples) !in w.cache
    ensures Consistent(Login(cfg, body, w, samples).world.cache)
  {
    if body.Some? {
      var found := MongoDb.Find(w.store, ByEmail(body.value.email));
      if found.Ok? && |found.value| > 0 && GetObjectId(Last(found.value), "_id").Some? {
        var oid := GetObjectId(Last(found.value), "_id").value;
        HexIdIsNoToken(oid);
        LoginSessionPolicy(w.cache, ToHex(oid), samples);
      }
    }
  }

  /** A login with the right password for a stored account answers OK with a
      token that resolves to the account id, whose own entry points back to
      the token. Whether the account is active plays no part. */
  lemma LoginHandsOutResolvingToken(cfg: Config, req: AuthSchema.Login, w: World, samples: seq<char>,
                                    d: Document, oid: ObjectId, user: Models.User)
    requires |samples| >= TOKEN_SIZE && AllAlphanumeric(samples)
    requires AuthSchema.ValidateLogin(req, cfg.isEmail) == {}
    requires MongoDb.Find(w.store, ByEmail(req.email)) == Ok([d])
    requires GetObjectId(d, "_id") == Some(oid) && Models.FromDocument(d) == Some(user)
    requires Crypto.PasswordVerify(cfg.argon, user.password, req.password)
    requires Consistent(w.cache)
    ensures var o := Login(cfg, Some(req), w, samples);
            var session := LoginSession(w.cache, ToHex(oid), samples);
            && o == Answer(Session(session.token), OK, World(session.cache, w.store))
            && Get(o.world.cache, session.token.token) == ToHex(oid)
            && Get(o.world.cache, ToHex(oid)) == session.token.token
  {
    assert Last([d]) == d;
    HexIdIsNoToken(oid);
    LoginSessionPolicy(w.cache, ToHex(oid), samples);
  }

  /** A wrong password is answered UNAUTH with an empty payload, and nothing
      is issued. */
  lemma LoginRefusesWrongPassword(cfg: Config, req: AuthSchema.Login, w: World, samples: seq<char>,
                                  d: Document, oid: ObjectId, user: Models.User)
    requires |samples| >= TOKEN_SIZE && AllAlphanumeric(samples)
    requires AuthSchema.ValidateLogin(req, cfg.isEmail) == {}
    requires MongoDb.Find(w.store, ByEmail(req.email)) == Ok([d])
    requires GetObjectId(d, "_id") == Some(oid) && Models.FromDocument(d) == Some(user)
    requires !Crypto.PasswordVerify(cfg.argon, user.password, req.password)
    ensures Login(cfg, Some(req), w, samples) == Answer(Message(""), UNAUTH, w)
  {
    assert Last([d]) == d;
  }

  /** An e-mail address with no account is a BAD_REQUEST. */
  lemma LoginRefusesUnknownEmail(cfg: Config, req: AuthSchema.Login, w: World, samples: seq<char>)
    requires |samples| >= TOKEN_SIZE && AllAlphanumeric(samples)
    requires AuthSchema.ValidateLogin(req, cfg.isEmail) == {}
    requires MongoDb.Find(w.store, ByEmail(req.email)) == Ok([])
    ensures Login(cfg, Some(req), w, samples) == Answer(Message(NO_ACCOUNT), BAD_REQUEST, w)
  {
  }

  // ---------------------------------------------------------------------------
  // resend
  // ---------------------------------------------------------------------------

  /** `resend` keeps the cache made of session pairs. */
  lemma ResendKeepsConsistent(cfg: Config, body: Option<AuthSchema.Resend>, w: World, samples: seq<char>)
    requires |samples| >= TOKEN_SIZE && AllAlphanumeric(samples)
    requires Consistent(w.cache) && NewToken(samples) !in w.cache
    ensures Consistent(Resend(cfg, body, w, samples).world.cache)
  {
    if body.Some? {
      var found := MongoDb.Find(w.store, ByEmail(body.value.email));
      if found.Ok? && |found.value| > 0 && GetObjectId(found.value[0], "_id").Some? {
        var oid := GetObjectId(found.value[0], "_id").value;
        HexIdIsNoToken(oid);
        ResendSessionPolicy(w.cache, ToHex(oid), samples);
      }
    }
  }

  /** An address no account has gets BAD_REQUEST "帐号不存在": no token is
      issued and no mail is sent. */
  lemma ResendRefusesUnknownEmail(cfg: Config, req: AuthSchema.Resend, w: World, samples: seq<char>)
    requires |samples| >= TOKEN_SIZE && AllAlphanumeric(samples)
    requires MongoDb.Find(w.store, ByEmail(req.email)) == Ok([])
    ensures var o := Resend(cfg, Some(req), w, samples);
            && o == Answer(Message(NO_ACCOUNT), BAD_REQUEST, w)
            && o.mails == [] && o.world == w
  {
  }

  /** For a stored account, resend either refuses with "do not send again"
      and sends nothing, or mails the address in the request a link with a
      new token that resolves to the account. */
  lemma ResendMailsResolvingToken(cfg: Config, req: AuthSchema.Resend, w: World, samples: seq<char>,
                                  d: Document, oid: ObjectId)
    requires |samples| >= TOKEN_SIZE && AllAlphanumeric(samples)
    requires MongoDb.Find(w.store, ByEmail(req.email)) == Ok([d])
    requires GetObjectId(d, "_id") == Some(oid)
    requires Consistent(w.cache)
    ensures var o := Resend(cfg, Some(req), w, samples);
            var id := ToHex(oid);
            var t := NewToken(samples);
            && (id in w.cache && w.cache[id].ttl > RENEW_THRESHOLD ==>
                  o == Answer(Message(RESEND_TOO_SOON), BAD_REQUEST, w))
            && (id !in w.cache || w.cache[id].ttl <= RENEW_THRESHOLD ==>
                  && o.response.body == Some(New(Some(Session(Token(t))), OK))
                  && o.mails == [ConfirmMail(req.email, RESEND_SUBJECT, cfg.domain, Token(t))]
                  && Get(o.world.cache, t) == id && Get(o.world.cache, id) == t)
  {
    HexIdIsNoToken(oid);
    ResendSessionPolicy(w.cache, ToHex(oid), samples);
  }

  // ---------------------------------------------------------------------------
  // register
  // ---------------------------------------------------------------------------

  /** Registering a new address stores one inactive account at the end of the
      collection, whose password verifies against the requested one; the
      mailed token resolves to the new account id. */
  lemma RegisterCreatesPendingAccount(cfg: Config, reg: AuthSchema.Register, w: World,
                                      saltSamples: seq<char>, tokenSamples: seq<char>, oid: ObjectId, now: Models.Timestamp)
    requires |saltSamples| >= Crypto.SALT_LEN && AllAlphanumeric(saltSamples)
    requires |tokenSamples| >= TOKEN_SIZE && AllAlphanumeric(tokenSamples)
    requires AuthSchema.ValidateRegister(reg, cfg.isEmail) == {}
    requires MongoDb.Find(w.store, ByEmail(reg.email)) == Ok([])
    requires forall i | 0 <= i < |MongoDb.Docs(w.store, Models.USER)| ::
               GetObjectId(MongoDb.Docs(w.store, Models.USER)[i], "_id") != Some(oid)
    ensures var o := Register(cfg, Some(reg), w, saltSamples, tokenSamples, oid, now);
            var u := Models.FromRegister(cfg.argon, saltSamples, now, reg);
            var docs := MongoDb.Docs(o.world.store, Models.USER);
            var t := NewToken(tokenSamples);
            && o.response.body == Some(New(Some(Message("success")), OK))
            && docs == MongoDb.Docs(w.store, Models.USER) + [Models.ToDocument(u)["_id" := Oid(oid)]]
            && Models.FromDocument(Last(docs)) == Some(u) && !u.active && u.email == reg.email
            && (Crypto.ValidDigest(cfg.argon) ==> Crypto.PasswordVerify(cfg.argon, u.password, reg.password))
            && Get(o.world.cache, t) == ToHex(oid) && Get(o.world.cache, ToHex(oid)) == t
            && o.mails == [ConfirmMail(reg.email, REGISTER_SUBJECT, cfg.domain, Token(t))]
  {
    var u := Models.FromRegister(cfg.argon, saltSamples, now, reg);
    var d := Models.ToDocument(u)["_id" := Oid(oid)];
    var opt := MongoDb.SetCollect(MongoDb.Default(), Models.USER);
    var inserted := MongoDb.InsertOne(w.store, opt, Models.ToDocument(u), oid);
    assert inserted == Ok((inserted.value.0, ToHex(oid)));
    assert MongoDb.Docs(inserted.value.0, Models.USER) == MongoDb.Docs(w.store, Models.USER) + [d];
    var issued := SetToken(w.cache, ToHex(oid), tokenSamples);
    assert Register(cfg, Some(reg), w, saltSamples, tokenSamples, oid, now)
        == Outcome(ToResult(New(Some(Message("success")), OK)), World(issued.cache, inserted.value.0),
                   [ConfirmMail(reg.email, REGISTER_SUBJECT, cfg.domain, issued.token)]);
    Models.StoredRoundTrip(u, oid);
    HexIdIsNoToken(oid);
    SetTokenResolves(w.cache, ToHex(oid), tokenSamples);
  }

  /** An address that already has an account is refused and nothing changes. */
  lemma RegisterRefusesTakenEmail(cfg: Config, reg: AuthSchema.Register, w: World,
                                  saltSamples: seq<char>, tokenSamples: seq<char>, oid: ObjectId, now: Models.Timestamp)
    requires |saltSamples| >= Crypto.SALT_LEN && AllAlphanumeric(saltSamples)
    requires |tokenSamples| >= TOKEN_SIZE && AllAlphanumeric(tokenSamples)
    requires AuthSchema.ValidateRegister(reg, cfg.isEmail) == {}
    requires MongoDb.Find(w.store, ByEmail(reg.email)).Ok?
    requires |MongoDb.Find(w.store, ByEmail(reg.email)).value| > 0
    ensures Register(cfg, Some(reg), w, saltSamples, tokenSamples, oid, now)
         == Answer(Message(ACCOUNT_EXISTS), BAD_REQUEST, w)
  {
  }

  /** `register` keeps the cache made of session pairs when the new id has no
      session yet. */
  lemma RegisterKeepsConsistent(cfg: Config, body: Option<AuthSchema.Register>, w: World,
                                saltSamples: seq<char>, tokenSamples: seq<char>, oid: ObjectId, now: Models.Timestamp)
    requires |saltSamples| >= Crypto.SALT_LEN && AllAlphanumeric(saltSamples)
    requires |tokenSamples| >= TOKEN_SIZE && AllAlphanumeric(tokenSamples)
    requires Consistent(w.cache) && NewToken(tokenSamples) !in w.cache && ToHex(oid) !in w.cache
    ensures Consistent(Register(cfg, body, w, saltSamples, tokenSamples, oid, now).world.cache)
  {
    HexIdIsNoToken(oid);
    SetTokenKeepsConsistent(w.cache, ToHex(oid), tokenSamples);
  }

  /** The filter `{"_id": oid}` matches exactly the documents with that id. */
  lemma MatchesId(d: Document, oid: ObjectId)
    ensures MongoDb.Matches(d, map["_id" := Oid(oid)]) <==> GetObjectId(d, "_id") == Some(oid)
  {
    assert "_id" in map["_id" := Oid(oid)];
  }

  /** `update(.., update_opt(USER, {"_id": oid}, None))` runs `update_one`: with
      account ids unique, the document at `j` that carries `oid` gets the `$set`
      and every other account is left as it was. */
  lemma UpdateById(s: MongoDb.Store, fields: Document, oid: ObjectId, j: nat)
    requires j < |MongoDb.Docs(s, Models.USER)|
    requires GetObjectId(MongoDb.Docs(s, Models.USER)[j], "_id") == Some(oid)
    requires forall k | 0 <= k < |MongoDb.Docs(s, Models.USER)| && k != j ::
               GetObjectId(MongoDb.Docs(s, Models.USER)[k], "_id") != Some(oid)
    ensures var before := MongoDb.Docs(s, Models.USER);
            var after := MongoDb.Docs(MongoDb.Update(s, fields, ById(oid)).0, Models.USER);
            && |after| == |before|
            && after[j] == MongoDb.ApplySet(before[j], fields)
            && forall k | 0 <= k < |before| && k != j :: after[k] == before[k]
  {
    var before := MongoDb.Docs(s, Models.USER);
    var filter := map["_id" := Oid(oid)];
    assert MongoDb.WriteFilter(ById(oid)) == filter;
    MatchesId(before[j], oid);
    forall k | 0 <= k < j ensures !MongoDb.Matches(before[k], filter) {
      MatchesId(before[k], oid);
    }
    MongoDb.UpdateFirstChangesOnlyFirstMatch(before, filter, fields, j);
  }

  // ---------------------------------------------------------------------------
  // confirm
  // ---------------------------------------------------------------------------

  /** Confirming with a token of account `oid` consumes that token and hands
      out a new one of the same account; the stored account is activated. */
  lemma ConfirmActivates(w: World, t: string, samples: seq<char>, oid: ObjectId, j: nat, u: Models.User)
    requires |samples| >= TOKEN_SIZE && AllAlphanumeric(samples)
    requires Consistent(w.cache) && Get(w.cache, t) == ToHex(oid) && NewToken(samples) != t
    requires j < |MongoDb.Docs(w.store, Models.USER)|
    requires GetObjectId(MongoDb.Docs(w.store, Models.USER)[j], "_id") == Some(oid)
    requires forall k | 0 <= k < |MongoDb.Docs(w.store, Models.USER)| && k != j ::
               GetObjectId(MongoDb.Docs(w.store, Models.USER)[k], "_id") != Some(oid)
    requires Models.FromDocument(MongoDb.Docs(w.store, Models.USER)[j]) == Some(u)
    ensures var o := Confirm(Some(Token(t)), w, samples);
            var id := ToHex(oid);
            var renewed := NewToken(samples);
            var before := MongoDb.Docs(w.store, Models.USER);
            var after := MongoDb.Docs(o.world.store, Models.USER);
            && o.response.body == Some(New(Some(Session(Token(renewed))), OK))
            && Get(o.world.cache, t) == "" && Get(o.world.cache, renewed) == id && Get(o.world.cache, id) == renewed
            && o.world.cache[id] == Entry(renewed, EXPIRE_TIME)
            && |after| == |before|
            && after[j] == MongoDb.ApplySet(before[j], map["active" := Bool(true)])
            && Models.FromDocument(after[j]) == Some(u.(active := true))
            && forall k | 0 <= k < |before| && k != j :: after[k] == before[k]
  {
    var id := ToHex(oid);
    ObjectIdRoundTrip(oid);
    HexIdIsNoToken(oid);
    assert PairedAt(w.cache, t);
    SetTokenResolves(Del(Del(w.cache, t), id), id, samples);
    UpdateById(w.store, map["active" := Bool(true)], oid, j);
    Models.ActivationRoundTrip(MongoDb.Docs(w.store, Models.USER)[j], u);
  }

  /** A token that resolves to nothing fails with status 500 and changes
      nothing. */
  lemma ConfirmRefusesUnresolvedToken(w: World, t: string, samples: seq<char>)
    requires |samples| >= TOKEN_SIZE && AllAlphanumeric(samples)
    requires Get(w.cache, t) == ""
    ensures var o := Confirm(Some(Token(t)), w, samples);
            o.response.status == HTTP_INTERNAL_SERVER_ERROR && o.world == w
  {
    WrongLengthIsNoObjectId("");
  }

  /** `confirm` keeps the cache made of session pairs. */
  lemma ConfirmKeepsConsistent(body: Option<Token>, w: World, samples: seq<char>)
    requires |samples| >= TOKEN_SIZE && AllAlphanumeric(samples)
    requires Consistent(w.cache) && NewToken(samples) !in w.cache
    ensures Consistent(Confirm(body, w, samples).world.cache)
  {
    if body.Some? {
      var t := body.value.token;
      var idStr := Get(w.cache, t);
      if ParseObjectId(idStr).Some? {
        assert t in w.cache;
        InvalidateKeepsConsistent(w.cache, t);
        SetTokenKeepsConsistent(Del(Del(w.cache, t), idStr), idStr, samples);
      }
    }
  }

  // ---------------------------------------------------------------------------
  // reset_pwd behind the guard
  // ---------------------------------------------------------------------------

  /** `reset_pwd` as written, with the login guard in front of it. */
  function GuardedResetPwd(cfg: Config, req: AuthSchema.ResetPwd, header: Option<string>, w: World,
                           saltSamples: seq<char>): (g: LoginMiddleware.Guarded<Outcome>)
    requires |saltSamples| >= Crypto.SALT_LEN && AllAlphanumeric(saltSamples)
    ensures g.Forwarded? ==> g.result == ResetPwd(cfg, Some(req), Some(g.ext), w, saltSamples)
  {
    LoginMiddleware.Handle(header, w.cache, ext => ResetPwd(cfg, Some(req), Some(ext), w, saltSamples))
  }

  /** `reset_pwd` as evidently intended, with the login guard in front of it. */
  function GuardedResetPwdFixed(cfg: Config, req: AuthSchema.ResetPwd, header: Option<string>, w: World,
                                saltSamples: seq<char>): (g: LoginMiddleware.Guarded<Outcome>)
    requires |saltSamples| >= Crypto.SALT_LEN && AllAlphanumeric(saltSamples)
    ensures g.Forwarded? ==> g.result == ResetPwdFixed(cfg, Some(req), Some(g.ext), w, saltSamples)
  {
    LoginMiddleware.Handle(header, w.cache, ext => ResetPwdFixed(cfg, Some(req), Some(ext), w, saltSamples))
  }

  /** The finding: behind the guard, a valid request carrying any live session
      token fails with status 500 and changes no password. The guard attaches
      the account id; the handler looks that up again, gets the token back,
      and a 32-character token is no ObjectId. */
  lemma ResetPwdFailsForEverySession(cfg: Config, req: AuthSchema.ResetPwd, w: World, header: string,
                                     saltSamples: seq<char>)
    requires |saltSamples| >= Crypto.SALT_LEN && AllAlphanumeric(saltSamples)
    requires AuthSchema.ValidateResetPwd(req) == {}
    requires Consistent(w.cache) && header in w.cache && |header| == TOKEN_SIZE
    ensures var g := GuardedResetPwd(cfg, req, Some(header), w, saltSamples);
            && g.Forwarded?
            && g.result.response.status == HTTP_INTERNAL_SERVER_ERROR && g.result.response.body.None?
            && g.result.world == w
  {
    assert PairedAt(w.cache, header);
    WrongLengthIsNoObjectId(header);
  }

  /** The other half of the finding: behind the guard, a header holding an
      account's hex id, while that account has a session, does change the
      password. The guard attaches the session token, the handler's second
      lookup turns it back into the id, and the id parses. So the reset is
      authorised by the account id, which is no secret, and not by the token. */
  lemma ResetPwdAcceptsAccountIdHeader(cfg: Config, req: AuthSchema.ResetPwd, w: World,
                                       saltSamples: seq<char>, oid: ObjectId, j: nat, u: Models.User)
    requires |saltSamples| >= Crypto.SALT_LEN && AllAlphanumeric(saltSamples)
    requires AuthSchema.ValidateResetPwd(req) == {}
    requires Consistent(w.cache) && ToHex(oid) in w.cache
    requires j < |MongoDb.Docs(w.store, Models.USER)|
    requires GetObjectId(MongoDb.Docs(w.store, Models.USER)[j], "_id") == Some(oid)
    requires forall k | 0 <= k < |MongoDb.Docs(w.store, Models.USER)| && k != j ::
               GetObjectId(MongoDb.Docs(w.store, Models.USER)[k], "_id") != Some(oid)
    requires Models.FromDocument(MongoDb.Docs(w.store, Models.USER)[j]) == Some(u)
    ensures var g := GuardedResetPwd(cfg, req, Some(ToHex(oid)), w, saltSamples);
            var hash := Crypto.HashPassword(cfg.argon, saltSamples, req.password);
            var before := MongoDb.Docs(w.store, Models.USER);
            var after := MongoDb.Docs(g.result.world.store, Models.USER);
            && g.Forwarded?
            && g.result.response.body == Some(New(Some(Message(PASSWORD_CHANGED)), OK))
            && Models.FromDocument(after[j]) == Some(u.(password := hash))
            && (forall k | 0 <= k < |before| && k != j :: after[k] == before[k])
  {
    var hash := Crypto.HashPassword(cfg.argon, saltSamples, req.password);
    assert PairedAt(w.cache, ToHex(oid));
    ObjectIdRoundTrip(oid);
    UpdateById(w.store, map["password" := Str(hash)], oid, j);
    Models.PasswordChangeRoundTrip(MongoDb.Docs(w.store, Models.USER)[j], u, hash);
  }

  /** The corrected handler refuses that header: the guard attaches the
      session token, which is no ObjectId, so the answer is status 500 and
      nothing changes. */
  lemma ResetPwdFixedRefusesAccountIdHeader(cfg: Config, req: AuthSchema.ResetPwd, w: World,
                                            saltSamples: seq<char>, oid: ObjectId)
    requires |saltSamples| >= Crypto.SALT_LEN && AllAlphanumeric(saltSamples)
    requires AuthSchema.ValidateResetPwd(req) == {}
    requires ToHex(oid) in w.cache && |w.cache[ToHex(oid)].value| == TOKEN_SIZE
    ensures var g := GuardedResetPwdFixed(cfg, req, Some(ToHex(oid)), w, saltSamples);
            && g.Forwarded?
            && g.result.response.status == HTTP_INTERNAL_SERVER_ERROR && g.result.response.body.None?
            && g.result.world == w
  {
    WrongLengthIsNoObjectId(w.cache[ToHex(oid)].value);
  }

  /** `reset_pwd` reached with no token attached: every valid request is
      answered UNAUTH and nothing changes. */
  lemma ResetPwdWithoutTokenIsUnauthorized(cfg: Config, req: AuthSchema.ResetPwd, w: World, saltSamples: seq<char>)
    requires |saltSamples| >= Crypto.SALT_LEN && AllAlphanumeric(saltSamples)
    requires AuthSchema.ValidateResetPwd(req) == {}
    ensures ResetPwd(cfg, Some(req), None, w, saltSamples) == Answer(Message(LOGIN_FIRST), UNAUTH, w)
  {
  }

  /** The corrected handler behind the guard: a live session of account `oid`
      stores the hash of the new password on that account, which then reads
      back with only its password changed, and the new password verifies. */
  lemma ResetPwdFixedChangesPassword(cfg: Config, req: AuthSchema.ResetPwd, w: World, header: string,
                                     saltSamples: seq<char>, oid: ObjectId, j: nat, u: Models.User)
    requires |saltSamples| >= Crypto.SALT_LEN && AllAlphanumeric(saltSamples)
    requires AuthSchema.ValidateResetPwd(req) == {}
    requires Get(w.cache, header) == ToHex(oid)
    requires j < |MongoDb.Docs(w.store, Models.USER)|
    requires GetObjectId(MongoDb.Docs(w.store, Models.USER)[j], "_id") == Some(oid)
    requires forall k | 0 <= k < |MongoDb.Docs(w.store, Models.USER)| && k != j ::
               GetObjectId(MongoDb.Docs(w.store, Models.USER)[k], "_id") != Some(oid)
    requires Models.FromDocument(MongoDb.Docs(w.store, Models.USER)[j]) == Some(u)
    ensures var g := GuardedResetPwdFixed(cfg, req, Some(header), w, saltSamples);
            var hash := Crypto.HashPassword(cfg.argon, saltSamples, req.password);
            var before := MongoDb.Docs(w.store, Models.USER);
            var after := MongoDb.Docs(g.result.world.store, Models.USER);
            && g.Forwarded?
            && g.result.response.body == Some(New(Some(Message(PASSWORD_CHANGED)), OK))
            && g.result.world.cache == w.cache
            && |after| == |before|
            && Models.FromDocument(after[j]) == Some(u.(password := hash))
            && (forall k | 0 <= k < |before| && k != j :: after[k] == before[k])
            && (Crypto.ValidDigest(cfg.argon) ==> Crypto.PasswordVerify(cfg.argon, hash, req.password))
  {
    var hash := Crypto.HashPassword(cfg.argon, saltSamples, req.password);
    ObjectIdRoundTrip(oid);
    UpdateById(w.store, map["password" := Str(hash)], oid, j);
    Models.PasswordChangeRoundTrip(MongoDb.Docs(w.store, Models.USER)[j], u, hash);
    Models.StoredHashVerifies(cfg.argon, saltSamples, req.password);
  }
}
