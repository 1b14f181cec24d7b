/** The account lifecycle across handlers: registration, confirmation with the
    mailed token, then login. */
module Lifecycle {
  import opened Wrappers
  import opened Text
  import opened Status
  import opened Responser
  import opened RedisDb
  import opened Bson
  import MongoDb
  import Crypto
  import AuthSchema
  import Models
  import opened AuthRouters
  import AuthFlows

  /** A lookup by e-mail that found nothing means no stored account has that
      address. */
  lemma EmptyLookupMeansNoMatch(store: MongoDb.Store, email: string)
    requires MongoDb.Find(store, ByEmail(email)) == Ok([])
    ensures MongoDb.Filter(MongoDb.Docs(store, Models.USER), map["email" := Str(email)]) == []
  {
  }

  /** The account `u`, stored as `d` under `oid`, is the last document of the
      collection, and no earlier document has that id. */
  predicate StoredLast(w: World, oid: ObjectId, docs0: seq<Document>, d: Document, u: Models.User) {
    && MongoDb.Docs(w.store, Models.USER) == docs0 + [d]
    && GetObjectId(d, "_id") == Some(oid) && Models.FromDocument(d) == Some(u)
    && forall i | 0 <= i < |docs0| :: GetObjectId(docs0[i], "_id") != Some(oid)
  }

  /** The account is stored last and the token `t` of a consistent cache
      resolves to its id: the state a registration leaves behind. */
  ghost predicate AwaitingConfirmation(w: World, t: string, oid: ObjectId, docs0: seq<Document>, d: Document, u: Models.User) {
    StoredLast(w, oid, docs0, d, u) && Consistent(w.cache) && Get(w.cache, t) == ToHex(oid)
  }

  /** Confirmation of a freshly registered account, stored last in the
      collection: the account is activated in place, the mailed token is
      consumed, and the new token's session has its full lifetime. */
  lemma ConfirmAfterRegister(w1: World, t1: string, s2: seq<char>, oid: ObjectId,
                             docs0: seq<Document>, d: Document, u: Models.User)
    requires |s2| >= TOKEN_SIZE && AllAlphanumeric(s2)
    requires AwaitingConfirmation(w1, t1, oid, docs0, d, u)
    requires NewToken(s2) != t1 && NewToken(s2) !in w1.cache
    ensures var o2 := Confirm(Some(Token(t1)), w1, s2);
            && o2.response.body == Some(New(Some(Session(Token(NewToken(s2)))), OK))
            && MongoDb.Docs(o2.world.store, Models.USER) == docs0 + [MongoDb.ApplySet(d, map["active" := Bool(true)])]
            && Models.FromDocument(MongoDb.ApplySet(d, map["active" := Bool(true)])) == Some(u.(active := true))
            && GetObjectId(MongoDb.ApplySet(d, map["active" := Bool(true)]), "_id") == Some(oid)
            && Consistent(o2.world.cache)
            && o2.world.cache[ToHex(oid)] == Entry(NewToken(s2), EXPIRE_TIME)
  {
    var docs1 := docs0 + [d];
    var j := |docs0|;
    assert forall k | 0 <= k < |docs1| && k != j :: docs1[k] == docs0[k];
    AuthFlows.HexIdIsNoToken(oid);
    AuthFlows.ConfirmActivates(w1, t1, s2, oid, j, u);
    AuthFlows.ConfirmKeepsConsistent(Some(Token(t1)), w1, s2);
    var o2 := Confirm(Some(Token(t1)), w1, s2);
    LastReplaced(docs0, d, MongoDb.Docs(o2.world.store, Models.USER));
    assert MongoDb.ApplySet(d, map["active" := Bool(true)])["_id"] == d["_id"];
  }

  /** A sequence as long as `docs0 + [d]` that agrees with it everywhere but
      the last position is `docs0` followed by its own last element. */
  lemma LastReplaced(docs0: seq<Document>, d: Document, after: seq<Document>)
    requires |after| == |docs0| + 1
    requires forall k | 0 <= k < |docs0| + 1 && k != |docs0| :: after[k] == (docs0 + [d])[k]
    ensures after == docs0 + [after[|docs0|]]
  {
  }

  /** When the last stored account is the only one with an address, the
      lookup by that address finds exactly it. */
  lemma FindsOnlyLast(store: MongoDb.Store, email: string, docs0: seq<Document>, d: Document)
    requires MongoDb.Docs(store, Models.USER) == docs0 + [d]
    requires MongoDb.Filter(docs0, map["email" := Str(email)]) == []
    requires MongoDb.Matches(d, map["email" := Str(email)])
    ensures MongoDb.Find(store, ByEmail(email)) == Ok([d])
  {
    var ef := map["email" := Str(email)];
    MongoDb.FilterAppend(docs0, [d], ef);
    assert MongoDb.Filter([d], ef) == [d];
  }

  /** Login for the account stored last, when no earlier account has its
      address and its session has at least an hour left: the session's token
      is handed back and nothing changes. */
  lemma LoginAfterConfirm(cfg: Config, login: AuthSchema.Login, w2: World, s3: seq<char>,
                          docs0: seq<Document>, d: Document, oid: ObjectId, u: Models.User)
    requires |s3| >= TOKEN_SIZE && AllAlphanumeric(s3)
    requires AuthSchema.ValidateLogin(login, cfg.isEmail) == {}
    requires MongoDb.Docs(w2.store, Models.USER) == docs0 + [d]
    requires MongoDb.Filter(docs0, map["email" := Str(login.email)]) == []
    requires GetObjectId(d, "_id") == Some(oid) && Models.FromDocument(d) == Some(u) && u.email == login.email
    requires Crypto.PasswordVerify(cfg.argon, u.password, login.password)
    requires Consistent(w2.cache) && ToHex(oid) in w2.cache && w2.cache[ToHex(oid)].ttl >= RENEW_THRESHOLD
    ensures Login(cfg, Some(login), w2, s3) == Answer(Session(Token(w2.cache[ToHex(oid)].value)), OK, w2)
  {
    assert MongoDb.Matches(d, map["email" := Str(login.email)]);
    FindsOnlyLast(w2.store, login.email, docs0, d);
    AuthFlows.HexIdIsNoToken(oid);
    AuthFlows.LoginHandsOutResolvingToken(cfg, login, w2, s3, d, oid, u);
    AuthFlows.LoginSessionPolicy(w2.cache, ToHex(oid), s3);
  }

  /** Confirmation of the account stored last, then login with its
      password: login hands back the token confirmation issued, which
      resolves to the account id. */
  lemma ConfirmThenLogin(cfg: Config, login: AuthSchema.Login, w1: World, t1: string,
                         s2: seq<char>, s3: seq<char>, oid: ObjectId,
                         docs0: seq<Document>, d: Document, u: Models.User)
    requires |s2| >= TOKEN_SIZE && AllAlphanumeric(s2)
    requires |s3| >= TOKEN_SIZE && AllAlphanumeric(s3)
    requires AuthSchema.ValidateLogin(login, cfg.isEmail) == {}
    requires AwaitingConfirmation(w1, t1, oid, docs0, d, u) && u.email == login.email
    requires MongoDb.Filter(docs0, map["email" := Str(login.email)]) == []
    requires Crypto.PasswordVerify(cfg.argon, u.password, login.password)
    requires NewToken(s2) != t1 && NewToken(s2) !in w1.cache
    ensures var o2 := Confirm(Some(Token(t1)), w1, s2);
            && Login(cfg, Some(login), o2.world, s3) == Answer(Session(Token(NewToken(s2))), OK, o2.world)
            && Get(o2.world.cache, NewToken(s2)) == ToHex(oid)
  {
    ConfirmAfterRegister(w1, t1, s2, oid, docs0, d, u);
    var o2 := Confirm(Some(Token(t1)), w1, s2);
    assert PairedAt(o2.world.cache, ToHex(oid));
    LoginAfterConfirm(cfg, login, o2.world, s3, docs0, MongoDb.ApplySet(d, map["active" := Bool(true)]),
                      oid, u.(active := true));
  }

  /** The address and password a registration accepted also pass login's
      validation, and the stored hash verifies against that password. */
  lemma RegisteredCredentialsLogIn(cfg: Config, reg: AuthSchema.Register, saltSamples: seq<char>, now: Models.Timestamp)
    requires Crypto.ValidDigest(cfg.argon)
    requires |saltSamples| >= Crypto.SALT_LEN && AllAlphanumeric(saltSamples)
    requires AuthSchema.ValidateRegister(reg, cfg.isEmail) == {}
    ensures AuthSchema.ValidateLogin(AuthSchema.Login(reg.email, reg.password), cfg.isEmail) == {}
    ensures Crypto.PasswordVerify(cfg.argon, Models.FromRegister(cfg.argon, saltSamples, now, reg).password, reg.password)
  {
  }

  /** What registration of a new address at `oid` leaves behind: the pending
      account stored last, and the mailed token resolving to its id. */
  lemma AfterRegister(cfg: Config, reg: AuthSchema.Register, w0: World,
                      saltSamples: seq<char>, oid: ObjectId, now: Models.Timestamp, s1: seq<char>, s2: seq<char>)
    requires |saltSamples| >= Crypto.SALT_LEN && AllAlphanumeric(saltSamples)
    requires |s1| >= TOKEN_SIZE && AllAlphanumeric(s1)
    requires |s2| >= TOKEN_SIZE && AllAlphanumeric(s2)
    requires AuthSchema.ValidateRegister(reg, cfg.isEmail) == {}
    requires MongoDb.Find(w0.store, ByEmail(reg.email)) == Ok([])
    requires forall i | 0 <= i < |MongoDb.Docs(w0.store, Models.USER)| ::
               GetObjectId(MongoDb.Docs(w0.store, Models.USER)[i], "_id") != Some(oid)
    requires Consistent(w0.cache) && ToHex(oid) !in w0.cache
    requires NewToken(s1) !in w0.cache && NewToken(s2) !in w0.cache && NewToken(s2) != NewToken(s1)
    ensures Register(cfg, Some(reg), w0, saltSamples, s1, oid, now).mails
         == [ConfirmMail(reg.email, REGISTER_SUBJECT, cfg.domain, Token(NewToken(s1)))]
    ensures var u := Models.FromRegister(cfg.argon, saltSamples, now, reg);
            AwaitingConfirmation(Register(cfg, Some(reg), w0, saltSamples, s1, oid, now).world, NewToken(s1), oid,
                                 MongoDb.Docs(w0.store, Models.USER), Models.ToDocument(u)["_id" := Oid(oid)], u)
    ensures NewToken(s2) !in Register(cfg, Some(reg), w0, saltSamples, s1, oid, now).world.cache
    ensures MongoDb.Filter(MongoDb.Docs(w0.store, Models.USER), map["email" := Str(reg.email)]) == []
  {
    EmptyLookupMeansNoMatch(w0.store, reg.email);
    var u := Models.FromRegister(cfg.argon, saltSamples, now, reg);
    var o1 := Register(cfg, Some(reg), w0, saltSamples, s1, oid, now);
    AuthFlows.HexIdIsNoToken(oid);
    Models.StoredRoundTrip(u, oid);
    AuthFlows.RegisterCreatesPendingAccount(cfg, reg, w0, saltSamples, s1, oid, now);
    AuthFlows.RegisterKeepsConsistent(cfg, Some(reg), w0, saltSamples, s1, oid, now);
    RegisterAddsOnlyItsSession(cfg, reg, w0, saltSamples, oid, now, s1, s2);
  }

  /** Registration adds only the new session's pair to the cache: a token
      absent before, other than the mailed one, is still absent. */
  lemma RegisterAddsOnlyItsSession(cfg: Config, reg: AuthSchema.Register, w0: World,
                                   saltSamples: seq<char>, oid: ObjectId, now: Models.Timestamp, s1: seq<char>, s2: seq<char>)
    requires |saltSamples| >= Crypto.SALT_LEN && AllAlphanumeric(saltSamples)
    requires |s1| >= TOKEN_SIZE && AllAlphanumeric(s1)
    requires |s2| >= TOKEN_SIZE && AllAlphanumeric(s2)
    requires NewToken(s2) !in w0.cache && NewToken(s2) != NewToken(s1)
    ensures NewToken(s2) !in Register(cfg, Some(reg), w0, saltSamples, s1, oid, now).world.cache
  {
    var o1 := Register(cfg, Some(reg), w0, saltSamples, s1, oid, now);
    AuthFlows.HexIdIsNoToken(oid);
    assert o1.world.cache.Keys <= w0.cache.Keys + {NewToken(s1), ToHex(oid)};
  }

  /** After a new address registers at `oid`, the confirmation link's token is
      confirmed, and the user logs in with the registered password: login
      hands back the very token confirmation issued, which resolves to the
      account id. */
  lemma RegisterConfirmLogin(cfg: Config, reg: AuthSchema.Register, w0: World,
                             saltSamples: seq<char>, oid: ObjectId, now: Models.Timestamp,
                             s1: seq<char>, s2: seq<char>, s3: seq<char>)
    requires Crypto.ValidDigest(cfg.argon)
    requires |saltSamples| >= Crypto.SALT_LEN && AllAlphanumeric(saltSamples)
    requires |s1| >= TOKEN_SIZE && AllAlphanumeric(s1)
    requires |s2| >= TOKEN_SIZE && AllAlphanumeric(s2)
    requires |s3| >= TOKEN_SIZE && AllAlphanumeric(s3)
    requires AuthSchema.ValidateRegister(reg, cfg.isEmail) == {}
    requires MongoDb.Find(w0.store, ByEmail(reg.email)) == Ok([])
    requires forall i | 0 <= i < |MongoDb.Docs(w0.store, Models.USER)| ::
               GetObjectId(MongoDb.Docs(w0.store, Models.USER)[i], "_id") != Some(oid)
    requires Consistent(w0.cache) && ToHex(oid) !in w0.cache
    requires NewToken(s1) !in w0.cache && NewToken(s2) !in w0.cache && NewToken(s2) != NewToken(s1)
    ensures var o1 := Register(cfg, Some(reg), w0, saltSamples, s1, oid, now);
            var o2 := Confirm(Some(Token(NewToken(s1))), o1.world, s2);
            var o3 := Login(cfg, Some(AuthSchema.Login(reg.email, reg.password)), o2.world, s3);
            && o3 == Answer(Session(Token(NewToken(s2))), OK, o2.world)
            && Get(o3.world.cache, NewToken(s2)) == ToHex(oid)
  {
    var id := ToHex(oid);
    var u := Models.FromRegister(cfg.argon, saltSamples, now, reg);
    var docs0 := MongoDb.Docs(w0.store, Models.USER);
    var d := Models.ToDocument(u)["_id" := Oid(oid)];
    AfterRegister(cfg, reg, w0, saltSamples, oid, now, s1, s2);
    var o1 := Register(cfg, Some(reg), w0, saltSamples, s1, oid, now);
    RegisteredCredentialsLogIn(cfg, reg, saltSamples, now);
    ConfirmThenLogin(cfg, AuthSchema.Login(reg.email, reg.password), o1.world, NewToken(s1), s2, s3,
                     oid, docs0, d, u);
  }
}
