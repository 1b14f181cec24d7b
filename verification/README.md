# Account and session core of tide-server-example, in Dafny

This project models the account and session logic of the tide-server-example
web service. That service is a Rust server with a MongoDB account store and a
Redis session cache. The model covers five areas:

- **The authentication handlers.** `login`, `register`, `confirm`, `resend`
  and `reset_pwd` (src/auth/routers.rs), their request validation rules
  (src/auth/schema.rs), and the construction of a new account from a
  registration (src/models/users.rs).
- **The session cache.** `set_token` and its constants (src/db/redis_db.rs),
  plus the login guard that resolves the `Authorization` header
  (src/middleware/login_middleware.rs).
- **The stored password format.** `rand_str`, `hash_password` and
  `password_verify` (src/utils/crypto.rs), with base 64 written out as in
  section 4 of RFC 4648.
- **The MongoDB wrapper.** The `Options` builder and the many/one dispatch of
  `delete` and `update` (src/db/mongo_db.rs), over an abstract document store.
- **The user listing and the response envelope.** The user listing
  `get_user` (src/users/routers.rs), and the response envelope with its
  `responser` error mapping (src/utils/responser.rs, src/utils/status.rs).

Every handler is a pure function. It takes:

- the parsed request;
- the current `World`, that is, the cache and the store;
- the outside inputs it consumes: the characters the random generator yields,
  the ObjectId the store assigns, the clock.

It returns an `Outcome`: the response, the new world, and the mails sent.

The cache is a map from key to (value, remaining seconds). A session of
account `I` with token `T` is the pair of entries `T -> I` and `I -> T`. The
predicate `RedisDb.Consistent` says the cache holds only such pairs. A
missing key reads as the empty string, which is what the handlers test for
(a modelling choice: see `RedisDb.Get` under "Left out").

Argon2id (RFC 9106) is the parameter `Crypto.Digest`. It is a function from
(password bytes, salt bytes, tag length) to tag bytes. `Crypto.ValidDigest`
says it returns as many bytes as asked for.

An error a handler propagates with `?` becomes a response without a body:
status 500, or 422 for an unreadable JSON body. The `responser` middleware
later turns that into an envelope.

Files, one module each: `wrappers.dfy`, `text.dfy` (Rust `str` helpers),
`base64.dfy`, `bson.dfy`, `status.dfy`, `responser.dfy`, `crypto.dfy`,
`redis_db.dfy`, `mongo_db.dfy`, `auth_schema.dfy`, `models.dfy`,
`login_middleware.dfy`, `auth_routers.dfy`, `users_routers.dfy`. Properties
that relate several handler calls live in `auth_flows.dfy` (one handler) and
`lifecycle.dfy` (register, then confirm, then login).

Where the behaviour documented for the service and its code differ, the model
follows the code:

- **The login guard forwards unknown tokens.** It refuses only a request
  *without* an `Authorization` header. A header that names no cache key is
  forwarded, and under the model's reading of a missing key as the empty
  string it carries an empty token (login_middleware.rs:27-37).
- **The salt encoding in `password_verify` is symmetric.** It base 64-encodes
  the salt before rebuilding the Argon2 encoding. This is not an asymmetry:
  `argon2::hash_encoded` writes the salt in base 64 too, and for a 12-byte
  salt `replace("==", "")` changes nothing (`Base64.TwelveBytesNeedNoPadding`).
  A hash verifies against its own password (`Crypto.HashThenVerify`).
- **Login does not check activation.** It never looks at `active`, so an
  unconfirmed account can log in.

## Model

| member | source | states |
|---|---|---|
| Responser.New | src/utils/responser.rs:13-19 | The envelope takes code and message from the status pair and the payload from the argument, unchanged. |
| Responser.ToResult | src/utils/responser.rs:21-26 | The result is always HTTP 200 with the envelope as body; the outcome shows only in the envelope's code. |
| Responser.Respond | src/utils/responser.rs:29-51 | As written. A response without an error passes unchanged. An HTTP 200 response loses its error and passes on. Any other failed response becomes an HTTP 200 envelope chosen by its status, built from the fallback message "UNKNOWN错误，请查看日志": statuses 500, 401 and 400 show that text, 422 shows "请求参数有误" and any other status "UNKNOWN". |
| Responser.StatusMapping | src/utils/responser.rs:36-47 | Code by code: 500 and 422 become 1010 (SYS_ERROR), 401 becomes 1012, 400 becomes 1011, every other failing status becomes 1020. A 422 carries "请求参数有误". The replacement is HTTP 200. |
| Responser.RespondDropsErrorMessage | src/utils/responser.rs:30-34 | A 400 failure with text "boom" reaches the client as the fallback text, not "boom"; the corrected mapping shows "boom". |
| Responser.RespondFixed | src/utils/responser.rs:29-51 | Corrected: the same mapping, but the envelope carries the error's own message. |
| Responser.RespondVersionsAgreeOnCodes | src/utils/responser.rs:36-47 | The correction changes only payload text. Both versions pass on and replace the same responses, with the same codes. |
| Crypto.RandStr | src/utils/crypto.rs:13-19 | Exactly `length` characters, all ASCII alphanumeric, taken in order from the generator's stream. |
| Crypto.EncodedPrefixText | src/utils/crypto.rs:58-64 | The encoding prefix rebuilt from the constants (variant, version 19, m=4096, t=10, p=4) is the literal `$argon2id$v=19$m=4096,t=10,p=4$`. |
| Crypto.VerifyEncoded | src/utils/crypto.rs:68 | The Argon2 verifier succeeds only on a string whose `$`-fields are the six fields of this configuration. |
| Crypto.NoSeparatorsInBase64 | src/utils/crypto.rs:37-38 | No base 64 text contains `$` or `:`, so neither separator can appear inside a salt encoding or a digest. |
| Crypto.SplitHashEncoded | src/utils/crypto.rs:36-37 | The encoding of any salt and tag splits on `$` into exactly its six fields. |
| Crypto.DigestSegment | src/utils/crypto.rs:36-37 | The last `$`-segment of the Argon2 encoding is exactly the unpadded base 64 of the raw tag. |
| Crypto.HashPassword | src/utils/crypto.rs:21-39 | The output starts with the 12-character salt, then `:`. Splitting it on `:` gives exactly two parts: the salt and the base 64 tag for (password, salt). |
| Crypto.VerifyHashEncoded | src/utils/crypto.rs:58-68 | Verifying against an encoding of a salt and a 32-byte tag recomputes the tag for that salt and compares the two. |
| Crypto.PasswordVerify | src/utils/crypto.rs:41-69 | True if and only if three things hold: there are at least two `:`-segments, the first is 12 bytes long, and the rebuilt encoding verifies. Every failure is false, never an error. |
| Crypto.HashThenVerify | src/utils/crypto.rs:75-79 | The unit test, for every password and every salt: a password verifies against its own hash. |
| Crypto.HashVerifiesExactly | src/utils/crypto.rs:41-69 | An attempt verifies against a stored hash exactly when Argon2 gives it the same tag under the stored salt. |
| Crypto.TrailingSegmentsIgnored | src/utils/crypto.rs:43-57 | Text after a second `:` does not affect the verdict. |
| Crypto.NoDigestNeverVerifies | src/utils/crypto.rs:54-55 | A stored hash with no `:` never verifies. |
| Base64.SextetRoundTrip | src/utils/crypto.rs:50 | The alphabet table of RFC 4648 section 4 maps each 6-bit value to a character that maps back. |
| Base64.CharSextetRoundTrip | src/utils/crypto.rs:50 | Each alphabet character maps to a value that maps back to it. |
| Base64.SeparatorsOffAlphabet | src/utils/crypto.rs:37-38 | `:`, `$` and `=` are not alphabet characters. |
| Base64.EncodeNoPad | src/utils/crypto.rs:36-37 | Unpadded output has ceil(4n/3) characters, all from the alphabet. |
| Base64.NoPadHasNoPadChar | src/utils/crypto.rs:36-37 | Unpadded output never contains `=`. |
| Base64.Encode | src/utils/crypto.rs:50 | Padded output has 4·ceil(n/3) characters and holds `=` exactly when n is not a multiple of 3. For whole groups it equals the unpadded form. |
| Base64.StripDoublePad | src/utils/crypto.rs:50 | `encode(s).replace("==", "")` is the unpadded form, except that a two-byte final group keeps its single `=`. |
| Base64.TwelveBytesNeedNoPadding | src/utils/crypto.rs:47-50 | A 12-byte salt encodes to 16 characters with no padding, so removing `"=="` changes nothing. |
| Base64.ShortGroupSpareBits | src/utils/crypto.rs:68 | A final group of two or three characters is refused exactly when a bit past its last whole byte is set. |
| Base64.NoPadRoundTrip | src/utils/crypto.rs:68 | Unpadded decoding inverts unpadded encoding, for every byte string. |
| Base64.RoundTrip | src/utils/crypto.rs:50 | Padded decoding inverts padded encoding, for every byte string. |
| Text.Split | src/utils/crypto.rs:43 | `split` on one character gives at least one piece, and no piece contains the separator. |
| Text.JoinSplit | src/utils/crypto.rs:43 | Joining the pieces with the separator restores the string. |
| Text.SplitJoin | src/utils/crypto.rs:38-43 | When no piece holds the separator, splitting the joined pieces gives them back. |
| Text.LastPieceAfterSep | src/utils/crypto.rs:37 | `split(sep).last()` is the separator-free text after the last separator. |
| Text.Utf8 | src/utils/crypto.rs:47 | `as_bytes()`: at least one byte per character, so `len()` counts bytes. |
| Text.AsciiUtf8 | src/utils/crypto.rs:23-24 | For ASCII text (the salt), the bytes are the character codes, one per character. |
| Text.ReplaceAll | src/utils/crypto.rs:50 | `replace` leaves a string alone when the pattern's first character does not occur in it. What a replaced occurrence becomes is stated for the one use, by `Base64.StripDoublePad`. |
| Text.ReplaceWithoutOccurrence | src/utils/crypto.rs:50 | `replace` leaves a string alone when the pattern occurs nowhere in it. |
| Bson.ToHex | src/auth/routers.rs:32 | `to_hex` gives 24 hex digits. |
| Bson.ParseObjectId | src/auth/routers.rs:104 | `ObjectId::with_string` succeeds exactly on 24 hex digits. |
| Bson.ObjectIdRoundTrip | src/auth/routers.rs:104 | The hex form of an ObjectId parses back to the same ObjectId. |
| Bson.WrongLengthIsNoObjectId | src/auth/routers.rs:191 | A string of any length other than 24, such as a 32-character token or the empty string, is no ObjectId. |
| Bson.GetObjectId | src/auth/routers.rs:32 | `get_object_id` yields the id exactly when the field holds an ObjectId. |
| RedisDb.Get | src/auth/routers.rs:38-39 | A missing key reads as the empty string; a present key reads as its value. |
| RedisDb.Del | src/auth/routers.rs:43-44 | `DEL` removes exactly that key and keeps every other entry. |
| RedisDb.SetEx | src/db/redis_db.rs:43-44 | `SETEX` adds or overwrites exactly that key, with that value and lifetime. |
| RedisDb.NewToken | src/db/redis_db.rs:8 | The token is 32 alphanumeric characters. |
| RedisDb.SetToken | src/db/redis_db.rs:40-46 | Returns the stored token. Writes `id -> token`, and `token -> id` when they differ, both for 43200 seconds. Touches no other key. |
| RedisDb.SetTokenResolves | src/db/redis_db.rs:43-45 | After `set_token(I)` returns `T`, `T` resolves to `I` and `I` to `T`. |
| RedisDb.PresentKeysResolve | src/auth/routers.rs:39 | In a cache of session pairs, reading the empty string means the key is absent. |
| RedisDb.InvalidateKeepsConsistent | src/auth/routers.rs:43-44 | Deleting both halves of a session keeps the other pairs, and neither half resolves any more. |
| RedisDb.SetTokenKeepsConsistent | src/db/redis_db.rs:40-46 | Issuing a new token for an account with no session keeps the cache made of session pairs. |
| RedisDb.SetTokenOrphansOldToken | src/db/redis_db.rs:43-44 | On an account that still has a session, `set_token` overwrites `id -> T0` but leaves `T0 -> id`. The old token still resolves, and the cache is no longer made of pairs. |
| MongoDb.New | src/db/mongo_db.rs:160-176 | `Options::new` stores every argument as given. |
| MongoDb.SetCollect | src/db/mongo_db.rs:178-180 | Only `collect` changes. |
| MongoDb.DelOpt | src/db/mongo_db.rs:181-185 | Sets collect, filter and limit; skip, sort and projection are kept. |
| MongoDb.UpdateOpt | src/db/mongo_db.rs:187-191 | Sets collect, filter and limit; skip, sort and projection are kept. |
| MongoDb.FindOneOpt | src/db/mongo_db.rs:193-197 | Sets collect, filter and a limit of 1; the rest is kept. |
| MongoDb.BuildersAgree | src/db/mongo_db.rs:181-197 | `del_opt` and `update_opt` build identical options; `find_one_opt` is `del_opt` with `Some(1)`. |
| MongoDb.WriteArity | src/db/mongo_db.rs:99-112 | The many-document operation is chosen exactly when a limit is present, whatever its value. |
| MongoDb.WriteFilter | src/db/mongo_db.rs:98 | A missing filter is the empty document. |
| MongoDb.MissingFilterMatchesEverything | src/db/mongo_db.rs:124 | With no filter, `delete` and `update` match every document. |
| MongoDb.Filter | src/db/mongo_db.rs:40 | Every selected document matches the filter, and there are no more of them than stored documents. |
| MongoDb.FilterMembers | src/db/mongo_db.rs:40 | A document is selected exactly when it is stored and matches. |
| MongoDb.FilterAppend | src/db/mongo_db.rs:40 | Selection works document by document in store order: selecting from `a + b` gives the selection from `a`, then the selection from `b`. |
| MongoDb.Project | src/db/mongo_db.rs:35 | A projection keeps the named fields and `_id`, unchanged, and drops the rest. |
| MongoDb.Window | src/db/mongo_db.rs:31-34 | The matches after skip and limit: at most abs(limit) of them when the limit is non-zero, each a stored matching document. |
| MongoDb.Find | src/db/mongo_db.rs:30-50 | Fails exactly on a negative skip. Returns at most abs(limit) documents when the limit is non-zero; without a projection, each is a stored matching document. |
| MongoDb.FoundKeepsFilteredField | src/db/mongo_db.rs:30-50 | A found document still carries the filtered value of every field the projection keeps. |
| MongoDb.InsertOne | src/db/mongo_db.rs:52-67 | The document goes last in its collection with the new `_id`, and the hex id is returned. Other collections do not change. A duplicate id is an error. |
| MongoDb.RemoveAll | src/db/mongo_db.rs:103 | `delete_many` counts every match. Every document it keeps is a stored non-match, and every stored non-match is kept. |
| MongoDb.RemoveAllPartition | src/db/mongo_db.rs:103 | The kept documents and the matches together are the stored documents, each as often as it is stored. |
| MongoDb.RemoveAllAppend | src/db/mongo_db.rs:103 | `delete_many` works document by document, so the kept documents stay in store order. |
| MongoDb.RemoveFirst | src/db/mongo_db.rs:109 | `delete_one` removes one document exactly when one matches, and with no match the collection is unchanged. |
| MongoDb.RemoveFirstRemovesOnlyFirstMatch | src/db/mongo_db.rs:109 | `delete_one` removes the first matching document and keeps every other document in its order. |
| MongoDb.Delete | src/db/mongo_db.rs:97-121 | With a limit it deletes as many as match; without one, at most one. Other collections do not change. |
| MongoDb.DeleteWithLimitRemovesAllMatches | src/db/mongo_db.rs:99-105 | Any limit at all removes every match; no survivor matches. |
| MongoDb.DeleteManyTest | src/db/mongo_db.rs:381-392 | The source's test: `del_opt(.., Some(1))` on two matching accounts deletes 2. |
| MongoDb.ApplySet | src/auth/routers.rs:105 | `$set` overwrites or adds the given fields and keeps every other field. |
| MongoDb.UpdateAll | src/db/mongo_db.rs:129 | `update_many` applies `$set` to every match and leaves the others. The count never exceeds the number of matches. |
| MongoDb.UpdateFirst | src/db/mongo_db.rs:135 | `update_one` keeps the collection's length and modifies at most one document. With no match, nothing changes and the count is 0. |
| MongoDb.UpdateFirstChangesOnlyFirstMatch | src/db/mongo_db.rs:132-137 | `update_one` sets the first match and leaves every other document as it was. |
| MongoDb.Update | src/db/mongo_db.rs:123-146 | Keeps the collection's length and leaves other collections alone. Without a limit at most one document is modified. |
| AuthSchema.ValidateLogin | src/auth/schema.rs:3-9 | A field is reported exactly when it breaks its rule: the e-mail check, or a password of at least 3 characters. |
| AuthSchema.ValidateRegister | src/auth/schema.rs:11-24 | Reports the username when it is shorter than 4 characters and the e-mail when it fails the check. Reports the password when it differs from `confirm` or is shorter than 6 characters. |
| AuthSchema.ValidateResend | src/auth/schema.rs:26-31 | Valid exactly when the e-mail passes the check. |
| AuthSchema.ValidateResetPwd | src/auth/schema.rs:33-41 | Valid exactly when the password equals `confirm` and has at least 6 characters. |
| AuthSchema.UnconstrainedFields | src/auth/schema.rs:17 | Neither `phone` nor `forget` ever affects validation. |
| Models.FromRegister | src/models/users.rs:20-34 | Builds an inactive account with no `update_at`, created now. Username, e-mail and phone are copied. The stored password has the `salt:digest` shape and verifies against the requested one. |
| Models.StoredHashVerifies | src/models/users.rs:23 | The stored hash of a password verifies against that password. |
| Models.ToDocument | src/models/users.rs:9-18 | Serialising an account writes its seven fields, the timestamps as strings and a missing `update_at` as `null`. |
| Models.FromDocument | src/models/users.rs:9-18 | A document reads as an account exactly when its fields are present with their serde types: strings, a boolean, the creation time as a string, and `update_at` missing, `null` or a string. Every field of the account equals the document's. |
| Models.StoredDateIsRefused | src/models/users.rs:16 | A creation time stored as a BSON date, not as chrono's string, makes the document unreadable as an account. |
| Models.DocumentRoundTrip | src/models/users.rs:9-18 | Storing an account and reading it back gives the same account, whatever extra fields the document holds. |
| Models.StoredRoundTrip | src/db/mongo_db.rs:52-56 | The inserted document with its `_id` reads back as the same account and carries that id. |
| Models.ActivationRoundTrip | src/auth/routers.rs:105 | `$set` of `active` reads back as the activation of the same account. |
| Models.PasswordChangeRoundTrip | src/auth/routers.rs:194 | `$set` of `password` reads back as the same account with only the password replaced. |
| LoginMiddleware.Handle | src/middleware/login_middleware.rs:26-39 | Without a header the request is refused with UNAUTH and `next` does not run. With one, the attached token is the cache value under the header, and `next` runs once; its answer is returned as is. |
| LoginMiddleware.AttachesAccountId | src/middleware/login_middleware.rs:31-33 | For a header carrying a token from `set_token(I)`, the attached value is `I`. |
| LoginMiddleware.LookupAgainGivesToken | src/auth/routers.rs:188 | Looking the attached value up again gives back the header's own token: `get(get(T)) = T`. |
| LoginMiddleware.UnknownTokenIsForwarded | src/middleware/login_middleware.rs:28-35 | A header naming no cache key is forwarded with an empty token attached, a missing key reading as the empty string. |
| AuthRouters.ConfirmMail | src/auth/routers.rs:84-92 | The mail body is the domain, then `/api/v1/auth/confirm/`, then the token. |
| AuthRouters.Reissue | src/auth/routers.rs:43-45 | Afterwards `id` and the new token resolve to each other; the old token resolves to nothing unless the draw repeated it; the key set is the old one less `id` and the old token, plus both new keys; every other key keeps its entry. |
| AuthRouters.LoginSession | src/auth/routers.rs:38-53 | Either the cache is untouched, or the handed-out token is the newly drawn one. |
| AuthRouters.Login | src/auth/routers.rs:13-57 | Never touches the store or sends mail. Every answer other than OK leaves the cache untouched. An OK answer carries a session token. |
| AuthRouters.Register | src/auth/routers.rs:59-95 | Only OK changes anything. It sends exactly one mail to the registered address, carrying the link with the token `set_token` issued for the new id, and that token is in the cache. |
| AuthRouters.Confirm | src/auth/routers.rs:97-117 | Sends no mail. An envelope answer means the token resolved to a valid ObjectId, and it hands out the newly drawn token. Every failure changes nothing. |
| AuthRouters.ResendSession | src/auth/routers.rs:137-159 | Refuses exactly when a session exists with more than 3600 seconds left; otherwise it issues the newly drawn token. |
| AuthRouters.Resend | src/auth/routers.rs:119-170 | Never touches the store. An address no account has gets BAD_REQUEST "帐号不存在". A refusal sends no mail and changes nothing. OK hands out the new token and mails its link to the address in the request. |
| AuthRouters.ChangePassword | src/auth/routers.rs:190-196 | The cache does not change and the answer is "密码修改成功！". |
| AuthRouters.ResetPwd | src/auth/routers.rs:172-197 | As written. Never touches the cache or sends mail. OK requires an attached token whose cache value, looked up again, parses as an ObjectId. Every other answer changes nothing. |
| AuthRouters.ResetPwdFixed | src/auth/routers.rs:172-197 | Corrected: the attached value itself must parse as the account's ObjectId. |
| AuthFlows.HexIdIsNoToken | src/db/redis_db.rs:8 | An account id in hex is neither empty nor as long as a token. |
| AuthFlows.ReissueKeepsConsistent | src/auth/routers.rs:43-45 | Replacing a session keeps the cache made of session pairs. |
| AuthFlows.LoginSessionPolicy | src/auth/routers.rs:38-53 | With 3600 s or more left, the existing token comes back and nothing changes. With less, a new token replaces it and the old one stops resolving. Without a session, a first token is issued. The token resolves to the id, and the cache stays made of pairs. |
| AuthFlows.ResendSessionPolicy | src/auth/routers.rs:137-159 | Refuses exactly when more than 3600 s are left. Otherwise the new token resolves to the id, the old token stops resolving, and the cache stays made of pairs. |
| AuthFlows.ThresholdBoundary | src/auth/routers.rs:42 | At exactly 3600 s left, login (`seconds < 3600`) reuses the token, while resend (`seeds > 3600`, line 142) replaces it. |
| AuthFlows.LoginKeepsConsistent | src/auth/routers.rs:13-57 | `login` keeps the cache made of session pairs. |
| AuthFlows.LoginHandsOutResolvingToken | src/auth/routers.rs:32-53 | The right password gets OK with a token that resolves to the account id and back, whether or not the account is active. |
| AuthFlows.LoginRefusesWrongPassword | src/auth/routers.rs:36-55 | A wrong password gets UNAUTH with an empty payload, and nothing changes. |
| AuthFlows.LoginRefusesUnknownEmail | src/auth/routers.rs:27-30 | An unknown address gets BAD_REQUEST "帐号不存在", and nothing changes. |
| AuthFlows.ResendRefusesUnknownEmail | src/auth/routers.rs:130-133 | Resend to an address no account has gets BAD_REQUEST "帐号不存在": no token, no mail, nothing changed. |
| AuthFlows.ResendKeepsConsistent | src/auth/routers.rs:119-170 | `resend` keeps the cache made of session pairs. |
| AuthFlows.ResendMailsResolvingToken | src/auth/routers.rs:137-169 | With more than 3600 s left it answers "请勿重复发送" and changes nothing. Otherwise it mails a new token that resolves to the account. |
| AuthFlows.RegisterCreatesPendingAccount | src/auth/routers.rs:67-94 | A new address gets one inactive account, stored last. Its password verifies, and the mailed token resolves to the new id and back. |
| AuthFlows.RegisterRefusesTakenEmail | src/auth/routers.rs:72-75 | A taken address gets "帐号已注册", with no insert, token or mail. |
| AuthFlows.RegisterKeepsConsistent | src/auth/routers.rs:83 | `register` keeps the cache made of session pairs when the new id has no session. |
| AuthFlows.MatchesId | src/auth/routers.rs:104 | The filter `{_id: oid}` matches exactly the documents with that id. |
| AuthFlows.UpdateById | src/auth/routers.rs:111-112 | `update_opt(.., None)` updates only the account with that id. |
| AuthFlows.ConfirmActivates | src/auth/routers.rs:103-114 | The consumed token no longer resolves, and a new token resolves to the same id. The account is activated in place, and no other account changes. |
| AuthFlows.ConfirmRefusesUnresolvedToken | src/auth/routers.rs:103-104 | A token that resolves to nothing fails with status 500 and changes nothing. |
| AuthFlows.ConfirmKeepsConsistent | src/auth/routers.rs:97-117 | `confirm` keeps the cache made of session pairs. |
| AuthFlows.GuardedResetPwd | src/middleware/login_middleware.rs:31-34 | As written: the guard in front of `reset_pwd` passes on the handler's answer with the looked-up value attached. |
| AuthFlows.GuardedResetPwdFixed | src/middleware/login_middleware.rs:31-34 | Corrected: the same guard in front of the corrected handler. |
| AuthFlows.ResetPwdFailsForEverySession | src/auth/routers.rs:188-191 | Behind the guard, a valid request with any live session token fails with status 500 and changes nothing. |
| AuthFlows.ResetPwdWithoutTokenIsUnauthorized | src/auth/routers.rs:177-183 | With no token attached, a valid request gets UNAUTH "请先登录，或者发送验证邮件！". |
| AuthFlows.ResetPwdAcceptsAccountIdHeader | src/auth/routers.rs:188-196 | As written: behind the guard, a header holding the hex id of an account with a session changes that account's password and leaves the other accounts alone. |
| AuthFlows.ResetPwdFixedRefusesAccountIdHeader | src/auth/routers.rs:188-191 | Corrected: the same header gets status 500 and changes nothing. |
| AuthFlows.ResetPwdFixedChangesPassword | src/auth/routers.rs:188-196 | Corrected: a live session stores the new hash on its own account only, and the new password verifies. |
| Lifecycle.EmptyLookupMeansNoMatch | src/auth/routers.rs:72-73 | An empty lookup by e-mail means no stored account has that address. |
| Lifecycle.FindsOnlyLast | src/auth/routers.rs:24-27 | When only the last stored account has an address, the lookup finds exactly it. |
| Lifecycle.AfterRegister | src/auth/routers.rs:59-95 | Registration leaves the account pending: stored last, the cache made of pairs, and the mailed token resolving to its id. |
| Lifecycle.RegisterAddsOnlyItsSession | src/auth/routers.rs:83 | Registration adds no token other than the mailed one. |
| Lifecycle.ConfirmAfterRegister | src/auth/routers.rs:97-117 | Confirming the mailed token activates the account in place and issues a full-lifetime session. The cache stays made of pairs. |
| Lifecycle.LoginAfterConfirm | src/auth/routers.rs:38-49 | Login with an hour or more left returns the session's token and changes nothing. |
| Lifecycle.ConfirmThenLogin | src/auth/routers.rs:97-117 | Login after confirmation hands back the token confirmation issued, and it resolves to the account. |
| Lifecycle.RegisteredCredentialsLogIn | src/auth/schema.rs:3-24 | Credentials that registration accepted pass login's validation, and the stored hash verifies. |
| Lifecycle.RegisterConfirmLogin | src/auth/routers.rs:13-117 | End to end: register, confirm with the mailed token, then log in with the registered password. Login returns the token confirmation issued, which resolves to the id created at registration. |
| UsersRouters.WrappingSub | src/users/routers.rs:19 | `usize` subtraction in a release build: exact when it does not underflow, otherwise plus 2^64. |
| UsersRouters.WrappingMul | src/users/routers.rs:19 | `usize` multiplication is exact when it does not overflow. |
| UsersRouters.AsI64 | src/users/routers.rs:24-25 | `as i64` keeps values below 2^63 and subtracts 2^64 from the others. |
| UsersRouters.QueryOptions | src/users/routers.rs:19-32 | Queries the `user` collection with limit `page_size` and skip `(page_num-1)*page_size`, no sort, and the fixed projection. The filter is `{username: name}` exactly when a name is given. |
| UsersRouters.SkipIsOffset | src/users/routers.rs:19 | With `page_num >= 1` and no overflow, the skip counts the entries on earlier pages. |
| UsersRouters.PageZeroIsRefused | src/users/routers.rs:19-37 | `page_num = 0` wraps the skip to `-page_size`, and the store's refusal becomes BAD_REQUEST. |
| UsersRouters.ToResUser | src/users/routers.rs:38-42 | Conversion succeeds exactly when username, e-mail, phone and `create_at` are present as strings, and it copies all four. |
| UsersRouters.StoredAccountConverts | src/users/routers.rs:38-42 | A stored account converts to its own username, e-mail, phone and creation time, whatever else the document holds. |
| UsersRouters.Converted | src/users/routers.rs:38-42 | Failed conversions are dropped, so every entry is present and there are no more entries than documents. |
| UsersRouters.ConvertedFromDocs | src/users/routers.rs:38-42 | Every entry is the conversion of some document. |
| UsersRouters.ConvertedAppend | src/users/routers.rs:38-42 | Conversion works document by document and keeps the order. |
| UsersRouters.ConvertedKeepsAll | src/users/routers.rs:38-42 | When every document converts, nothing is dropped and the entries follow the documents. |
| UsersRouters.GetUser | src/users/routers.rs:11-44 | Always HTTP 200. A query that does not parse gets BAD_REQUEST with the error text. Otherwise the answer is OK exactly when the store accepts the query, and OK carries a listing. |
| UsersRouters.PageIsBounded | src/users/routers.rs:21-28 | An OK page never holds more than `page_size` entries. |
| UsersRouters.NameFilterHolds | src/users/routers.rs:29-42 | With a name given, every listed account has that username. |

## Left out

- Connections and I/O: connecting to MongoDB and Redis, driver failures, and delivery failures of `send_email`. These are network effects, so a handler's `?` on them is not modelled; mail is an emitted `(to, subject, body)` value.
- `insert_many` (src/db/mongo_db.rs:69-95) is not modelled. No handler of the core calls it.
- The `sort` option is carried in `Options` but never applied by `MongoDb.Find`. No caller in the core sets it.
- The MongoDB server itself is modelled only as far as the core depends on it. Documents are field maps without order, and a filter matches on equal field values. Query operators, indexes and write concerns are not modelled.
- Time: a timestamp (`Models.Timestamp`) is the RFC 3339 text chrono's serde writes for a `DateTime<Local>`, stored as a BSON string, and the clock is the parameter `now`. Its content is opaque: chrono's parse of that text on reading, which refuses a malformed string, is not modelled, so any string reads as a timestamp. Remaining TTLs are whatever the cache holds when read. Expiry as time passes, and the date format of src/utils/helper.rs, are not modelled.
- Concurrency: each handler runs as one atomic step. The non-atomic delete-then-reissue sequences racing with other requests are not modelled.
- Argon2id internals (RFC 9106) are the parameter `Crypto.Digest`. `hash_password`'s panics (`expect`) on Argon2 failure are not modelled.
- The e-mail syntax rule of the `validator` crate is the parameter `AuthSchema.EmailCheck`. Validation reports the failing field names, not the crate's message texts.
- Logging (`log::error!`) is left out; it has no effect on results.
- Routing and configuration: the route table, server setup, and the fact that the mailed confirm link is a path while `confirm` reads a JSON body. The login guard is installed on the whole API server (src/users/mod.rs:10), so every route passes through it; the handler models take the attached token as a parameter, and the composition with the guard is written out for `reset_pwd` only (`AuthFlows.GuardedResetPwd`).
- UsersRouters.QueryOptions: models a release build. A debug build panics on the `page_num - 1` underflow, and that panic is not modelled.
- MongoDb.Find: `limit` is applied as its absolute value, and a zero limit means no limit. A negative limit's single-batch semantics on the server are not distinguished.
- MongoDb.UpdateAll: `modified_count` counts the matching documents whose content changed. The contract bounds it by the number of matches rather than stating it exactly.
- RedisDb.Get: a missing key reads as the empty string; the client's nil-to-String conversion failure is not modelled. The handlers' `is_empty` tests (src/auth/routers.rs:39, 139) rely on this reading; a client that instead fails the read through `?` would answer status 500 wherever the model reads an empty string. The crate version that decides it is not part of this model.
- Crypto.VerifyEncoded: the salt and hash fields are decoded as unpadded base 64 that refuses non-zero spare bits. A field carrying `=` padding is refused too; whether the Argon2 crate's own decoder accepts such a field is not modelled. `hash_password` never writes one.
- RedisDb.SetToken: treats the two `SETEX` writes as one step. A failure between them is not modelled.

## Findings

| source | as written | input that shows it | evidently intended | confidence | as-written member | corrected member |
|---|---|---|---|---|---|---|
| src/auth/routers.rs:188-191 | `reset_pwd` looks the attached value up in the cache again, then parses the result as an ObjectId. The login guard already attached the account id, so the lookup returns the session token, a 32-character string that is no ObjectId. | Any valid reset request whose `Authorization` header is a live session token. The answer is status 500 and the password is unchanged. The guard is installed on the whole API server (src/users/mod.rs:10), so this is what every routed reset request presenting a session token meets. | Parse the attached value directly as the account's ObjectId. | not executed | AuthFlows.ResetPwdFailsForEverySession | AuthFlows.ResetPwdFixedChangesPassword |
| src/auth/routers.rs:188-191 | The same double lookup, seen from the other side: a header holding an account's hex id makes the guard attach that account's session token, and the second lookup turns it back into the id. | A valid reset request whose `Authorization` header is the 24-character hex id of an account that has a session. The password is changed, so knowing the id suffices. | Only the session token authorises the reset; with the attached value parsed directly, an id header is answered 500. | not executed | AuthFlows.ResetPwdAcceptsAccountIdHeader | AuthFlows.ResetPwdFixedRefusesAccountIdHeader |
| src/utils/responser.rs:30-34 | The first `take_error` removes the error, so the second finds none. The message passed on is always "UNKNOWN错误，请查看日志", which is what statuses 500, 401 and 400 show (422 and other statuses use fixed texts anyway). | A handler failing with status 400 and message "boom". The client sees the fallback text. | Show the error's own message. | not executed | Responser.RespondDropsErrorMessage | Responser.RespondFixed |
