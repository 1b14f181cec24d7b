/** The account record, its construction from a registration request, and
    its form as a stored document. */
module Models {
  import opened Wrappers
  import opened Text
  import opened Bson
  import Crypto
  import Base64
  import AuthSchema

  /** The collection that holds accounts. */
  const USER: string := "user"

  /** A `DateTime<Local>` as chrono's serde writes it: an RFC 3339 text, stored
      in a document as a BSON string. Its content is opaque to the model. */
  type Timestamp = string

  datatype User = User(
    username: string,
    email: string,
    password: string,
    phone: string,
    active: bool,
    createAt: Timestamp,
    updateAt: Option<Timestamp>)

  /** `User::from(Register)`: an inactive account whose password is the stored
      hash of the requested one. `samples` feeds the salt, `now` is the clock. */
  function FromRegister(h: Crypto.Digest, samples: seq<char>, now: Timestamp, r: AuthSchema.Register): (u: User)
    requires |samples| >= Crypto.SALT_LEN && AllAlphanumeric(samples)
    ensures !u.active && u.updateAt == None && u.createAt == now
    ensures u.username == r.username && u.email == r.email && u.phone == r.phone
    ensures Crypto.ValidDigest(h) ==> Crypto.PasswordVerify(h, u.password, r.password)
    ensures |Split(u.password, ':')| == 2
  {
    StoredHashVerifies(h, samples, r.password);
    User(r.username, r.email, Crypto.HashPassword(h, samples, r.password), r.phone, false, now, None)
  }

  lemma StoredHashVerifies(h: Crypto.Digest, samples: seq<char>, password: string)
    requires |samples| >= Crypto.SALT_LEN && AllAlphanumeric(samples)
    ensures Crypto.ValidDigest(h) ==> Crypto.PasswordVerify(h, Crypto.HashPassword(h, samples, password), password)
  {
    if Crypto.ValidDigest(h) {
      Crypto.HashThenVerify(h, samples, password);
    }
  }

  /** `to_document(&user)`: every field under its own name; the timestamps as
      strings and a missing `update_at` as `null`. */
  function ToDocument(u: User): (d: Document)
    ensures d.Keys == {"username", "email", "password", "phone", "active", "create_at", "update_at"}
    ensures d["create_at"].Str? && (d["update_at"].Null? <==> u.updateAt.None?)
  {
    map[
      "username" := Str(u.username),
      "email" := Str(u.email),
      "password" := Str(u.password),
      "phone" := Str(u.phone),
      "active" := Bool(u.active),
      "create_at" := Str(u.createAt),
      "update_at" := match u.updateAt case Some(t) => Str(t) case None => Null]
  }

  /** `from_document::<User>`: every field must be present with the right type,
      the timestamps as strings (a BSON date is refused); a missing or `null`
      `update_at` reads as `None`; other fields are ignored. */
  function FromDocument(d: Document): (r: Option<User>)
    ensures r.Some? <==>
              && GetStr(d, "username").Some? && GetStr(d, "email").Some?
              && GetStr(d, "password").Some? && GetStr(d, "phone").Some?
              && "active" in d && d["active"].Bool? && GetStr(d, "create_at").Some?
              && ("update_at" !in d || d["update_at"].Null? || d["update_at"].Str?)
    ensures r.Some? ==>
              && d["username"] == Str(r.value.username) && d["email"] == Str(r.value.email)
              && d["password"] == Str(r.value.password) && d["phone"] == Str(r.value.phone)
              && d["active"] == Bool(r.value.active) && d["create_at"] == Str(r.value.createAt)
              && (r.value.updateAt.Some? <==> "update_at" in d && d["update_at"].Str?)
              && (r.value.updateAt.Some? ==> d["update_at"] == Str(r.value.updateAt.value))
  {
    if && GetStr(d, "username").Some? && GetStr(d, "email").Some?
       && GetStr(d, "password").Some? && GetStr(d, "phone").Some?
       && "active" in d && d["active"].Bool? && GetStr(d, "create_at").Some?
       && ("update_at" !in d || d["update_at"].Null? || d["update_at"].Str?)
    then
      Some(User(
        GetStr(d, "username").value, GetStr(d, "email").value,
        GetStr(d, "password").value, GetStr(d, "phone").value,
        d["active"].b, GetStr(d, "create_at").value,
        if "update_at" in d && d["update_at"].Str? then Some(d["update_at"].s) else None))
    else None
  }

  /** A creation time stored as a BSON date, not as chrono's string, makes the
      document unreadable as an account. */
  lemma StoredDateIsRefused(d: Document, millis: int)
    ensures FromDocument(d["create_at" := Date(millis)]) == None
  {
  }

  /** Storing an account and reading it back gives the same account, whatever
      `_id` and other extra fields the stored document carries. */
  lemma DocumentRoundTrip(u: User, extra: Document)
    requires extra.Keys !! ToDocument(u).Keys
    ensures FromDocument(extra + ToDocument(u)) == Some(u)
    ensures FromDocument(ToDocument(u)) == Some(u)
  {
  }

  /** The document `insert_one` stores, with its new `_id`, reads back as the
      same account and carries that id. */
  lemma StoredRoundTrip(u: User, oid: ObjectId)
    ensures FromDocument(ToDocument(u)["_id" := Oid(oid)]) == Some(u)
    ensures GetObjectId(ToDocument(u)["_id" := Oid(oid)], "_id") == Some(oid)
  {
  }

  /** A `$set` of `active` on a stored account is read back as the activation
      of that account, and changes nothing else. */
  lemma ActivationRoundTrip(d: Document, u: User)
    requires FromDocument(d) == Some(u)
    ensures FromDocument(d + map["active" := Bool(true)]) == Some(u.(active := true))
  {
    assert d + map["active" := Bool(true)] == d["active" := Bool(true)];
  }

  /** A `$set` of `password` on a stored account replaces the stored hash and
      nothing else. */
  lemma PasswordChangeRoundTrip(d: Document, u: User, password: string)
    requires FromDocument(d) == Some(u)
    ensures FromDocument(d + map["password" := Str(password)]) == Some(u.(password := password))
  {
    assert d + map["password" := Str(password)] == d["password" := Str(password)];
  }
}
