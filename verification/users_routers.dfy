/** `get_user`: one page of accounts, optionally only those with a given
    username, each cut down to its public fields.

    The page numbers are `usize`. The model follows a release build, where
    `(page_num - 1) * page_size` wraps around modulo 2^64 instead of
    panicking, and the `as i64` casts reinterpret the bits. */
module UsersRouters {
  import opened Wrappers
  import opened Status
  import opened Responser
  import opened Bson
  import MongoDb
  import Models

  const USIZE_MODULUS: nat := 0x1_0000_0000_0000_0000
  const I64_LIMIT: nat := 0x8000_0000_0000_0000

  type usize = x: int | 0 <= x < USIZE_MODULUS

  datatype Page = Page(pageSize: usize, pageNum: usize)

  datatype GetUserQuery = GetUserQuery(name: Option<string>, page: Page)

  /** The public view of an account. */
  datatype ResUser = ResUser(username: string, email: string, phone: string, createAt: Models.Timestamp)

  /** The payload of the answer: the page, or the text of an error. */
  datatype UsersReply = Listing(users: seq<Option<ResUser>>) | ErrorText(text: string)

  /** The fields the query keeps. */
  const PROJECTION: Document :=
    map["username" := Int(1), "email" := Int(1), "phone" := Int(1), "create_at" := Int(1)]

  /** `usize` subtraction and multiplication as a release build computes them. */
  function WrappingSub(a: usize, b: usize): (r: usize)
    ensures a >= b ==> r == a - b
    ensures a < b ==> r == a - b + USIZE_MODULUS
  {
    (a - b) % USIZE_MODULUS
  }

  function WrappingMul(a: usize, b: usize): (r: usize)
    ensures a * b < USIZE_MODULUS ==> r == a * b
  {
    (a * b) % USIZE_MODULUS
  }

  /** `x as i64`: the same 64 bits read as a two's-complement number. */
  function AsI64(x: usize): (r: int)
    ensures -(I64_LIMIT as int) <= r < I64_LIMIT
    ensures x < I64_LIMIT ==> r == x
    ensures x >= I64_LIMIT ==> r == x - USIZE_MODULUS
  {
    if x < I64_LIMIT then x else x - USIZE_MODULUS
  }

  /** `(page_num - 1) * page_size` */
  function Skip(p: Page): usize {
    WrappingMul(WrappingSub(p.pageNum, 1), p.pageSize)
  }

  /** The options `get_user` queries with: the page as limit and skip, the
      username as the only filter when one is given, no sort, the fixed
      projection. */
  function QueryOptions(q: GetUserQuery): (o: MongoDb.Options)
    ensures o.collect == Models.USER
    ensures o.limit == Some(AsI64(q.page.pageSize)) && o.skip == Some(AsI64(Skip(q.page)))
    ensures o.sort == None && o.fileds == Some(PROJECTION)
    ensures q.name.None? ==> o.filter == None
    ensures q.name.Some? ==> o.filter == Some(map["username" := Str(q.name.value)])
  {
    var o := MongoDb.New(Models.USER, None, Some(AsI64(q.page.pageSize)), Some(AsI64(Skip(q.page))),
                         None, Some(PROJECTION));
    match q.name
    case Some(name) => o.(filter := Some(map["username" := Str(name)]))
    case None => o
  }

  /** `from_document::<ResUser>`: the three strings and the creation time (as
      chrono's string; a BSON date is refused) must be present, and each is
      copied; other fields are ignored. */
  function ToResUser(d: Document): (r: Option<ResUser>)
    ensures r.Some? <==>
              && GetStr(d, "username").Some? && GetStr(d, "email").Some?
              && GetStr(d, "phone").Some? && GetStr(d, "create_at").Some?
    ensures r.Some? ==>
              && d["username"] == Str(r.value.username) && d["email"] == Str(r.value.email)
              && d["phone"] == Str(r.value.phone) && d["create_at"] == Str(r.value.createAt)
  {
    if && GetStr(d, "username").Some? && GetStr(d, "email").Some?
       && GetStr(d, "phone").Some? && GetStr(d, "create_at").Some?
    then Some(ResUser(GetStr(d, "username").value, GetStr(d, "email").value,
                      GetStr(d, "phone").value, GetStr(d, "create_at").value))
    else None
  }

  /** The public view of a stored account copies its fields, whatever else the
      document holds. */
  lemma StoredAccountConverts(u: Models.User, extra: Document)
    requires extra.Keys !! Models.ToDocument(u).Keys
    ensures ToResUser(extra + Models.ToDocument(u)) == Some(ResUser(u.username, u.email, u.phone, u.createAt))
  {
  }

  /** The conversions that succeed, in the order of the documents. */
  function Converted(docs: seq<Document>): (r: seq<Option<ResUser>>)
    ensures |r| <= |docs|
    ensures forall i | 0 <= i < |r| :: r[i].Some?
    decreases |docs|
  {
    if |docs| == 0 then []
    else (if ToResUser(docs[0]).Some? then [ToResUser(docs[0])] else []) + Converted(docs[1..])
  }

  /** Every converted entry comes from some document. */
  lemma {:induction false} ConvertedFromDocs(docs: seq<Document>, i: nat)
    requires i < |Converted(docs)|
    ensures exists j | 0 <= j < |docs| :: ToResUser(docs[j]) == Converted(docs)[i]
    decreases |docs|
  {
    if ToResUser(docs[0]).Some? {
      if i > 0 {
        ConvertedFromDocs(docs[1..], i - 1);
        var j :| 0 <= j < |docs[1..]| && ToResUser(docs[1..][j]) == Converted(docs[1..])[i - 1];
        assert ToResUser(docs[j + 1]) == Converted(docs)[i];
      } else {
        assert ToResUser(docs[0]) == Converted(docs)[0];
      }
    } else {
      ConvertedFromDocs(docs[1..], i);
      var j :| 0 <= j < |docs[1..]| && ToResUser(docs[1..][j]) == Converted(docs[1..])[i];
      assert ToResUser(docs[j + 1]) == Converted(docs)[i];
    }
  }

  /** Conversion works document by document and keeps the order. */
  lemma {:induction false} ConvertedAppend(a: seq<Document>, b: seq<Document>)
    ensures Converted(a + b) == Converted(a) + Converted(b)
    decreases |a|
  {
    if |a| == 0 {
      assert a + b == b;
    } else {
      var head := if ToResUser(a[0]).Some? then [ToResUser(a[0])] else [];
      assert (a + b)[0] == a[0] && (a + b)[1..] == a[1..] + b;
      assert Converted(a + b) == head + Converted(a[1..] + b);
      ConvertedAppend(a[1..], b);
    }
  }

  /** When every document converts, nothing is dropped. */
  lemma {:induction false} ConvertedKeepsAll(docs: seq<Document>)
    requires forall j | 0 <= j < |docs| :: ToResUser(docs[j]).Some?
    ensures |Converted(docs)| == |docs|
    ensures forall j | 0 <= j < |docs| :: Converted(docs)[j] == ToResUser(docs[j])
    decreases |docs|
  {
    if |docs| > 0 {
      ConvertedKeepsAll(docs[1..]);
    }
  }

  /** `get_user`. A query that does not parse, and a query the store refuses,
      are answered BAD_REQUEST with the error's text; otherwise OK with the
      converted page. */
  function GetUser(q: Result<GetUserQuery, string>, store: MongoDb.Store): (r: Response<UsersReply>)
    ensures r.status == HTTP_OK && r.body.Some?
    ensures q.Err? ==> r.body.value == New(Some(ErrorText(q.error)), BAD_REQUEST)
    ensures q.Ok? ==> (r.body.value.code == OK.code <==> MongoDb.Find(store, QueryOptions(q.value)).Ok?)
    ensures r.body.value.code == OK.code ==> r.body.value.data.Some? && r.body.value.data.value.Listing?
  {
    match q
    case Err(e) => ToResult(New(Some(ErrorText(e)), BAD_REQUEST))
    case Ok(filter) =>
      match MongoDb.Find(store, QueryOptions(filter))
      case Err(e) => ToResult(New(Some(ErrorText(e)), BAD_REQUEST))
      case Ok(users) => ToResult(New(Some(Listing(Converted(users))), OK))
  }

  /** With `page_num >= 1` and no overflow, the skip is the number of entries
      on the earlier pages. */
  lemma SkipIsOffset(p: Page)
    requires p.pageNum >= 1 && (p.pageNum - 1) * p.pageSize < I64_LIMIT
    ensures AsI64(Skip(p)) == (p.pageNum - 1) * p.pageSize
  {
  }

  /** `page_num = 0` underflows: the skip wraps to 2^64 - page_size, which as
      an `i64` is -page_size, and the store refuses the negative skip. */
  lemma PageZeroIsRefused(name: Option<string>, pageSize: usize, store: MongoDb.Store)
    requires 0 < pageSize < I64_LIMIT
    ensures AsI64(Skip(Page(pageSize, 0))) == -(pageSize as int)
    ensures var r := GetUser(Ok(GetUserQuery(name, Page(pageSize, 0))), store);
            r.body.value.code == BAD_REQUEST.code
  {
    var p := Page(pageSize, 0);
    assert WrappingSub(0, 1) == USIZE_MODULUS - 1;
    assert (USIZE_MODULUS - 1) * pageSize == (pageSize - 1) * USIZE_MODULUS + (USIZE_MODULUS - pageSize);
    assert Skip(p) == USIZE_MODULUS - pageSize;
  }

  /** A page never holds more than `page_size` entries. */
  lemma PageIsBounded(q: GetUserQuery, store: MongoDb.Store)
    requires 0 < q.page.pageSize < I64_LIMIT
    requires GetUser(Ok(q), store).body.value.code == OK.code
    ensures |GetUser(Ok(q), store).body.value.data.value.users| <= q.page.pageSize
  {
  }

  /** With a name given, every listed account has that username. */
  lemma NameFilterHolds(q: GetUserQuery, store: MongoDb.Store, i: nat)
    requires q.name.Some?
    requires GetUser(Ok(q), store).body.value.code == OK.code
    requires i < |GetUser(Ok(q), store).body.value.data.value.users|
    ensures GetUser(Ok(q), store).body.value.data.value.users[i].value.username == q.name.value
  {
    var o := QueryOptions(q);
    var page := MongoDb.Find(store, o).value;
    ConvertedFromDocs(page, i);
    var j :| 0 <= j < |page| && ToResUser(page[j]) == Converted(page)[i];
    assert "username" in PROJECTION;
    MongoDb.FoundKeepsFilteredField(store, o, j, "username");
  }
}
