/** The query options record of the MongoDB wrapper, its builder methods, the
    many/one dispatch of `delete` and `update`, and an abstract document store
    that gives `find`, `insert_one`, `delete` and `update` a meaning.

    The store maps a collection name to its documents in insertion order. A
    filter matches a document that has every field of the filter with the same
    value; the empty filter matches every document. */
module MongoDb {
  import opened Wrappers
  import opened Bson

  datatype Options = Options(
    collect: string,
    filter: Option<Document>,
    limit: Option<int>,
    skip: Option<int>,
    sort: Option<Document>,
    fileds: Option<Document>)

  /** `Options::default()` */
  function Default(): Options {
    Options("", None, None, None, None, None)
  }

  /** `Options::new`: every argument is stored as given. */
  function New(collect: string, filter: Option<Document>, limit: Option<int>,
               skip: Option<int>, sort: Option<Document>, fileds: Option<Document>): (o: Options)
    ensures o.collect == collect && o.filter == filter && o.limit == limit
    ensures o.skip == skip && o.sort == sort && o.fileds == fileds
  {
    Options(collect, filter, limit, skip, sort, fileds)
  }

  /** `set_collect`: only the collection changes. */
  function SetCollect(o: Options, collect: string): (o': Options)
    ensures o'.collect == collect
    ensures o'.(collect := o.collect) == o
  {
    o.(collect := collect)
  }

  /** `del_opt`: collection, filter and limit are replaced; skip, sort and the
      projection are kept. */
  function DelOpt(o: Options, collect: string, filter: Option<Document>, limit: Option<int>): (o': Options)
    ensures o'.collect == collect && o'.filter == filter && o'.limit == limit
    ensures o'.(collect := o.collect, filter := o.filter, limit := o.limit) == o
  {
    o.(collect := collect, filter := filter, limit := limit)
  }

  /** `update_opt`: the same three fields as `del_opt`. */
  function UpdateOpt(o: Options, collect: string, filter: Option<Document>, limit: Option<int>): (o': Options)
    ensures o'.collect == collect && o'.filter == filter && o'.limit == limit
    ensures o'.(collect := o.collect, filter := o.filter, limit := o.limit) == o
  {
    o.(collect := collect, filter := filter, limit := limit)
  }

  /** `find_one_opt`: collection and filter, and a limit of one. */
  function FindOneOpt(o: Options, collect: string, filter: Option<Document>): (o': Options)
    ensures o'.collect == collect && o'.filter == filter && o'.limit == Some(1)
    ensures o'.(collect := o.collect, filter := o.filter, limit := o.limit) == o
  {
    o.(collect := collect, filter := filter, limit := Some(1))
  }

  /** `del_opt` and `update_opt` build the same options, and `find_one_opt` is
      either of them with a limit of one. */
  lemma BuildersAgree(o: Options, collect: string, filter: Option<Document>, limit: Option<int>)
    ensures DelOpt(o, collect, filter, limit) == UpdateOpt(o, collect, filter, limit)
    ensures FindOneOpt(o, collect, filter) == DelOpt(o, collect, filter, Some(1))
  {
  }

  // ---------------------------------------------------------------------------
  // Dispatch of delete and update
  // ---------------------------------------------------------------------------

  datatype Arity = Many | One

  /** `delete` and `update` call the `_many` driver operation whenever a
      limit is present, whatever its value, and the `_one` operation when it
      is absent. */
  function WriteArity(o: Options): (a: Arity)
    ensures a == Many <==> o.limit.Some?
  {
    match o.limit
    case Some(_) => Many
    case None => One
  }

  /** The filter of `delete` and `update`: a missing one is the empty document. */
  function WriteFilter(o: Options): (f: Document)
    ensures o.filter.Some? ==> f == o.filter.value
    ensures o.filter.None? ==> f == map[]
  {
    o.filter.GetOr(map[])
  }

  // ---------------------------------------------------------------------------
  // The abstract store
  // ---------------------------------------------------------------------------

  type Store = map<string, seq<Document>>

  function Docs(s: Store, collect: string): seq<Document> {
    if collect in s then s[collect] else []
  }

  predicate Matches(d: Document, filter: Document) {
    forall k | k in filter :: k in d && d[k] == filter[k]
  }

  /** The matching documents, in store order. */
  function Filter(docs: seq<Document>, filter: Document): (r: seq<Document>)
    ensures |r| <= |docs|
    ensures forall i | 0 <= i < |r| :: Matches(r[i], filter)
    decreases |docs|
  {
    if |docs| == 0 then []
    else (if Matches(docs[0], filter) then [docs[0]] else []) + Filter(docs[1..], filter)
  }

  /** A document is among the matches exactly when it is stored and matches. */
  lemma {:induction false} FilterMembers(docs: seq<Document>, filter: Document, d: Document)
    ensures d in Filter(docs, filter) <==> d in docs && Matches(d, filter)
    decreases |docs|
  {
    if |docs| > 0 {
      FilterMembers(docs[1..], filter, d);
      assert docs == [docs[0]] + docs[1..];
    }
  }

  lemma {:induction false} FilterAppend(a: seq<Document>, b: seq<Document>, filter: Document)
    ensures Filter(a + b, filter) == Filter(a, filter) + Filter(b, filter)
    decreases |a|
  {
    if |a| > 0 {
      assert a + b == [a[0]] + (a[1..] + b);
      FilterCons(a[0], a[1..] + b, filter);
      FilterAppend(a[1..], b, filter);
      assert a == [a[0]] + a[1..];
      FilterCons(a[0], a[1..], filter);
    } else {
      assert a + b == b;
    }
  }

  lemma FilterCons(d: Document, rest: seq<Document>, filter: Document)
    ensures Filter([d] + rest, filter)
         == (if Matches(d, filter) then [d] else []) + Filter(rest, filter)
  {
    assert ([d] + rest)[1..] == rest;
  }

  /** Every match is a stored document. */
  lemma FilterFromDocs(docs: seq<Document>, filter: Document)
    ensures forall i | 0 <= i < |Filter(docs, filter)| :: Filter(docs, filter)[i] in docs
  {
    var r := Filter(docs, filter);
    forall i | 0 <= i < |r| ensures r[i] in docs {
      FilterMembers(docs, filter, r[i]);
    }
  }

  /** The fields a projection keeps: those it names, and always `_id`. */
  function Project(d: Document, projection: Document): (p: Document)
    ensures p.Keys == set k | k in d && (k in projection || k == "_id")
    ensures forall k | k in p :: p[k] == d[k]
  {
    map k | k in d && (k in projection || k == "_id") :: d[k]
  }

  function Take<T>(s: seq<T>, n: nat): (r: seq<T>)
    ensures |r| == if n < |s| then n else |s|
    ensures forall i | 0 <= i < |r| :: r[i] == s[i]
  {
    if n < |s| then s[..n] else s
  }

  function Drop<T>(s: seq<T>, n: nat): (r: seq<T>)
    ensures |r| == if n < |s| then |s| - n else 0
    ensures forall i | 0 <= i < |r| :: r[i] == s[n + i]
  {
    if n < |s| then s[n..] else []
  }

  function Abs(n: int): nat {
    if n < 0 then -n else n
  }

  /** The documents `find` returns before projection: the matches in store
      order, after skipping `skip` of them, at most `|limit|` of them when the
      limit is non-zero. */
  function Window(s: Store, o: Options): (w: seq<Document>)
    requires !(o.skip.Some? && o.skip.value < 0)
    ensures o.limit.Some? && o.limit.value != 0 ==> |w| <= Abs(o.limit.value)
    ensures forall i | 0 <= i < |w| :: w[i] in Docs(s, o.collect) && Matches(w[i], o.filter.GetOr(map[]))
  {
    var matched := Filter(Docs(s, o.collect), o.filter.GetOr(map[]));
    FilterFromDocs(Docs(s, o.collect), o.filter.GetOr(map[]));
    var skipped := Drop(matched, if o.skip.Some? then o.skip.value else 0);
    if o.limit.Some? && o.limit.value != 0 then Take(skipped, Abs(o.limit.value)) else skipped
  }

  /** `find`: the window of matching documents, each cut down to the
      projection. A negative skip is refused by the server. The sort option
      is not applied. */
  function Find(s: Store, o: Options): (r: Result<seq<Document>, string>)
    ensures r.Err? <==> o.skip.Some? && o.skip.value < 0
    ensures r.Ok? && o.limit.Some? && o.limit.value != 0 ==> |r.value| <= Abs(o.limit.value)
    ensures r.Ok? && o.fileds.None? ==>
              forall i | 0 <= i < |r.value| :: r.value[i] in Docs(s, o.collect)
                                              && Matches(r.value[i], o.filter.GetOr(map[]))
  {
    if o.skip.Some? && o.skip.value < 0 then Err("negative skip")
    else
      var w := Window(s, o);
      match o.fileds
      case None => Ok(w)
      case Some(p) => Ok(seq(|w|, i requires 0 <= i < |w| => Project(w[i], p)))
  }

  /** A found document keeps the filtered value of every field the
      projection keeps. */
  lemma FoundKeepsFilteredField(s: Store, o: Options, j: nat, k: string)
    requires Find(s, o).Ok? && j < |Find(s, o).value|
    requires o.filter.Some? && k in o.filter.value
    requires o.fileds.None? || k in o.fileds.value || k == "_id"
    ensures k in Find(s, o).value[j] && Find(s, o).value[j][k] == o.filter.value[k]
  {
    var w := Window(s, o);
    assert Matches(w[j], o.filter.value);
    if o.fileds.Some? {
      assert Find(s, o).value[j] == Project(w[j], o.fileds.value);
    }
  }

  /** `insert_one`: the document gets the new `_id` and goes at the end of the
      collection; the hex form of the id is returned. An id already present
      is a duplicate-key error. */
  function InsertOne(s: Store, o: Options, d: Document, oid: ObjectId): (r: Result<(Store, string), string>)
    ensures r.Err? <==> exists i | 0 <= i < |Docs(s, o.collect)| :: GetObjectId(Docs(s, o.collect)[i], "_id") == Some(oid)
    ensures r.Ok? ==> r.value.1 == ToHex(oid)
    ensures r.Ok? ==> Docs(r.value.0, o.collect) == Docs(s, o.collect) + [d["_id" := Oid(oid)]]
    ensures r.Ok? ==> forall c | c != o.collect :: Docs(r.value.0, c) == Docs(s, c)
  {
    var docs := Docs(s, o.collect);
    if exists i | 0 <= i < |docs| :: GetObjectId(docs[i], "_id") == Some(oid) then Err("duplicate key")
    else Ok((s[o.collect := docs + [d["_id" := Oid(oid)]]], ToHex(oid)))
  }

  // ---------------------------------------------------------------------------
  // delete
  // ---------------------------------------------------------------------------

  /** `delete_many`: every matching document goes; the count says how many. */
  function RemoveAll(docs: seq<Document>, filter: Document): (r: (seq<Document>, nat))
    ensures r.1 == |Filter(docs, filter)|
    ensures |r.0| + r.1 == |docs|
    ensures forall i | 0 <= i < |r.0| :: !Matches(r.0[i], filter) && r.0[i] in docs
    ensures forall i | 0 <= i < |docs| && !Matches(docs[i], filter) :: docs[i] in r.0
    decreases |docs|
  {
    if |docs| == 0 then ([], 0)
    else
      var rest := RemoveAll(docs[1..], filter);
      assert docs == [docs[0]] + docs[1..];
      if Matches(docs[0], filter) then (rest.0, rest.1 + 1) else ([docs[0]] + rest.0, rest.1)
  }

  /** `delete_many` splits the collection: what it keeps and what `Filter`
      selects are, together, exactly the stored documents, each as often as
      it is stored. */
  lemma {:induction false} RemoveAllPartition(docs: seq<Document>, filter: Document)
    ensures multiset(RemoveAll(docs, filter).0) + multiset(Filter(docs, filter)) == multiset(docs)
    decreases |docs|
  {
    if |docs| > 0 {
      RemoveAllPartition(docs[1..], filter);
      var kept, selected := RemoveAll(docs[1..], filter).0, Filter(docs[1..], filter);
      assert multiset(docs) == multiset([docs[0]]) + multiset(docs[1..]) by {
        assert docs == [docs[0]] + docs[1..];
      }
      if Matches(docs[0], filter) {
        assert RemoveAll(docs, filter).0 == kept;
        assert Filter(docs, filter) == [docs[0]] + selected;
      } else {
        assert RemoveAll(docs, filter).0 == [docs[0]] + kept;
        assert Filter(docs, filter) == selected;
      }
    }
  }

  /** `delete_many` keeps the survivors in store order: it works document by
      document across a concatenation. */
  lemma {:induction false} RemoveAllAppend(a: seq<Document>, b: seq<Document>, filter: Document)
    ensures RemoveAll(a + b, filter).0 == RemoveAll(a, filter).0 + RemoveAll(b, filter).0
    decreases |a|
  {
    var s := a + b;
    if |a| > 0 {
      assert s[0] == a[0] && s[1..] == a[1..] + b;
      RemoveAllAppend(a[1..], b, filter);
      var keptA, keptB := RemoveAll(a[1..], filter).0, RemoveAll(b, filter).0;
      if Matches(a[0], filter) {
        assert RemoveAll(s, filter).0 == keptA + keptB;
        assert RemoveAll(a, filter).0 == keptA;
      } else {
        assert RemoveAll(s, filter).0 == [a[0]] + (keptA + keptB);
        assert RemoveAll(a, filter).0 == [a[0]] + keptA;
      }
    } else {
      assert s == b;
      assert RemoveAll(a, filter).0 == [];
    }
  }

  /** `delete_one`: only the first matching document goes. */
  function RemoveFirst(docs: seq<Document>, filter: Document): (r: (seq<Document>, nat))
    ensures r.1 <= 1
    ensures r.1 == 1 <==> |Filter(docs, filter)| > 0
    ensures |r.0| + r.1 == |docs|
    ensures r.1 == 0 ==> r.0 == docs
    decreases |docs|
  {
    if |docs| == 0 then ([], 0)
    else if Matches(docs[0], filter) then (docs[1..], 1)
    else
      var rest := RemoveFirst(docs[1..], filter);
      ([docs[0]] + rest.0, rest.1)
  }

  /** `delete_one` removes the first matching document and keeps every other
      document in its order. */
  lemma {:induction false} RemoveFirstRemovesOnlyFirstMatch(docs: seq<Document>, filter: Document, j: nat)
    requires j < |docs| && Matches(docs[j], filter)
    requires forall i | 0 <= i < j :: !Matches(docs[i], filter)
    ensures RemoveFirst(docs, filter) == (docs[..j] + docs[j + 1..], 1)
    decreases j
  {
    if j > 0 {
      RemoveFirstRemovesOnlyFirstMatch(docs[1..], filter, j - 1);
      assert !Matches(docs[0], filter);
      assert RemoveFirst(docs, filter).0 == [docs[0]] + RemoveFirst(docs[1..], filter).0;
      assert docs[1..][..j - 1] + docs[1..][j..] == docs[1..j] + docs[j + 1..];
      assert [docs[0]] + (docs[1..j] + docs[j + 1..]) == docs[..j] + docs[j + 1..];
    } else {
      assert docs[..0] + docs[1..] == docs[1..];
    }
  }

  /** `delete`: returns the new store and `deleted_count`. */
  function Delete(s: Store, o: Options): (r: (Store, nat))
    ensures WriteArity(o) == Many ==> r.1 == |Filter(Docs(s, o.collect), WriteFilter(o))|
    ensures WriteArity(o) == One ==> r.1 <= 1
    ensures forall c | c != o.collect :: Docs(r.0, c) == Docs(s, c)
  {
    var docs := Docs(s, o.collect);
    var removed := match WriteArity(o)
                   case Many => RemoveAll(docs, WriteFilter(o))
                   case One => RemoveFirst(docs, WriteFilter(o));
    (if o.collect in s then s[o.collect := removed.0] else s, removed.1)
  }

  /** With any limit at all, `delete` removes every matching document and
      keeps the others. */
  lemma DeleteWithLimitRemovesAllMatches(s: Store, o: Options)
    requires o.limit.Some?
    ensures var (s', n) := Delete(s, o);
            && n == |Filter(Docs(s, o.collect), WriteFilter(o))|
            && forall i | 0 <= i < |Docs(s', o.collect)| :: !Matches(Docs(s', o.collect)[i], WriteFilter(o))
  {
  }

  /** The source's `test_delete_many_mongo`: two documents share the username;
      `del_opt` with a limit of `Some(1)` still deletes both. */
  lemma DeleteManyTest(d1: Document, d2: Document)
    requires "username" in d1 && d1["username"] == Str("lomect")
    requires "username" in d2 && d2["username"] == Str("lomect")
    ensures var o := DelOpt(SetCollect(Default(), "test5"), "test5", Some(map["username" := Str("lomect")]), Some(1));
            Delete(map["test5" := [d1, d2]], o).1 == 2
  {
    var f := map["username" := Str("lomect")];
    assert Matches(d1, f) && Matches(d2, f);
    assert [d1, d2][1..] == [d2];
  }

  // ---------------------------------------------------------------------------
  // update
  // ---------------------------------------------------------------------------

  /** A `$set` of the given fields on one document. */
  function ApplySet(d: Document, fields: Document): (d': Document)
    ensures d'.Keys == d.Keys + fields.Keys
    ensures forall k | k in fields :: d'[k] == fields[k]
    ensures forall k | k in d && k !in fields :: d'[k] == d[k]
  {
    d + fields
  }

  /** One document after `$set` of `fields` if it matches `filter`. */
  function Updated(d: Document, filter: Document, fields: Document): Document {
    if Matches(d, filter) then ApplySet(d, fields) else d
  }

  /** `update_many`: every matching document is updated; the count is
      `modified_count`, the documents whose content actually changed. */
  function UpdateAll(docs: seq<Document>, filter: Document, fields: Document): (r: (seq<Document>, nat))
    ensures |r.0| == |docs|
    ensures r.1 <= |Filter(docs, filter)|
    ensures forall i | 0 <= i < |docs| :: r.0[i] == Updated(docs[i], filter, fields)
    decreases |docs|
  {
    if |docs| == 0 then ([], 0)
    else
      var rest := UpdateAll(docs[1..], filter, fields);
      var d' := Updated(docs[0], filter, fields);
      assert Filter(docs, filter)
          == (if Matches(docs[0], filter) then [docs[0]] else []) + Filter(docs[1..], filter);
      ([d'] + rest.0, rest.1 + if d' != docs[0] then 1 else 0)
  }

  /** `update_one`: only the first matching document is updated. */
  function UpdateFirst(docs: seq<Document>, filter: Document, fields: Document): (r: (seq<Document>, nat))
    ensures |r.0| == |docs|
    ensures r.1 <= 1
    ensures (forall i | 0 <= i < |docs| :: !Matches(docs[i], filter)) ==> r == (docs, 0)
    decreases |docs|
  {
    if |docs| == 0 then ([], 0)
    else if Matches(docs[0], filter) then
      var d' := ApplySet(docs[0], fields);
      ([d'] + docs[1..], if d' != docs[0] then 1 else 0)
    else
      var rest := UpdateFirst(docs[1..], filter, fields);
      assert docs == [docs[0]] + docs[1..];
      ([docs[0]] + rest.0, rest.1)
  }

  /** `update(data, opt)` with `data` = `{"$set": fields}`: returns the new store
      and `modified_count`. */
  function Update(s: Store, fields: Document, o: Options): (r: (Store, nat))
    ensures WriteArity(o) == One ==> r.1 <= 1
    ensures |Docs(r.0, o.collect)| == |Docs(s, o.collect)|
    ensures forall c | c != o.collect :: Docs(r.0, c) == Docs(s, c)
  {
    var docs := Docs(s, o.collect);
    var updated := match WriteArity(o)
                   case Many => UpdateAll(docs, WriteFilter(o), fields)
                   case One => UpdateFirst(docs, WriteFilter(o), fields);
    (if o.collect in s then s[o.collect := updated.0] else s, updated.1)
  }

  /** `update_one` leaves every document before the first match alone, updates
      that one, and leaves every document after it alone. */
  lemma {:induction false} UpdateFirstChangesOnlyFirstMatch(docs: seq<Document>, filter: Document, fields: Document, j: nat)
    requires j < |docs| && Matches(docs[j], filter)
    requires forall i | 0 <= i < j :: !Matches(docs[i], filter)
    ensures var r := UpdateFirst(docs, filter, fields).0;
            && r[j] == ApplySet(docs[j], fields)
            && forall i | 0 <= i < |docs| && i != j :: r[i] == docs[i]
    decreases j
  {
    if j > 0 {
      UpdateFirstChangesOnlyFirstMatch(docs[1..], filter, fields, j - 1);
    }
  }

  /** A missing filter is the empty document, which matches every document. */
  lemma MissingFilterMatchesEverything(o: Options, d: Document)
    requires o.filter.None?
    ensures Matches(d, WriteFilter(o))
  {
  }
}
