/** The Redis session cache and `Redis::set_token`.

    The cache is a map from key to (value, remaining seconds to live). A
    session of account `I` with token `T` is the pair of entries `T -> I` and
    `I -> T`. Reading a missing key gives the empty string, which is how the
    handlers detect "no session". Time does not pass inside the model: a TTL
    is whatever number the cache holds when it is read. */
module RedisDb {
  import opened Text
  import Crypto

  const TOKEN_SIZE: nat := 32
  const EXPIRE_TIME: nat := 60 * 60 * 12

  datatype Entry = Entry(value: string, ttl: nat)

  type Cache = map<string, Entry>

  /** The session token handed to clients; in the source it is declared next
      to the login middleware, which also attaches it to requests. */
  datatype Token = Token(token: string)

  /** `GET key` read into a `String`: the empty string when the key is missing.
      This is the reading the handlers' emptiness tests rely on; a client whose
      nil-to-`String` conversion fails instead is not modelled. */
  function Get(c: Cache, key: string): (v: string)
    ensures v != "" ==> key in c
    ensures key in c ==> v == c[key].value
  {
    if key in c then c[key].value else ""
  }

  /** `TTL key` for a key the caller knows to exist. */
  function Ttl(c: Cache, key: string): nat
    requires key in c
  {
    c[key].ttl
  }

  /** `DEL key` */
  function Del(c: Cache, key: string): (c': Cache)
    ensures c'.Keys == c.Keys - {key}
    ensures forall k | k in c' :: c'[k] == c[k]
  {
    c - {key}
  }

  /** `SETEX key seconds value` */
  function SetEx(c: Cache, key: string, value: string, seconds: nat): (c': Cache)
    ensures c'.Keys == c.Keys + {key}
    ensures c'[key] == Entry(value, seconds)
    ensures forall k | k in c && k != key :: c'[k] == c[k]
  {
    c[key := Entry(value, seconds)]
  }

  datatype Issued = Issued(token: Token, cache: Cache)

  /** The token `set_token` draws from `samples`. */
  function NewToken(samples: seq<char>): (t: string)
    requires |samples| >= TOKEN_SIZE && AllAlphanumeric(samples)
    ensures |t| == TOKEN_SIZE && AllAlphanumeric(t)
  {
    Crypto.RandStr(TOKEN_SIZE, samples)
  }

  /** `set_token(id)`: a 32-character alphanumeric token, stored as `token -> id`
      and then `id -> token`, both for `EXPIRE_TIME` seconds. No other key is
      touched; an earlier `token0 -> id` entry stays behind. */
  function SetToken(c: Cache, id: string, samples: seq<char>): (r: Issued)
    requires |samples| >= TOKEN_SIZE && AllAlphanumeric(samples)
    ensures r.token.token == NewToken(samples)
    ensures r.cache.Keys == c.Keys + {r.token.token, id}
    ensures r.cache[id] == Entry(r.token.token, EXPIRE_TIME)
    ensures r.token.token != id ==> r.cache[r.token.token] == Entry(id, EXPIRE_TIME)
    ensures forall k | k in c && k != id && k != r.token.token :: r.cache[k] == c[k]
  {
    var tokenStr := NewToken(samples);
    var c1 := SetEx(c, tokenStr, id, EXPIRE_TIME);
    var c2 := SetEx(c1, id, tokenStr, EXPIRE_TIME);
    Issued(Token(tokenStr), c2)
  }

  // ---------------------------------------------------------------------------
  // The session-pair invariant
  // ---------------------------------------------------------------------------

  /** Every entry is one half of a session pair: its value is a different,
      non-empty key whose value points back with the same remaining time. */
  ghost predicate Consistent(c: Cache) {
    forall k | k in c :: PairedAt(c, k)
  }

  ghost predicate PairedAt(c: Cache, k: string)
    requires k in c
  {
    var v := c[k].value;
    v != "" && v != k && v in c && c[v].value == k && c[v].ttl == c[k].ttl
  }

  /** In a cache of session pairs every key resolves: reading the empty
      string means the key is absent. */
  lemma PresentKeysResolve(c: Cache)
    requires Consistent(c)
    ensures forall k | k in c :: Get(c, k) != ""
  {
    forall k | k in c ensures Get(c, k) != "" {
      assert PairedAt(c, k);
    }
  }

  /** After `set_token(I)` returns `T`, `T` resolves to `I` and `I` to `T`. */
  lemma {:induction false} SetTokenResolves(c: Cache, id: string, samples: seq<char>)
    requires |samples| >= TOKEN_SIZE && AllAlphanumeric(samples)
    ensures var r := SetToken(c, id, samples);
            Get(r.cache, r.token.token) == id && Get(r.cache, id) == r.token.token
  {
  }

  /** Removing both halves of a session keeps every other session intact, and
      neither half resolves any more. */
  lemma {:induction false} InvalidateKeepsConsistent(c: Cache, id: string)
    requires Consistent(c)
    requires id in c
    ensures var c' := Del(Del(c, id), c[id].value);
            && Consistent(c')
            && Get(c', id) == "" && Get(c', c[id].value) == ""
  {
    var t := c[id].value;
    var c' := Del(Del(c, id), t);
    assert PairedAt(c, id);
    forall k | k in c' ensures PairedAt(c', k) {
      assert PairedAt(c, k);
      assert PairedAt(c, t);
    }
  }

  /** Issuing a token that is not yet a key, for an account with no session,
      keeps the cache made of session pairs. */
  lemma {:induction false} SetTokenKeepsConsistent(c: Cache, id: string, samples: seq<char>)
    requires Consistent(c)
    requires |samples| >= TOKEN_SIZE && AllAlphanumeric(samples)
    requires id !in c && id != "" && |id| != TOKEN_SIZE
    requires NewToken(samples) !in c
    ensures Consistent(SetToken(c, id, samples).cache)
  {
    var r := SetToken(c, id, samples);
    var t := r.token.token;
    forall k | k in r.cache ensures PairedAt(r.cache, k) {
      if k != id && k != t {
        assert PairedAt(c, k);
        assert c[k].value != id && c[k].value != t;
      }
    }
  }

  /** `set_token` on an account that already has a session overwrites
      `id -> T0` but leaves `T0 -> id`: the old token still resolves. */
  lemma {:induction false} SetTokenOrphansOldToken(c: Cache, id: string, samples: seq<char>)
    requires |samples| >= TOKEN_SIZE && AllAlphanumeric(samples)
    requires id in c && c[id].value in c && c[c[id].value].value == id
    requires NewToken(samples) != c[id].value && c[id].value != id
    ensures var r := SetToken(c, id, samples);
            && Get(r.cache, c[id].value) == id
            && Get(r.cache, id) == r.token.token
            && !Consistent(r.cache)
  {
    var r := SetToken(c, id, samples);
    var t0 := c[id].value;
    assert r.cache[t0] == c[t0];
    assert !PairedAt(r.cache, t0);
  }
}
