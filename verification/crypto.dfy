/** Password hashing and verification.

    The stored form is `<salt>:<digest>`: a 12-character alphanumeric salt and
    the last `$`-separated segment of Argon2id's self-describing encoding,
    which is the unpadded base 64 of the raw tag. Verification rebuilds the
    whole encoding from the fixed cost parameters and hands it to the Argon2
    verifier.

    Argon2id itself (RFC 9106) is not modelled: it is the parameter `h`, the
    raw tag for (password bytes, salt bytes, tag length) under the fixed cost
    parameters. The random generator is a parameter too: the characters it
    would sample. */
module Crypto {
  import opened Wrappers
  import opened Text
  import Base64

  const CRYPTO_MEM: nat := 4096
  const CRYPTO_TIME: nat := 10
  const CRYPTO_LANES: nat := 4
  const CRYPTO_LEN: nat := 32
  const SALT_LEN: nat := 12
  /** `Version::Version13.as_u32()` (0x13). */
  const ARGON2_VERSION: nat := 19
  /** The shortest tag the Argon2 verifier accepts. */
  const MIN_HASH_LEN: nat := 4

  /** Argon2id under the fixed cost parameters: (password, salt, tag length)
      to raw tag. */
  type Digest = (seq<byte>, seq<byte>, nat) -> seq<byte>

  /** Argon2 produces exactly as many tag bytes as requested. */
  ghost predicate ValidDigest(h: Digest) {
    forall pwd, salt, n :: |h(pwd, salt, n)| == n
  }

  /** `rand_str(length)`: the first `length` characters drawn from the
      alphanumeric distribution; `samples` is that stream. */
  function RandStr(length: nat, samples: seq<char>): (s: string)
    requires |samples| >= length && AllAlphanumeric(samples)
    ensures |s| == length && AllAlphanumeric(s)
  {
    samples[..length]
  }

  // ---------------------------------------------------------------------------
  // Argon2's self-describing encoding
  // ---------------------------------------------------------------------------

  /** `$argon2id$v=19$m=4096,t=10,p=4$`, written from the constants. */
  function EncodedPrefix(): string {
    "$argon2id$v=" + Decimal(ARGON2_VERSION) + "$m=" + Decimal(CRYPTO_MEM)
      + ",t=" + Decimal(CRYPTO_TIME) + ",p=" + Decimal(CRYPTO_LANES) + "$"
  }

  lemma EncodedPrefixText()
    ensures EncodedPrefix() == "$argon2id$v=19$m=4096,t=10,p=4$"
  {
    assert Decimal(19) == "19" by {
      assert Decimal(1) == "1";
    }
    assert Decimal(4096) == "4096" by {
      assert Decimal(4) == "4";
      assert Decimal(40) == "40";
      assert Decimal(409) == "409";
    }
    assert Decimal(10) == "10" by {
      assert Decimal(1) == "1";
    }
    assert Decimal(4) == "4";
  }

  /** `argon2::hash_encoded` with the fixed configuration. */
  function HashEncoded(h: Digest, pwd: seq<byte>, salt: seq<byte>): string {
    EncodedPrefix() + Base64.EncodeNoPad(salt) + "$" + Base64.EncodeNoPad(h(pwd, salt, CRYPTO_LEN))
  }

  datatype Argon2Error = DecodingFail | HashTooShort

  /** The six `$`-separated fields of an encoding for this configuration. */
  function EncodedFields(salt64: string, tag64: string): seq<string> {
    ["", "argon2id", "v=19", "m=4096,t=10,p=4", salt64, tag64]
  }

  /** `argon2::verify_encoded`: parse the encoding, decode salt and tag from
      base 64, and compare the tag with the one recomputed from the password.
      Only the parameter text `password_verify` itself writes is accepted. */
  function VerifyEncoded(h: Digest, encoded: string, pwd: seq<byte>): (r: Result<bool, Argon2Error>)
    ensures r.Ok? ==> exists salt64, tag64 :: Split(encoded, '$') == EncodedFields(salt64, tag64)
  {
    var parts := Split(encoded, '$');
    if |parts| != 6 || parts[..4] != EncodedFields("", "")[..4] then Err(DecodingFail)
    else
      assert parts == EncodedFields(parts[4], parts[5]);
      match (Base64.DecodeNoPad(parts[4]), Base64.DecodeNoPad(parts[5]))
      case (Some(salt), Some(tag)) =>
        if |tag| < MIN_HASH_LEN then Err(HashTooShort)
        else Ok(h(pwd, salt, |tag|) == tag)
      case _ => Err(DecodingFail)
  }

  /** No base 64 text contains a `$` or a `:`. */
  lemma NoSeparatorsInBase64(bs: seq<byte>)
    ensures '$' !in Base64.EncodeNoPad(bs) && ':' !in Base64.EncodeNoPad(bs)
  {
    var s := Base64.EncodeNoPad(bs);
    forall i | 0 <= i < |s| ensures s[i] != '$' && s[i] != ':' {
      assert Base64.IsAlphabetChar(s[i]);
    }
  }

  /** The encoding of a salt and a tag splits into exactly its six fields. */
  lemma SplitHashEncoded(salt: seq<byte>, tag: seq<byte>)
    ensures var salt64, tag64 := Base64.EncodeNoPad(salt), Base64.EncodeNoPad(tag);
            Split(EncodedPrefix() + salt64 + "$" + tag64, '$') == EncodedFields(salt64, tag64)
  {
    EncodedPrefixText();
    NoSeparatorsInBase64(salt);
    NoSeparatorsInBase64(tag);
    SplitEncodedText(Base64.EncodeNoPad(salt), Base64.EncodeNoPad(tag));
  }

  lemma SplitEncodedText(salt64: string, tag64: string)
    requires '$' !in salt64 && '$' !in tag64
    ensures Split("$argon2id$v=19$m=4096,t=10,p=4$" + salt64 + "$" + tag64, '$')
         == EncodedFields(salt64, tag64)
  {
    var r4 := salt64 + ['$'] + tag64;
    var r3 := "m=4096,t=10,p=4" + ['$'] + r4;
    var r2 := "v=19" + ['$'] + r3;
    var r1 := "argon2id" + ['$'] + r2;
    var e := "" + ['$'] + r1;
    PrefixConcat(salt64, tag64);
    assert Split(r4, '$') == [salt64, tag64] by {
      SplitWithoutSep(tag64, '$');
      SplitAfterPiece(salt64, '$', tag64);
    }
    assert Split(r3, '$') == ["m=4096,t=10,p=4", salt64, tag64] by {
      SplitAfterPiece("m=4096,t=10,p=4", '$', r4);
    }
    assert Split(r2, '$') == ["v=19", "m=4096,t=10,p=4", salt64, tag64] by {
      SplitAfterPiece("v=19", '$', r3);
    }
    assert Split(r1, '$') == ["argon2id", "v=19", "m=4096,t=10,p=4", salt64, tag64] by {
      SplitAfterPiece("argon2id", '$', r2);
    }
    SplitAfterPiece("", '$', r1);
  }

  lemma PrefixConcat(salt64: string, tag64: string)
    ensures "$argon2id$v=19$m=4096,t=10,p=4$" + salt64 + "$" + tag64
         == "" + ['$'] + ("argon2id" + ['$'] + ("v=19" + ['$'] + ("m=4096,t=10,p=4" + ['$']
              + (salt64 + ['$'] + tag64))))
  {
  }

  /** Verifying a password against an encoding made from a salt and a tag of
      the configured length recomputes the tag for that salt and compares. */
  lemma VerifyHashEncoded(h: Digest, pwd: seq<byte>, salt: seq<byte>, tag: seq<byte>)
    requires |tag| == CRYPTO_LEN
    ensures VerifyEncoded(h, EncodedPrefix() + Base64.EncodeNoPad(salt) + "$" + Base64.EncodeNoPad(tag), pwd)
         == Ok(h(pwd, salt, CRYPTO_LEN) == tag)
  {
    SplitHashEncoded(salt, tag);
    Base64.NoPadRoundTrip(salt);
    Base64.NoPadRoundTrip(tag);
  }

  // ---------------------------------------------------------------------------
  // hash_password and password_verify
  // ---------------------------------------------------------------------------

  /** The digest `hash_password` keeps: the last `$`-segment of the encoding. */
  function DigestSegment(h: Digest, pwd: seq<byte>, salt: seq<byte>): (d: string)
    ensures d == Base64.EncodeNoPad(h(pwd, salt, CRYPTO_LEN))
  {
    var encoded := HashEncoded(h, pwd, salt);
    NoSeparatorsInBase64(h(pwd, salt, CRYPTO_LEN));
    assert encoded == (EncodedPrefix() + Base64.EncodeNoPad(salt)) + ['$']
                      + Base64.EncodeNoPad(h(pwd, salt, CRYPTO_LEN));
    LastPieceAfterSep(EncodedPrefix() + Base64.EncodeNoPad(salt), '$',
                      Base64.EncodeNoPad(h(pwd, salt, CRYPTO_LEN)));
    Last(Split(encoded, '$'))
  }

  /** `hash_password`: a fresh 12-character salt, a colon, and the digest.
      Splitting the result on `:` gives back exactly the salt and the digest. */
  function HashPassword(h: Digest, samples: seq<char>, password: string): (stored: string)
    requires |samples| >= SALT_LEN && AllAlphanumeric(samples)
    ensures var salt := RandStr(SALT_LEN, samples);
            && |stored| > SALT_LEN && stored[..SALT_LEN] == salt && stored[SALT_LEN] == ':'
            && Split(stored, ':') == [salt, Base64.EncodeNoPad(h(Utf8(password), Utf8(salt), CRYPTO_LEN))]
  {
    var salt := RandStr(SALT_LEN, samples);
    var digest := DigestSegment(h, Utf8(password), Utf8(salt));
    NoSeparatorsInBase64(h(Utf8(password), Utf8(salt), CRYPTO_LEN));
    assert ':' !in salt by {
      forall i | 0 <= i < |salt| ensures salt[i] != ':' {
        assert IsAlphanumeric(salt[i]);
      }
    }
    assert Join([salt, digest], ':') == salt + ":" + digest;
    SplitJoin([salt, digest], ':');
    salt + ":" + digest
  }

  /** The check `password_verify` makes once the stored text has been split
      into `salt` and `digest`. */
  predicate VerifiesAgainst(h: Digest, salt: string, digest: string, password: string) {
    VerifyEncoded(h, EncodedPrefix() + Base64.EncodeNoPad(Utf8(salt)) + "$" + digest, Utf8(password))
      == Ok(true)
  }

  /** `password_verify`: false, never a failure, when the salt segment is not
      12 bytes long, when there is no digest segment, or when the Argon2
      verifier rejects or fails; segments after the second are ignored. The
      `"=="` removal from the base 64 salt is a no-op for 12-byte salts. */
  function PasswordVerify(h: Digest, passwordHash: string, password: string): (ok: bool)
    ensures var parts := Split(passwordHash, ':');
            ok <==> && |parts| >= 2
                    && |Utf8(parts[0])| == SALT_LEN
                    && VerifiesAgainst(h, parts[0], parts[1], password)
  {
    var parts := Split(passwordHash, ':');
    if |parts| < 1 then false // `get(0)` of a split is never `None`
    else if |Utf8(parts[0])| != SALT_LEN then false
    else
      var salt := ReplaceAll(Base64.Encode(Utf8(parts[0])), "==", "");
      Base64.TwelveBytesNeedNoPadding(Utf8(parts[0]));
      if |parts| < 2 then false
      else
        var encoded := EncodedPrefix() + salt + "$" + parts[1];
        match VerifyEncoded(h, encoded, Utf8(password))
        case Ok(b) => b
        case Err(_) => false
  }

  /** A password verifies against its own hash (the source's unit test, for
      every password and every salt). */
  lemma {:induction false} HashThenVerify(h: Digest, samples: seq<char>, password: string)
    requires ValidDigest(h)
    requires |samples| >= SALT_LEN && AllAlphanumeric(samples)
    ensures PasswordVerify(h, HashPassword(h, samples, password), password)
  {
    HashVerifiesExactly(h, samples, password, password);
  }

  /** Another password verifies against a stored hash exactly when Argon2 gives
      it the same tag under the stored salt: only a tag collision lets a wrong
      password in. */
  lemma {:induction false} HashVerifiesExactly(h: Digest, samples: seq<char>, password: string, attempt: string)
    requires ValidDigest(h)
    requires |samples| >= SALT_LEN && AllAlphanumeric(samples)
    ensures var salt := Utf8(RandStr(SALT_LEN, samples));
            PasswordVerify(h, HashPassword(h, samples, password), attempt)
            == (h(Utf8(attempt), salt, CRYPTO_LEN) == h(Utf8(password), salt, CRYPTO_LEN))
  {
    var salt := RandStr(SALT_LEN, samples);
    var tag := h(Utf8(password), Utf8(salt), CRYPTO_LEN);
    AlphanumericIsAscii(salt);
    AsciiUtf8(salt);
    VerifyHashEncoded(h, Utf8(attempt), Utf8(salt), tag);
  }

  /** Anything after a second `:` plays no part in verification. */
  lemma {:induction false} TrailingSegmentsIgnored(h: Digest, salt: string, digest: string, rest: string, password: string)
    requires ':' !in salt && ':' !in digest
    ensures PasswordVerify(h, salt + ":" + digest + ":" + rest, password)
         == PasswordVerify(h, salt + ":" + digest, password)
  {
    SplitAfterPiece(salt, ':', digest + ":" + rest);
    assert salt + ":" + digest + ":" + rest == salt + [':'] + (digest + ":" + rest);
    SplitAfterPiece(digest, ':', rest);
    assert digest + ":" + rest == digest + [':'] + rest;
    SplitAfterPiece(salt, ':', digest);
    assert salt + ":" + digest == salt + [':'] + digest;
    SplitWithoutSep(digest, ':');
  }

  /** A stored hash without a `:` never verifies. */
  lemma NoDigestNeverVerifies(h: Digest, passwordHash: string, password: string)
    requires ':' !in passwordHash
    ensures !PasswordVerify(h, passwordHash, password)
  {
    SplitWithoutSep(passwordHash, ':');
  }
}
