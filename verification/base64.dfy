/** Base 64 encoding as defined in section 4 of RFC 4648: the standard
    alphabet, 24-bit groups written as four characters, and `=` padding of a
    final partial group. The unpadded variant is the form Argon2 uses in its
    self-describing hash strings. */
module Base64 {
  import opened Wrappers
  import opened Text

  /** The character of the alphabet (RFC 4648 section 4, Table 1) for a
      6-bit value. */
  function SextetChar(v: nat): (c: char)
    requires v < 64
  {
    if v < 26 then (65 + v) as char          // 'A'..'Z'
    else if v < 52 then (97 + v - 26) as char // 'a'..'z'
    else if v < 62 then (48 + v - 52) as char // '0'..'9'
    else if v == 62 then '+'
    else '/'
  }

  /** The 6-bit value of an alphabet character; `None` off the alphabet
      (including the pad character `=`). */
  function CharSextet(c: char): (v: Option<nat>)
    ensures v.Some? ==> v.value < 64
  {
    if 'A' <= c <= 'Z' then Some(c as int - 65)
    else if 'a' <= c <= 'z' then Some(c as int - 97 + 26)
    else if '0' <= c <= '9' then Some(c as int - 48 + 52)
    else if c == '+' then Some(62)
    else if c == '/' then Some(63)
    else None
  }

  predicate IsAlphabetChar(c: char) {
    CharSextet(c).Some?
  }

  /** The alphabet and its table agree in both directions. */
  lemma SextetRoundTrip(v: nat)
    requires v < 64
    ensures CharSextet(SextetChar(v)) == Some(v)
  {
  }

  lemma CharSextetRoundTrip(c: char)
    requires IsAlphabetChar(c)
    ensures SextetChar(CharSextet(c).value) == c
  {
  }

  /** Neither separator of the stored hash format is a base 64 character. */
  lemma SeparatorsOffAlphabet()
    ensures !IsAlphabetChar(':') && !IsAlphabetChar('$') && !IsAlphabetChar('=')
  {
  }

  // ---------------------------------------------------------------------------
  // Encoding
  // ---------------------------------------------------------------------------

  /** The four characters of a 24-bit group: each 6-bit slice, high bits
      first, through the alphabet. */
  function GroupChars(b0: byte, b1: byte, b2: byte): (cs: string)
    ensures |cs| == 4
    ensures forall i | 0 <= i < 4 :: IsAlphabetChar(cs[i])
  {
    SextetRoundTrip(b0 / 4);
    SextetRoundTrip((b0 % 4) * 16 + b1 / 16);
    SextetRoundTrip((b1 % 16) * 4 + b2 / 64);
    SextetRoundTrip(b2 % 64);
    [SextetChar(b0 / 4), SextetChar((b0 % 4) * 16 + b1 / 16),
     SextetChar((b1 % 16) * 4 + b2 / 64), SextetChar(b2 % 64)]
  }

  /** Encoding without padding: a final group of one byte gives the first two
      characters of its group (missing bits zero), of two bytes the first
      three. */
  function EncodeNoPad(bs: seq<byte>): (s: string)
    ensures |s| == (4 * |bs| + 2) / 3
    ensures forall i | 0 <= i < |s| :: IsAlphabetChar(s[i])
    decreases |bs|
  {
    if |bs| == 0 then ""
    else if |bs| == 1 then GroupChars(bs[0], 0, 0)[..2]
    else if |bs| == 2 then GroupChars(bs[0], bs[1], 0)[..3]
    else GroupChars(bs[0], bs[1], bs[2]) + EncodeNoPad(bs[3..])
  }

  /** The pad characters that complete the final quantum (RFC 4648 section 4,
      cases (2) and (3)). */
  function Padding(n: nat): string {
    if n % 3 == 1 then "==" else if n % 3 == 2 then "=" else ""
  }

  /** Unpadded output never contains the pad character. */
  lemma NoPadHasNoPadChar(bs: seq<byte>)
    ensures '=' !in EncodeNoPad(bs)
  {
    var body := EncodeNoPad(bs);
    forall i | 0 <= i < |body| ensures body[i] != '=' {
      assert IsAlphabetChar(body[i]);
    }
  }

  /** Padded encoding, the `base64::encode` of the source. */
  function Encode(bs: seq<byte>): (s: string)
    ensures |s| == 4 * ((|bs| + 2) / 3)
    ensures '=' in s <==> |bs| % 3 != 0
    ensures |bs| % 3 == 0 ==> s == EncodeNoPad(bs)
  {
    PaddedLength(bs);
    EncodeNoPad(bs) + Padding(|bs|)
  }

  /** The unpadded body followed by its padding fills whole quanta and holds
      a pad character exactly when the final group is partial. */
  lemma PaddedLength(bs: seq<byte>)
    ensures var s := EncodeNoPad(bs) + Padding(|bs|);
            && |s| == 4 * ((|bs| + 2) / 3)
            && ('=' in s <==> |bs| % 3 != 0)
  {
    var body, pad := EncodeNoPad(bs), Padding(|bs|);
    NoPadHasNoPadChar(bs);
    assert '=' in body + pad <==> '=' in pad;
    QuantumArithmetic(|bs|);
  }

  lemma QuantumArithmetic(n: nat)
    ensures (4 * n + 2) / 3 + |Padding(n)| == 4 * ((n + 2) / 3)
  {
    var q, r := n / 3, n % 3;
    assert n == 3 * q + r;
    if r == 0 {
      assert (4 * n + 2) / 3 == 4 * q;
    } else if r == 1 {
      assert (4 * n + 2) / 3 == 4 * q + 2;
    } else {
      assert (4 * n + 2) / 3 == 4 * q + 3;
    }
  }

  /** Removing every `"=="` (`encode(s).replace("==", "")`) strips the padding
      of a one-byte final group and leaves a two-byte group's single `=`. */
  lemma StripDoublePad(bs: seq<byte>)
    ensures ReplaceAll(Encode(bs), "==", "")
         == EncodeNoPad(bs) + (if |bs| % 3 == 2 then "=" else "")
  {
    var body := EncodeNoPad(bs);
    var pad := Padding(|bs|);
    NoPadHasNoPadChar(bs);
    ReplaceKeepsPrefix(body, pad);
    assert Encode(bs) == body + pad;
    PadReplaced(|bs|);
  }

  /** What `replace("==", "")` leaves of each padding. */
  lemma PadReplaced(n: nat)
    ensures ReplaceAll(Padding(n), "==", "") == (if n % 3 == 2 then "=" else "")
  {
    if n % 3 == 1 {
      assert Padding(n) == "==";
      assert "=="[2..] == "";
      assert ReplaceAll("==", "==", "") == "" + ReplaceAll("", "==", "");
    } else if n % 3 == 2 {
      assert Padding(n) == "=";
    } else {
      assert Padding(n) == "";
    }
  }

  /** A `=`-free prefix passes through `replace("==", "")` untouched. */
  lemma {:induction false} ReplaceKeepsPrefix(body: string, tail: string)
    requires '=' !in body
    ensures ReplaceAll(body + tail, "==", "") == body + ReplaceAll(tail, "==", "")
    decreases |body|
  {
    if |body| > 0 {
      var s := body + tail;
      assert s[0] == body[0] && body[0] != '=';
      assert s[1..] == body[1..] + tail;
      assert '=' !in body[1..];
      ReplaceKeepsPrefix(body[1..], tail);
      if |s| < 2 {
        assert tail == [] && s == body;
        assert ReplaceAll(tail, "==", "") == tail;
      } else {
        assert s[..2] != "==";
        assert ReplaceAll(s, "==", "") == [s[0]] + ReplaceAll(s[1..], "==", "");
        assert [body[0]] + body[1..] == body;
      }
    } else {
      assert body + tail == tail;
    }
  }

  /** A twelve-byte salt fills four whole groups: sixteen characters and no
      padding, so dropping `"=="` changes nothing. */
  lemma TwelveBytesNeedNoPadding(bs: seq<byte>)
    requires |bs| == 12
    ensures |Encode(bs)| == 16
    ensures '=' !in Encode(bs)
    ensures ReplaceAll(Encode(bs), "==", "") == EncodeNoPad(bs)
  {
    StripDoublePad(bs);
    NoPadHasNoPadChar(bs);
  }

  // ---------------------------------------------------------------------------
  // Decoding
  // ---------------------------------------------------------------------------

  /** Decoding of the unpadded form; `None` on a character off the alphabet or
      on a length that leaves a single dangling character. A final group of
      two or three characters yields one or two bytes, and its bits past the
      last whole byte must be zero (section 3.5 of RFC 4648: a decoder may
      reject an encoding whose pad bits are not zero). */
  function DecodeNoPad(s: string): Option<seq<byte>>
    decreases |s|
  {
    if |s| == 0 then Some([])
    else if |s| == 1 then None
    else
      var v0 := CharSextet(s[0]);
      var v1 := CharSextet(s[1]);
      var v2 := if |s| >= 3 then CharSextet(s[2]) else Some(0);
      var v3 := if |s| >= 4 then CharSextet(s[3]) else Some(0);
      if v0.None? || v1.None? || v2.None? || v3.None? then None
      else
        var group := DecodeGroup(v0.value, v1.value, v2.value, v3.value);
        if |s| < 4 then
          if group[|s| - 1] == 0 then Some(group[..|s| - 1]) else None
        else
          match DecodeNoPad(s[4..])
          case None => None
          case Some(rest) => Some(group + rest)
  }

  /** Four 6-bit values joined into the three bytes of a 24-bit group. */
  function DecodeGroup(c0: nat, c1: nat, c2: nat, c3: nat): (g: seq<byte>)
    requires c0 < 64 && c1 < 64 && c2 < 64 && c3 < 64
    ensures |g| == 3
  {
    [c0 * 4 + c1 / 16, (c1 % 16) * 16 + c2 / 4, (c2 % 4) * 64 + c3]
  }

  /** Padded decoding: the length must be a multiple of four and at most two
      trailing `=` are removed before decoding. */
  function Decode(s: string): Option<seq<byte>> {
    if |s| % 4 != 0 then None
    else if |s| >= 2 && s[|s| - 2..] == "==" then DecodeNoPad(s[..|s| - 2])
    else if |s| >= 1 && s[|s| - 1] == '=' then DecodeNoPad(s[..|s| - 1])
    else DecodeNoPad(s)
  }

  /** The arithmetic of one 24-bit group: splitting three bytes into four
      6-bit values and joining them again gives the bytes back. */
  lemma GroupRoundTrip(b0: byte, b1: byte, b2: byte)
    ensures (b0 / 4) * 4 + ((b0 % 4) * 16 + b1 / 16) / 16 == b0
    ensures (((b0 % 4) * 16 + b1 / 16) % 16) * 16 + ((b1 % 16) * 4 + b2 / 64) / 4 == b1
    ensures (((b1 % 16) * 4 + b2 / 64) % 4) * 64 + b2 % 64 == b2
  {
  }

  /** Splitting a group into 6-bit values and joining them again gives the
      bytes back; the missing bytes of a short final group count as zero. */
  lemma DecodeEncodedGroup(b0: byte, b1: byte, b2: byte)
    ensures DecodeGroup(b0 / 4, (b0 % 4) * 16 + b1 / 16, (b1 % 16) * 4 + b2 / 64, b2 % 64)
         == [b0, b1, b2]
  {
    GroupRoundTrip(b0, b1, b2);
  }

  /** The characters of a group read back as 6-bit values that join to the
      group's bytes. */
  lemma GroupCharsDecode(b0: byte, b1: byte, b2: byte)
    ensures var cs := GroupChars(b0, b1, b2);
            && CharSextet(cs[0]).Some? && CharSextet(cs[1]).Some?
            && CharSextet(cs[2]).Some? && CharSextet(cs[3]).Some?
            && DecodeGroup(CharSextet(cs[0]).value, CharSextet(cs[1]).value,
                           CharSextet(cs[2]).value, CharSextet(cs[3]).value) == [b0, b1, b2]
  {
    SextetRoundTrip(b0 / 4);
    SextetRoundTrip((b0 % 4) * 16 + b1 / 16);
    SextetRoundTrip((b1 % 16) * 4 + b2 / 64);
    SextetRoundTrip(b2 % 64);
    DecodeEncodedGroup(b0, b1, b2);
  }

  /** The first byte of a group depends on the first two values only, the
      first two bytes on the first three. */
  lemma DecodeGroupPrefix(v0: nat, v1: nat, v2: nat, v3: nat, w2: nat, w3: nat)
    requires v0 < 64 && v1 < 64 && v2 < 64 && v3 < 64 && w2 < 64 && w3 < 64
    ensures DecodeGroup(v0, v1, v2, v3)[..1] == DecodeGroup(v0, v1, w2, w3)[..1]
    ensures DecodeGroup(v0, v1, v2, v3)[..2] == DecodeGroup(v0, v1, v2, w3)[..2]
    ensures DecodeGroup(v0, v1, v2, v3)[1] == 0 ==> DecodeGroup(v0, v1, 0, w3)[1] == 0
    ensures DecodeGroup(v0, v1, v2, v3)[2] == 0 ==> DecodeGroup(v0, v1, v2, 0)[2] == 0
  {
  }

  /** Decoding a string that starts with a full group of alphabet characters
      decodes that group in front of the rest. */
  lemma DecodeLeadingGroup(s: string, rest: seq<byte>)
    requires |s| >= 4
    requires CharSextet(s[0]).Some? && CharSextet(s[1]).Some?
    requires CharSextet(s[2]).Some? && CharSextet(s[3]).Some?
    requires DecodeNoPad(s[4..]) == Some(rest)
    ensures DecodeNoPad(s) == Some(DecodeGroup(CharSextet(s[0]).value, CharSextet(s[1]).value,
                                               CharSextet(s[2]).value, CharSextet(s[3]).value) + rest)
  {
  }

  /** Decoding two or three alphabet characters whose spare bits are zero
      gives one or two bytes of their group. */
  lemma DecodeShortGroup(s: string)
    requires |s| == 2 || |s| == 3
    requires forall i | 0 <= i < |s| :: CharSextet(s[i]).Some?
    requires DecodeGroup(CharSextet(s[0]).value, CharSextet(s[1]).value,
                         if |s| == 3 then CharSextet(s[2]).value else 0, 0)[|s| - 1] == 0
    ensures DecodeNoPad(s) == Some(DecodeGroup(CharSextet(s[0]).value, CharSextet(s[1]).value,
                                               if |s| == 3 then CharSextet(s[2]).value else 0, 0)[..|s| - 1])
  {
  }

  /** A final group of two or three alphabet characters is refused exactly
      when a bit past its last whole byte is set. */
  lemma ShortGroupSpareBits(s: string)
    requires |s| == 2 || |s| == 3
    requires forall i | 0 <= i < |s| :: CharSextet(s[i]).Some?
    ensures DecodeNoPad(s).None?
        <==> DecodeGroup(CharSextet(s[0]).value, CharSextet(s[1]).value,
                         if |s| == 3 then CharSextet(s[2]).value else 0, 0)[|s| - 1] != 0
  {
  }

  /** The two or three characters of a final group of one or two bytes read
      back as those bytes. */
  lemma EncodedShortTailDecodes(bs: seq<byte>)
    requires |bs| == 1 || |bs| == 2
    ensures var s := EncodeNoPad(bs);
            && |s| == |bs| + 1
            && (forall i | 0 <= i < |s| :: CharSextet(s[i]).Some?)
            && DecodeGroup(CharSextet(s[0]).value, CharSextet(s[1]).value,
                           if |s| == 3 then CharSextet(s[2]).value else 0, 0)[..|bs|] == bs
            && DecodeGroup(CharSextet(s[0]).value, CharSextet(s[1]).value,
                           if |s| == 3 then CharSextet(s[2]).value else 0, 0)[|bs|] == 0
  {
    var b1: byte := if |bs| == 2 then bs[1] else 0;
    var cs := GroupChars(bs[0], b1, 0);
    var s := EncodeNoPad(bs);
    assert s == cs[..|bs| + 1];
    GroupCharsDecode(bs[0], b1, 0);
    DecodeGroupPrefix(CharSextet(cs[0]).value, CharSextet(cs[1]).value,
                      CharSextet(cs[2]).value, CharSextet(cs[3]).value, 0, 0);
    assert [bs[0], b1, 0][..|bs|] == bs;
  }

  /** Unpadded encoding of three or more bytes starts with the full group
      of the first three. */
  lemma EncodeLeadingGroup(bs: seq<byte>)
    requires |bs| >= 3
    ensures var s := EncodeNoPad(bs);
            var cs := GroupChars(bs[0], bs[1], bs[2]);
            && |s| >= 4 && s[4..] == EncodeNoPad(bs[3..])
            && s[0] == cs[0] && s[1] == cs[1] && s[2] == cs[2] && s[3] == cs[3]
  {
    var s := EncodeNoPad(bs);
    assert s == GroupChars(bs[0], bs[1], bs[2]) + EncodeNoPad(bs[3..]);
  }

  /** The first four characters of the encoding of three or more bytes read
      back as the first three bytes. */
  lemma EncodedGroupDecodes(bs: seq<byte>)
    requires |bs| >= 3
    ensures var s := EncodeNoPad(bs);
            && |s| >= 4 && s[4..] == EncodeNoPad(bs[3..])
            && CharSextet(s[0]).Some? && CharSextet(s[1]).Some?
            && CharSextet(s[2]).Some? && CharSextet(s[3]).Some?
            && DecodeGroup(CharSextet(s[0]).value, CharSextet(s[1]).value,
                           CharSextet(s[2]).value, CharSextet(s[3]).value) == bs[..3]
  {
    EncodeLeadingGroup(bs);
    GroupCharsDecode(bs[0], bs[1], bs[2]);
  }

  /** A string whose first four characters decode to the first three bytes
      and whose remainder decodes to the rest decodes to all of them. */
  lemma FullGroupRoundTrip(s: string, bs: seq<byte>)
    requires |s| >= 4 && |bs| >= 3
    requires CharSextet(s[0]).Some? && CharSextet(s[1]).Some?
    requires CharSextet(s[2]).Some? && CharSextet(s[3]).Some?
    requires DecodeGroup(CharSextet(s[0]).value, CharSextet(s[1]).value,
                         CharSextet(s[2]).value, CharSextet(s[3]).value) == bs[..3]
    requires DecodeNoPad(s[4..]) == Some(bs[3..])
    ensures DecodeNoPad(s) == Some(bs)
  {
    DecodeLeadingGroup(s, bs[3..]);
    assert bs[..3] + bs[3..] == bs;
  }

  /** Unpadded decoding inverts unpadded encoding. */
  lemma {:induction false} NoPadRoundTrip(bs: seq<byte>)
    ensures DecodeNoPad(EncodeNoPad(bs)) == Some(bs)
    decreases |bs|
  {
    if |bs| == 1 || |bs| == 2 {
      EncodedShortTailDecodes(bs);
      DecodeShortGroup(EncodeNoPad(bs));
    } else if |bs| >= 3 {
      NoPadRoundTrip(bs[3..]);
      EncodedGroupDecodes(bs);
      FullGroupRoundTrip(EncodeNoPad(bs), bs);
    }
  }

  /** Padded decoding inverts padded encoding (RFC 4648 section 4). */
  lemma RoundTrip(bs: seq<byte>)
    ensures Decode(Encode(bs)) == Some(bs)
  {
    var body := EncodeNoPad(bs);
    var pad := Padding(|bs|);
    var s := Encode(bs);
    NoPadRoundTrip(bs);
    assert s == body + pad;
    var k := (|bs| + 2) / 3;
    assert |s| == 4 * k;
    MultipleOfFour(k);
    DecodeStripsPad(body, pad);
  }

  lemma MultipleOfFour(k: nat)
    ensures (4 * k) % 4 == 0
  {
  }

  /** Decoding an unpadded body followed by its padding decodes the body. */
  lemma DecodeStripsPad(body: string, pad: string)
    requires pad == "==" || pad == "=" || pad == ""
    requires (|body| + |pad|) % 4 == 0
    requires forall i | 0 <= i < |body| :: IsAlphabetChar(body[i])
    ensures Decode(body + pad) == DecodeNoPad(body)
  {
    var s := body + pad;
    if pad == "==" {
      assert s[|s| - 2..] == "==";
      assert s[..|s| - 2] == body;
    } else if pad == "=" {
      assert |body| >= 1;
      assert s[|s| - 1] == '=';
      assert s[|s| - 2] == body[|body| - 1] && body[|body| - 1] != '=';
      assert s[|s| - 2..] != "==";
      assert s[..|s| - 1] == body;
    } else if |s| >= 1 {
      assert s == body;
      assert s[|s| - 1] != '=';
      assert s[|s| - 2..] != "==";
    }
  }
}
