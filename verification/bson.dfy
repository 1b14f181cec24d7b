/** The BSON values the core stores and queries: a 12-byte ObjectId with its
    24-character hex form (`to_hex` and `ObjectId::with_string`), and documents
    as maps from field name to value. */
module Bson {
  import opened Wrappers
  import opened Text

  type ObjectId = b: seq<byte> | |b| == 12
    witness [0, 0, 0, 0, 0, 0, 0, 0, 0, 0, 0, 0]

  datatype Value =
    | Str(s: string)
    | Int(i: int)
    | Bool(b: bool)
    | Oid(oid: ObjectId)
    | Date(millis: int)  // a BSON datetime; the core never writes one
    | Null

  /** Field order plays no part in the core's queries, so a document is a map. */
  type Document = map<string, Value>

  // ---------------------------------------------------------------------------
  // Hex form of an ObjectId
  // ---------------------------------------------------------------------------

  predicate IsHexDigit(c: char) {
    '0' <= c <= '9' || 'a' <= c <= 'f' || 'A' <= c <= 'F'
  }

  function HexChar(v: nat): (c: char)
    requires v < 16
    ensures IsHexDigit(c)
  {
    if v < 10 then (48 + v) as char else (97 + v - 10) as char
  }

  function HexValue(c: char): (v: nat)
    requires IsHexDigit(c)
    ensures v < 16
  {
    if '0' <= c <= '9' then c as int - 48
    else if 'a' <= c <= 'f' then c as int - 97 + 10
    else c as int - 65 + 10
  }

  /** Lower-case hex of a byte string, two characters per byte. */
  function HexOf(bs: seq<byte>): (s: string)
    ensures |s| == 2 * |bs|
    ensures forall i | 0 <= i < |s| :: IsHexDigit(s[i])
    decreases |bs|
  {
    if |bs| == 0 then "" else [HexChar(bs[0] / 16), HexChar(bs[0] % 16)] + HexOf(bs[1..])
  }

  /** Byte string of an even-length hex string (either case). */
  function BytesOfHex(s: string): seq<byte>
    requires |s| % 2 == 0
    requires forall i | 0 <= i < |s| :: IsHexDigit(s[i])
    decreases |s|
  {
    if |s| == 0 then [] else [HexValue(s[0]) * 16 + HexValue(s[1])] + BytesOfHex(s[2..])
  }

  /** `ObjectId::to_hex`: 24 lower-case hex digits. */
  function ToHex(oid: ObjectId): (s: string)
    ensures |s| == 24
    ensures forall i | 0 <= i < |s| :: IsHexDigit(s[i])
  {
    HexOf(oid)
  }

  /** `ObjectId::with_string`: succeeds exactly on 24 hex digits. */
  function ParseObjectId(s: string): (r: Option<ObjectId>)
    ensures r.Some? <==> |s| == 24 && forall i | 0 <= i < |s| :: IsHexDigit(s[i])
  {
    if |s| == 24 && forall i | 0 <= i < |s| :: IsHexDigit(s[i]) then
      var bs := BytesOfHex(s);
      BytesOfHexLength(s);
      Some(bs)
    else None
  }

  lemma {:induction false} BytesOfHexLength(s: string)
    requires |s| % 2 == 0
    requires forall i | 0 <= i < |s| :: IsHexDigit(s[i])
    ensures |BytesOfHex(s)| == |s| / 2
    decreases |s|
  {
    if |s| > 0 {
      BytesOfHexLength(s[2..]);
    }
  }

  lemma {:induction false} HexRoundTrip(bs: seq<byte>)
    ensures BytesOfHex(HexOf(bs)) == bs
    decreases |bs|
  {
    if |bs| > 0 {
      var s := HexOf(bs);
      HexRoundTrip(bs[1..]);
      assert s[2..] == HexOf(bs[1..]);
      assert HexValue(s[0]) * 16 + HexValue(s[1]) == bs[0];
    }
  }

  /** The hex form parses back to the same ObjectId. */
  lemma ObjectIdRoundTrip(oid: ObjectId)
    ensures ParseObjectId(ToHex(oid)) == Some(oid)
  {
    HexRoundTrip(oid);
  }

  /** A string that is not 24 characters long never names an ObjectId; in
      particular no 32-character session token does. */
  lemma WrongLengthIsNoObjectId(s: string)
    requires |s| != 24
    ensures ParseObjectId(s) == None
  {
  }

  // ---------------------------------------------------------------------------
  // Documents
  // ---------------------------------------------------------------------------

  /** `Document::get_object_id(key)`: the ObjectId under `key`, or `None` when
      the field is missing or holds another type. */
  function GetObjectId(d: Document, key: string): (r: Option<ObjectId>)
    ensures r.Some? <==> key in d && d[key].Oid?
    ensures r.Some? ==> d[key] == Oid(r.value)
  {
    if key in d && d[key].Oid? then Some(d[key].oid) else None
  }

  /** The string under `key`, as serde reads a `String` field. */
  function GetStr(d: Document, key: string): (r: Option<string>)
    ensures r.Some? <==> key in d && d[key].Str?
    ensures r.Some? ==> d[key] == Str(r.value)
  {
    if key in d && d[key].Str? then Some(d[key].s) else None
  }
}
