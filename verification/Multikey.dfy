/**
 ATProto Multikey strings: `decode_multikey`, `encode_multikey_secp256k1`, `encode_multikey_p256` and the
 header classifier behind them. The base64url decoder of the 'u' form is a parameter.
 */
module Multikey {
  import opened Text
  import opened Base58

  datatype Curve = Secp256k1 | P256

  datatype Result<+T> = Ok(value: T) | InvalidKey | Base64Decode

  /** `URL_SAFE_NO_PAD.decode`. */
  type Base64 = string -> Option<Bytes>

  const COMPRESSED_LEN: nat := 33

  predicate IsTag(b: nat) { b == 2 || b == 3 }

  /** A compressed SEC1 point: 33 bytes with tag 02 or 03. */
  predicate IsSec1(bs: Bytes) { |bs| == COMPRESSED_LEN && IsTag(bs[0]) }

  function Varint(c: Curve): Bytes {
    if c == Secp256k1 then [0xe7, 0x01] else [0x80, 0x24]
  }

  // ---------------------------------------------------------------------------------------------
  // The classifier
  // ---------------------------------------------------------------------------------------------

  function ClassifyHeader(len: nat, b0: nat, b1: nat, b2: nat): Option<Curve> {
    if (len == 35 && b0 == 0xe7 && b1 == 0x01 && IsTag(b2)) || (len == 34 && b0 == 0xe7 && IsTag(b1)) then
      Some(Secp256k1)
    else if len == 35 && b0 == 0x80 && b1 == 0x24 && IsTag(b2) then Some(P256)
    else None
  }

  function Sec1Offset(len: nat, b0: nat, b1: nat, b2: nat): nat {
    if len == 35 && IsTag(b2) && ((b0 == 0xe7 && b1 == 0x01) || (b0 == 0x80 && b1 == 0x24)) then 2
    else if len == 34 && b0 == 0xe7 && IsTag(b1) then 1
    else 0
  }

  function ClassifyBytes(bs: Bytes): Option<(Curve, Bytes)> {
    if |bs| < 3 then None
    else
      var curve := ClassifyHeader(|bs|, bs[0], bs[1], bs[2]);
      var offset := Sec1Offset(|bs|, bs[0], bs[1], bs[2]);
      if curve.None? || offset == 0 then None else Some((curve.value, bs[offset..]))
  }

  /** The three payloads a key of curve `c` may arrive as: prefixed, or with the one-byte legacy prefix. */
  predicate Carries(bs: Bytes, c: Curve, key: Bytes) {
    && IsSec1(key)
    && match c
       case Secp256k1 => bs == [0xe7, 0x01] + key || bs == [0xe7] + key
       case P256 => bs == [0x80, 0x24] + key
  }

  /** The classifier answers exactly with the curve and point the payload carries. */
  lemma ClassifiesExactly(bs: Bytes, c: Curve, key: Bytes)
    ensures ClassifyBytes(bs) == Some((c, key)) <==> Carries(bs, c, key)
  {
    if ClassifyBytes(bs) == Some((c, key)) {
      var offset := |bs| - |key|;
      assert bs == bs[..offset] + key;
      if offset == 1 {
        assert bs[..1] == [0xe7];
      } else {
        assert bs[..2] == Varint(c);
      }
    }
  }

  // ---------------------------------------------------------------------------------------------
  // Multibase strings
  // ---------------------------------------------------------------------------------------------

  function StripZero(bs: Bytes): Bytes { if bs != [] && bs[0] == 0 then bs[1..] else bs }

  function DecodeBase(multibase: string, base64: Base64): Result<Bytes>
    requires |multibase| >= 2
  {
    if multibase[0] == 'z' then
      DecodeMeaning(multibase[1..]);
      var d := Decode(multibase[1..]);
      if d.None? then InvalidKey else Ok(d.value)
    else if multibase[0] == 'u' then
      var d := base64(multibase[1..]);
      if d.None? then Base64Decode else Ok(d.value)
    else InvalidKey
  }

  function DecodeMultikey(multibase: string, base64: Base64): Result<Bytes> {
    if |multibase| < 2 then InvalidKey
    else
      var d := DecodeBase(multibase, base64);
      if d.Ok? then Ok(StripZero(d.value)) else d
  }

  function EncodeMultikey(c: Curve, key: Bytes): string { "z" + Encode(Varint(c) + key) }

  /** The key a multibase string resolves to. */
  function ParseKey(multibase: string, base64: Base64): Option<(Curve, Bytes)> {
    var d := DecodeMultikey(multibase, base64);
    if d.Ok? then ClassifyBytes(d.value) else None
  }

  /** A payload with a non-zero lead survives the trip through its 'z' string. */
  lemma PayloadRoundTrip(payload: Bytes, base64: Base64)
    requires RoundTrips(payload)
    ensures DecodeMultikey("z" + Encode(payload), base64) == Ok(payload)
  {
    var s := "z" + Encode(payload);
    NoOnes(payload);
    DecodeEncode(payload);
    assert s[1..] == Encode(payload);
  }

  /** Encode, decode, classify: exactly the curve and the bytes that went in. */
  lemma PipelineRoundTrip(c: Curve, key: Bytes, base64: Base64)
    requires IsSec1(key)
    ensures DecodeMultikey(EncodeMultikey(c, key), base64) == Ok(Varint(c) + key)
    ensures ParseKey(EncodeMultikey(c, key), base64) == Some((c, key))
  {
    PayloadRoundTrip(Varint(c) + key, base64);
    ClassifiesExactly(Varint(c) + key, c, key);
  }

  /** Encodings of different curves or different keys never coincide. */
  lemma EncodingsDistinct(c: Curve, key: Bytes, c': Curve, key': Bytes)
    requires IsSec1(key) && IsSec1(key')
    requires EncodeMultikey(c, key) == EncodeMultikey(c', key')
    ensures c == c' && key == key'
  {
    var base64: Base64 := s => None;
    PipelineRoundTrip(c, key, base64);
    PipelineRoundTrip(c', key', base64);
  }

  /** What a 'z' string decodes to is its base58, which never starts with a zero byte. */
  lemma DecodedBody(s: string, base64: Base64, payload: Bytes)
    requires |s| >= 1 && s[0] == 'z' && DecodeMultikey(s, base64) == Ok(payload)
    ensures |s| >= 2 && Decode(s[1..]) == Some(payload)
  {
    DecodeMeaning(s[1..]);
  }

  lemma BodyIsEncoded(body: string, payload: Bytes)
    requires body != "" && Decode(body) == Some(payload)
    ensures Encode(payload) == body
  {
    DecodeMeaning(body);
    EncodeDecode(body);
  }

  /** A 'z' string that decodes at all is the encoding of what it decodes to. */
  lemma DecodedIsEncoded(s: string, base64: Base64, payload: Bytes)
    requires |s| >= 1 && s[0] == 'z' && DecodeMultikey(s, base64) == Ok(payload)
    ensures s == "z" + Encode(payload)
  {
    var body := s[1..];
    DecodedBody(s, base64, payload);
    BodyIsEncoded(body, payload);
    assert s == "z" + body;
  }

  lemma LegacyRoundTrip(key: Bytes, base64: Base64)
    requires IsSec1(key)
    ensures ParseKey("z" + Encode([0xe7] + key), base64) == Some((Secp256k1, key))
  {
    PayloadRoundTrip([0xe7] + key, base64);
    ClassifiesExactly([0xe7] + key, Secp256k1, key);
  }

  /** The strings that resolve to a key: its encoding, or the base58 of its legacy payload. */
  predicate Spells(s: string, c: Curve, key: Bytes) {
    IsSec1(key) && (s == EncodeMultikey(c, key) || (c == Secp256k1 && s == "z" + Encode([0xe7] + key)))
  }

  /** The other way round: no 'z' string but these two spellings resolves to a key. */
  lemma OnlyTwoSpellings(s: string, base64: Base64, c: Curve, key: Bytes)
    requires |s| >= 1 && s[0] == 'z'
    ensures ParseKey(s, base64) == Some((c, key)) <==> Spells(s, c, key)
  {
    if ParseKey(s, base64) == Some((c, key)) {
      var payload := DecodeMultikey(s, base64).value;
      DecodedIsEncoded(s, base64, payload);
      ClassifiesExactly(payload, c, key);
    } else if IsSec1(key) {
      PipelineRoundTrip(c, key, base64);
      LegacyRoundTrip(key, base64);
    }
  }

  /** A 'u' string resolves to a key exactly when its base64 carries it, with or without one zero byte in front. */
  lemma Base64Spellings(s: string, base64: Base64, c: Curve, key: Bytes)
    requires |s| >= 2 && s[0] == 'u'
    ensures ParseKey(s, base64) == Some((c, key)) <==>
            && base64(s[1..]).Some?
            && var payload := base64(s[1..]).value;
               || Carries(payload, c, key)
               || (payload != [] && payload[0] == 0 && Carries(payload[1..], c, key))
  {
    if base64(s[1..]).Some? {
      var payload := base64(s[1..]).value;
      ClassifiesExactly(StripZero(payload), c, key);
      ClassifiesExactly(payload, c, key);
    }
  }

  /** A string that does not decode is at fault itself, unless it is a 'u' string its base64 decoder refused. */
  lemma DecodeErrorsExactly(s: string, base64: Base64)
    ensures DecodeMultikey(s, base64) == Base64Decode <==> |s| >= 2 && s[0] == 'u' && base64(s[1..]).None?
    ensures DecodeMultikey(s, base64).Ok? <==>
            |s| >= 2 && ((s[0] == 'z' && Decodable(s[1..])) || (s[0] == 'u' && base64(s[1..]).Some?))
  {
    if |s| >= 2 {
      DecodeMeaning(s[1..]);
    }
  }

  /** No other multibase prefix, and no shorter string, resolves to anything. */
  lemma OnlyTwoPrefixes(s: string, base64: Base64)
    requires ParseKey(s, base64).Some?
    ensures |s| >= 2 && (s[0] == 'z' || s[0] == 'u')
  {
  }
}
