/**
 The base58btc codec (`bs58_decode`, `bs58_encode`): in-place carry propagation over little-endian digit
 vectors, proved to be a two-way bijection between byte strings that start with a non-zero byte and
 alphabet strings that do not start with '1'.
 */
module Base58 {
  import opened Text
  import opened Digits

  /** The base58btc alphabet, in its runs of consecutive characters. */
  const ALPHABET: string :=
    "123456789" + "ABCDEFGH" + "JKLMN" + "PQRSTUVWXYZ" + "abcdefghijk" + "mnopqrstuvwxyz"

  /** The `u8` values of a byte string. */
  type Bytes = s: seq<nat> | InBase(s, 256)

  /** Every value a pass computes: the largest digit times the multiplier, plus the largest carry. */
  type Acc = x: int | 0 <= x <= 14847

  // ---------------------------------------------------------------------------------------------
  // The alphabet
  // ---------------------------------------------------------------------------------------------

  /** The character of a digit, run by run. */
  function CharOf(d: nat): char
    requires d < 58
  {
    if d < 9 then '1' + d as char
    else if d < 17 then 'A' + (d - 9) as char
    else if d < 22 then 'J' + (d - 17) as char
    else if d < 33 then 'P' + (d - 22) as char
    else if d < 44 then 'a' + (d - 33) as char
    else 'm' + (d - 44) as char
  }

  /** `CharOf` reads off the alphabet. */
  lemma CharOfIsAlphabet(d: nat)
    requires d < 58
    ensures |ALPHABET| == 58 && ALPHABET[d] == CharOf(d)
  {
  }

  lemma CharsAscend(i: nat, j: nat)
    requires i < j < 58
    ensures CharOf(i) < CharOf(j)
  {
  }

  /** The first digit at or after `i` whose character is `c`. */
  function Position(c: char, i: nat): (r: Option<nat>)
    requires i <= 58
    ensures r.Some? ==> i <= r.value < 58 && CharOf(r.value) == c
    ensures r.None? ==> forall j :: i <= j < 58 ==> CharOf(j) != c
    decreases 58 - i
  {
    if i == 58 then None else if CharOf(i) == c then Some(i) else Position(c, i + 1)
  }

  function DigitOf(c: char): Option<nat> { Position(c, 0) }

  lemma DigitOfChar(d: nat)
    requires d < 58
    ensures DigitOf(CharOf(d)) == Some(d)
  {
    var p := DigitOf(CharOf(d));
    assert p.Some?;
    if p.value < d {
      CharsAscend(p.value, d);
    } else if d < p.value {
      CharsAscend(d, p.value);
    }
  }

  predicate InAlphabet(c: char) { exists d :: 0 <= d < 58 && CharOf(d) == c }

  lemma InAlphabetIsMember(c: char)
    ensures InAlphabet(c) <==> c in ALPHABET
  {
    forall d | 0 <= d < 58 ensures |ALPHABET| == 58 && ALPHABET[d] == CharOf(d) {
      CharOfIsAlphabet(d);
    }
    if c in ALPHABET {
      var d :| 0 <= d < |ALPHABET| && ALPHABET[d] == c;
      assert CharOf(d) == c;
    }
  }

  /** The digits a string spells, if all its characters are in the alphabet. */
  function ParseDigits(s: string): (r: Option<seq<nat>>)
    ensures r.Some? ==> |r.value| == |s| && InBase(r.value, 58)
    ensures r.Some? ==> forall i :: 0 <= i < |s| ==> r.value[i] < 58 && CharOf(r.value[i]) == s[i]
  {
    if s == "" then Some([])
    else
      var init := ParseDigits(s[..|s| - 1]);
      var d := DigitOf(s[|s| - 1]);
      if init.None? || d.None? then None else Some(init.value + [d.value])
  }

  function Spell(ds: seq<nat>): (s: string)
    requires InBase(ds, 58)
    ensures |s| == |ds| && forall i :: 0 <= i < |s| ==> ds[i] < 58 && s[i] == CharOf(ds[i])
  {
    seq(|ds|, i requires 0 <= i < |ds| => CharOf(ds[i]))
  }

  lemma {:induction false} ParseSpell(ds: seq<nat>)
    requires InBase(ds, 58)
    ensures ParseDigits(Spell(ds)) == Some(ds)
  {
    if ds != [] {
      var init := ds[..|ds| - 1];
      ParseSpell(init);
      assert Spell(ds)[..|ds| - 1] == Spell(init);
      DigitOfChar(ds[|ds| - 1]);
      assert ds == init + [ds[|ds| - 1]];
    }
  }

  lemma {:induction false} SpellParse(s: string)
    requires ParseDigits(s).Some?
    ensures Spell(ParseDigits(s).value) == s
  {
  }

  predicate AllInAlphabet(s: string) { forall i :: 0 <= i < |s| ==> InAlphabet(s[i]) }

  lemma InAlphabetButLast(s: string)
    requires s != ""
    ensures AllInAlphabet(s) <==> AllInAlphabet(s[..|s| - 1]) && InAlphabet(s[|s| - 1])
  {
    var init := s[..|s| - 1];
    assert forall i :: 0 <= i < |init| ==> init[i] == s[i];
  }

  lemma {:induction false} ParsesExactly(s: string)
    ensures ParseDigits(s).Some? <==> AllInAlphabet(s)
  {
    if s != "" {
      ParsesExactly(s[..|s| - 1]);
      InAlphabetButLast(s);
    }
  }

  lemma {:induction false} PrefixFails(s: string, i: nat)
    requires i <= |s|
    ensures ParseDigits(s[..i]).None? ==> ParseDigits(s).None?
  {
    ParsesExactly(s);
    ParsesExactly(s[..i]);
  }

  // ---------------------------------------------------------------------------------------------
  // Digits to digits
  // ---------------------------------------------------------------------------------------------

  /** The byte vector, little-endian, after the passes for `ds`. */
  function ToBytes(ds: seq<nat>): seq<nat> {
    if ds == [] then [] else Scale(ToBytes(ds[..|ds| - 1]), 58, ds[|ds| - 1], 256)
  }

  /** The base58 digit vector, little-endian, after the passes for `bs`. */
  function ToDigits(bs: seq<nat>): seq<nat> {
    if bs == [] then [0] else Scale(ToDigits(bs[..|bs| - 1]), 256, bs[|bs| - 1], 58)
  }

  lemma OneByte()
    ensures forall k: nat :: k < 58 ==> |CarryDigits(k, 256)| <= 1
  {
    forall k: nat | k < 58 ensures |CarryDigits(k, 256)| <= 1 {
      assert k / 256 == 0;
    }
  }

  lemma TwoDigits()
    ensures forall k: nat :: k < 256 ==> |CarryDigits(k, 58)| <= 2
  {
    forall k: nat | k < 256 ensures |CarryDigits(k, 58)| <= 2 {
      var q := k / 58;
      assert CarryDigits(q, 58) == if q == 0 then [] else [q] + CarryDigits(0, 58);
    }
  }

  /** The passes keep the number, leave no high zero, and add at most one byte per character. */
  lemma {:induction false} ToBytesMeaning(ds: seq<nat>)
    requires InBase(ds, 58)
    ensures InBase(ToBytes(ds), 256) && Normal(ToBytes(ds))
    ensures Value(ToBytes(ds), 256) == Number(ds, 58)
    ensures |ToBytes(ds)| <= |ds|
  {
    if ds != [] {
      var init, d := ds[..|ds| - 1], ds[|ds| - 1];
      ToBytesMeaning(init);
      ScaleValue(ToBytes(init), 58, d, 256);
      ScaleNormal(ToBytes(init), 58, d, 256);
      OneByte();
      ScaleLength(ToBytes(init), 58, d, 256, 1);
    }
  }

  /** The passes keep the number, stay canonical, and add at most two digits per byte. */
  lemma {:induction false} ToDigitsMeaning(bs: Bytes)
    ensures InBase(ToDigits(bs), 58) && Canonical(ToDigits(bs))
    ensures Value(ToDigits(bs), 58) == Number(bs, 256)
    ensures |ToDigits(bs)| <= 1 + 2 * |bs|
  {
    if bs != [] {
      var init, b := bs[..|bs| - 1], bs[|bs| - 1];
      ToDigitsMeaning(init);
      ScaleValue(ToDigits(init), 256, b, 58);
      ScaleNormal(ToDigits(init), 256, b, 58);
      TwoDigits();
      ScaleLength(ToDigits(init), 256, b, 58, 2);
    }
  }

  /** A string of digits with a non-zero lead, reversed, is normal. */
  lemma {:induction false} LeadIsTop(ds: seq<nat>)
    requires ds != [] && ds[0] != 0
    ensures Normal(Reverse(ds))
  {
  }

  lemma {:induction false} CanonicalPositive(ds: seq<nat>, b: Base)
    requires Canonical(ds) && Value(ds, b) > 0
    ensures Normal(ds)
  {
    assert |ds| == 1 ==> ds[1..] == [];
  }

  lemma {:induction false} ReversedNumber(ds: seq<nat>, b: Base)
    ensures Number(Reverse(ds), b) == Value(ds, b)
  {
    NumberIsReversedValue(Reverse(ds), b);
    ReverseTwice(ds);
  }

  /** The byte vector of a number is the only normal one. */
  lemma {:induction false} BytesOfNumber(ds: seq<nat>, bs: Bytes)
    requires InBase(ds, 58) && bs != [] && bs[0] != 0 && Number(ds, 58) == Number(bs, 256)
    ensures ToBytes(ds) == Reverse(bs)
  {
    ToBytesMeaning(ds);
    LeadIsTop(bs);
    NumberIsReversedValue(bs, 256);
    NormalUnique(ToBytes(ds), Reverse(bs), 256);
  }

  /** The digit vector of a positive number is the only normal one. */
  lemma {:induction false} DigitsOfNumber(bs: Bytes, ds: seq<nat>)
    requires InBase(ds, 58) && ds != [] && ds[0] != 0 && Number(bs, 256) == Number(ds, 58)
    ensures ToDigits(bs) == Reverse(ds)
  {
    ToDigitsMeaning(bs);
    LeadIsTop(ds);
    NumberIsReversedValue(ds, 58);
    NormalIsPositive(Reverse(ds), 58);
    CanonicalPositive(ToDigits(bs), 58);
    NormalUnique(ToDigits(bs), Reverse(ds), 58);
  }

  lemma {:induction false} LeadIsPositive(ds: seq<nat>, b: Base)
    requires ds != [] && ds[0] != 0
    ensures Number(ds, b) > 0
  {
    LeadIsTop(ds);
    NumberIsReversedValue(ds, b);
    NormalIsPositive(Reverse(ds), b);
  }

  /** Digits to bytes undoes bytes to digits. */
  lemma {:induction false} ToBytesInvertsToDigits(bs: Bytes)
    requires bs != [] && bs[0] != 0
    ensures InBase(ToDigits(bs), 58) && Normal(ToDigits(bs)) && ToDigits(bs) != []
    ensures ToBytes(Reverse(ToDigits(bs))) == Reverse(bs)
  {
    ToDigitsMeaning(bs);
    LeadIsPositive(bs, 256);
    CanonicalPositive(ToDigits(bs), 58);
    ReversedNumber(ToDigits(bs), 58);
    BytesOfNumber(Reverse(ToDigits(bs)), bs);
  }

  /** Bytes to digits undoes digits to bytes. */
  lemma {:induction false} ToDigitsInvertsToBytes(ds: seq<nat>)
    requires InBase(ds, 58) && ds != [] && ds[0] != 0
    ensures InBase(ToBytes(ds), 256) && Normal(ToBytes(ds)) && ToBytes(ds) != []
    ensures ToDigits(Reverse(ToBytes(ds))) == Reverse(ds)
  {
    ToBytesMeaning(ds);
    LeadIsPositive(ds, 58);
    ReversedNumber(ToBytes(ds), 256);
    DigitsOfNumber(Reverse(ToBytes(ds)), ds);
  }

  // ---------------------------------------------------------------------------------------------
  // Strings
  // ---------------------------------------------------------------------------------------------

  function Decode(s: string): Option<seq<nat>> {
    if s == "" then Some([])
    else if s[0] == '1' then None
    else
      var ds := ParseDigits(s);
      if ds.None? then None else Some(Reverse(ToBytes(ds.value)))
  }

  function LeadingZeros(bs: seq<nat>): (n: nat)
    ensures n <= |bs| && (forall i :: 0 <= i < n ==> bs[i] == 0) && (n < |bs| ==> bs[n] != 0)
  {
    if bs == [] || bs[0] != 0 then 0 else 1 + LeadingZeros(bs[1..])
  }

  function Ones(n: nat): (s: string)
    ensures |s| == n && forall i :: 0 <= i < n ==> s[i] == '1'
  {
    seq(n, i => '1')
  }

  function Encode(bs: Bytes): string {
    ToDigitsMeaning(bs);
    Ones(LeadingZeros(bs)) + Spell(Reverse(ToDigits(bs)))
  }

  /** The alphabet strings `Decode` is defined on. */
  predicate Decodable(s: string) { s == "" || (s[0] != '1' && AllInAlphabet(s)) }

  /** The byte strings that survive a round trip. */
  predicate RoundTrips(bs: Bytes) { bs != [] && bs[0] != 0 }

  /** `Decode` accepts exactly the decodable strings, and gives the bytes of the same number. */
  lemma {:induction false} DecodeMeaning(s: string)
    ensures Decode(s).Some? <==> Decodable(s)
    ensures Decode(s).Some? ==>
              && ParseDigits(s).Some? && InBase(Decode(s).value, 256) && |Decode(s).value| <= |s|
              && Number(Decode(s).value, 256) == Number(ParseDigits(s).value, 58)
              && (s != "" ==> RoundTrips(Decode(s).value))
  {
    ParsesExactly(s);
    if s != "" && s[0] != '1' && ParseDigits(s).Some? {
      LeadDigit(s);
      DecodedBytes(ParseDigits(s).value);
    }
  }

  /** The first digit is zero exactly for the character 1. */
  lemma {:induction false} LeadDigit(s: string)
    requires s != "" && ParseDigits(s).Some?
    ensures ParseDigits(s).value[0] == 0 <==> s[0] == '1'
  {
    var d := ParseDigits(s).value[0];
    assert CharOf(0) == '1';
    if d > 0 {
      CharsAscend(0, d);
    }
  }

  lemma {:induction false} DecodedBytes(ds: seq<nat>)
    requires InBase(ds, 58) && ds != [] && ds[0] != 0
    ensures var bs := Reverse(ToBytes(ds));
            InBase(bs, 256) && |bs| <= |ds| && Number(bs, 256) == Number(ds, 58) && bs != [] && bs[0] != 0
  {
    ToBytesMeaning(ds);
    ToDigitsInvertsToBytes(ds);
    ReversedNumber(ToBytes(ds), 256);
  }

  lemma {:induction false} NoOnes(bs: Bytes)
    requires RoundTrips(bs)
    ensures Normal(ToDigits(bs)) && InBase(ToDigits(bs), 58) && ToDigits(bs) != []
    ensures Encode(bs) == Spell(Reverse(ToDigits(bs))) && Encode(bs) != "" && Encode(bs)[0] != '1'
  {
    ToBytesInvertsToDigits(bs);
    assert CharOf(0) == '1';
    var top := Reverse(ToDigits(bs))[0];
    CharsAscend(0, top);
    assert Ones(0) + Encode(bs) == Encode(bs);
  }

  lemma StartsWithOne(bs: Bytes)
    requires !RoundTrips(bs)
    ensures Encode(bs) != "" && Encode(bs)[0] == '1'
  {
    assert CharOf(0) == '1';
    if bs == [] {
      assert Reverse(ToDigits(bs)) == [0];
    }
  }

  /** Decoding an encoding gives the bytes back exactly for non-empty bytes with a non-zero lead. */
  lemma DecodeEncode(bs: Bytes)
    ensures Decode(Encode(bs)) == Some(bs) <==> RoundTrips(bs)
  {
    if RoundTrips(bs) {
      NoOnes(bs);
      ParseSpell(Reverse(ToDigits(bs)));
      ToBytesInvertsToDigits(bs);
      ReverseTwice(bs);
    } else {
      StartsWithOne(bs);
    }
  }

  /** Encoding a decoding gives the string back, for every non-empty decodable string. */
  lemma EncodeDecode(s: string)
    requires s != "" && Decodable(s)
    ensures Decode(s).Some? && InBase(Decode(s).value, 256) && Encode(Decode(s).value) == s
  {
    DecodeMeaning(s);
    var ds := ParseDigits(s).value;
    LeadDigit(s);
    ToDigitsInvertsToBytes(ds);
    NoOnes(Decode(s).value);
    ReverseTwice(ds);
    SpellParse(s);
  }

  // ---------------------------------------------------------------------------------------------
  // The loops
  // ---------------------------------------------------------------------------------------------

  /** Halfway through a pass: the first `i` digits are done, `carry` is due to digit `i`. */
  ghost predicate MidPass(was: seq<nat>, out: seq<nat>, i: nat, m: nat, digit: nat, carry: nat, b: Base) {
    && i <= |was| == |out|
    && InBase(out, b)
    && out[i..] == was[i..]
    && Scale(was, m, digit, b) == out[..i] + Scale(was[i..], m, carry, b)
  }

  lemma MidPassStep(was: seq<nat>, out: seq<nat>, i: nat, m: nat, digit: nat, carry: nat, b: Base, acc: nat)
    requires MidPass(was, out, i, m, digit, carry, b) && i < |was| && carry < m
    requires acc == out[i] * m + carry
    ensures MidPass(was, out[i := acc % b], i + 1, m, digit, acc / b, b) && acc / b < m
    ensures acc <= b * m - 1
  {
    Quotient(acc, out[i], m, carry, b);
    assert out[i] == out[i..][0] == was[i];
    assert was[i..][1..] == was[i + 1..];
    var next := out[i := acc % b];
    assert next[..i + 1] == out[..i] + [acc % b];
    assert next[i + 1..] == out[i..][1..];
  }

  /** The last loop of a pass: what is left of the carry goes on top. */
  method PushCarry(digits: seq<nat>, last: nat, b: Base) returns (out: seq<nat>)
    requires InBase(digits, b)
    ensures InBase(out, b) && out == digits + CarryDigits(last, b)
  {
    out := digits;
    var carry: nat := last;
    while carry > 0
      invariant InBase(out, b) && digits + CarryDigits(last, b) == out + CarryDigits(carry, b)
    {
      QuotientSmaller(carry, b);
      DivMod(carry, b);
      assert CarryDigits(carry, b) == [carry % b] + CarryDigits(carry / b, b);
      out := out + [carry % b];
      carry := carry / b;
    }
  }

  /** One pass over the bytes: times 58 plus the digit. */
  method DecodePass(bytes: Bytes, digit: nat) returns (out: Bytes)
    requires digit < 58
    ensures out == Scale(bytes, 58, digit, 256)
    ensures |out| <= |bytes| + 1
  {
    out := bytes;
    var carry: nat := digit;
    for i := 0 to |bytes|
      invariant MidPass(bytes, out, i, 58, digit, carry, 256) && carry < 58
    {
      MidPassStep(bytes, out, i, 58, digit, carry, 256, out[i] * 58 + carry);
      var acc: Acc := out[i] * 58 + carry;
      out := out[i := acc % 256];
      carry := acc / 256;
    }
    out := PushCarry(out, carry, 256);
    OneByte();
    ScaleLength(bytes, 58, digit, 256, 1);
  }

  /** One pass over the base58 digits: times 256 plus the byte. */
  method EncodePass(digits: seq<nat>, byte: nat) returns (out: seq<nat>)
    requires InBase(digits, 58) && byte < 256
    ensures InBase(out, 58) && out == Scale(digits, 256, byte, 58)
    ensures |out| <= |digits| + 2
  {
    out := digits;
    var carry: nat := byte;
    for i := 0 to |digits|
      invariant MidPass(digits, out, i, 256, byte, carry, 58) && carry < 256
    {
      MidPassStep(digits, out, i, 256, byte, carry, 58, out[i] * 256 + carry);
      var val: Acc := out[i] * 256 + carry;
      out := out[i := val % 58];
      carry := val / 58;
    }
    out := PushCarry(out, carry, 58);
    TwoDigits();
    ScaleLength(digits, 256, byte, 58, 2);
  }

  /** The loop of `bs58_decode`: one pass per character, up to the first outside the alphabet. */
  method DecodeLoop(input: string) returns (r: Option<Bytes>)
    ensures r.Some? <==> ParseDigits(input).Some?
    ensures r.Some? ==> r.value == ToBytes(ParseDigits(input).value)
  {
    var out: Bytes := [];
    for i := 0 to |input|
      invariant ParseDigits(input[..i]).Some? && out == ToBytes(ParseDigits(input[..i]).value)
    {
      assert input[..i + 1][..i] == input[..i];
      var digit := DigitOf(input[i]);
      if digit.None? {
        PrefixFails(input, i + 1);
        return None;
      }
      out := DecodePass(out, digit.value);
    }
    assert input[..|input|] == input;
    return Some(out);
  }

  /** `bs58_decode`. */
  method Bs58Decode(input: string) returns (r: Option<Bytes>)
    ensures r.Some? <==> Decodable(input)
    ensures r == Decode(input)
    ensures r.Some? ==> |r.value| <= |input|
  {
    DecodeMeaning(input);
    if input == "" {
      return Some([]);
    }
    if input[0] == '1' {
      return None;
    }
    var out := DecodeLoop(input);
    if out.None? {
      return None;
    }
    return Some(Reverse(out.value));
  }

  /** `bs58_encode`. */
  method Bs58Encode(bytes: Bytes) returns (s: string)
    ensures s == Encode(bytes)
  {
    var digits := [0];
    for i := 0 to |bytes|
      invariant InBase(digits, 58) && digits == ToDigits(bytes[..i])
    {
      assert bytes[..i + 1][..i] == bytes[..i];
      digits := EncodePass(digits, bytes[i]);
    }
    assert bytes[..|bytes|] == bytes;
    s := "";
    var zeros := LeadingZeros(bytes);
    for i := 0 to zeros
      invariant s == Ones(i)
    {
      s := s + "1";
    }
    s := SpellBackwards(s, digits);
  }

  /** The last loop of `bs58_encode`: digits out, most significant first. */
  method SpellBackwards(prefix: string, digits: seq<nat>) returns (s: string)
    requires InBase(digits, 58)
    ensures s == prefix + Spell(Reverse(digits))
  {
    s := prefix;
    ghost var spelt := Spell(Reverse(digits));
    var k := |digits|;
    while k > 0
      invariant 0 <= k <= |digits|
      invariant s == prefix + spelt[..|digits| - k]
    {
      k := k - 1;
      s := s + [CharOf(digits[k])];
      assert spelt[..|digits| - k] == spelt[..|digits| - k - 1] + [spelt[|digits| - k - 1]];
    }
  }
}
