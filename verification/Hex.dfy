/** Hexadecimal text: lower-case out, either case in. */
module Hex {
  import opened Octets

  function Digit(n: Octet): char {
    if n == 0 then '0' else if n == 1 then '1' else if n == 2 then '2' else if n == 3 then '3' else
    if n == 4 then '4' else if n == 5 then '5' else if n == 6 then '6' else if n == 7 then '7' else
    if n == 8 then '8' else if n == 9 then '9' else if n == 10 then 'a' else if n == 11 then 'b' else
    if n == 12 then 'c' else if n == 13 then 'd' else if n == 14 then 'e' else 'f'
  }

  function Nibble(c: char): Option<Octet> {
    match c
    case '0' => Some(0) case '1' => Some(1) case '2' => Some(2) case '3' => Some(3)
    case '4' => Some(4) case '5' => Some(5) case '6' => Some(6) case '7' => Some(7)
    case '8' => Some(8) case '9' => Some(9)
    case 'a' => Some(10) case 'b' => Some(11) case 'c' => Some(12)
    case 'd' => Some(13) case 'e' => Some(14) case 'f' => Some(15)
    case 'A' => Some(10) case 'B' => Some(11) case 'C' => Some(12)
    case 'D' => Some(13) case 'E' => Some(14) case 'F' => Some(15)
    case _ => None
  }

  function Encode(b: Bytes): (s: string)
    ensures |s| == 2 * |b|
  {
    if b == [] then "" else [Digit(b[0] >> 4), Digit(b[0] & 0xF)] + Encode(b[1..])
  }

  function Decode(s: string): (r: Option<Bytes>)
    ensures r.Some? ==> |s| == 2 * |r.value|
  {
    if s == "" then Some([])
    else if |s| == 1 then None
    else
      match (Nibble(s[0]), Nibble(s[1]), Decode(s[2..]))
      case (Some(hi), Some(lo), Some(rest)) => Some([(hi << 4) | lo] + rest)
      case _ => None
  }

  lemma NibbleDigit(n: Octet)
    requires n < 16
    ensures Nibble(Digit(n)) == Some(n)
  {
  }

  /** Only A to F have a second spelling. */
  predicate LowerCase(s: string) {
    forall i :: 0 <= i < |s| ==> s[i] !in "ABCDEF"
  }

  lemma DigitNibble(c: char)
    requires Nibble(c).Some? && c !in "ABCDEF"
    ensures Nibble(c).value < 16 && Digit(Nibble(c).value) == c
  {
  }

  lemma HalvesJoin(x: Octet)
    ensures x >> 4 < 16 && x & 0xF < 16 && ((x >> 4) << 4) | (x & 0xF) == x
  {
  }

  lemma JoinHalves(hi: Octet, lo: Octet)
    requires hi < 16 && lo < 16
    ensures ((hi << 4) | lo) >> 4 == hi && ((hi << 4) | lo) & 0xF == lo
  {
  }

  /** Decoding undoes encoding. */
  lemma {:induction false} DecodeEncode(b: Bytes)
    ensures Decode(Encode(b)) == Some(b)
  {
    if b != [] {
      HalvesJoin(b[0]);
      NibbleDigit(b[0] >> 4);
      NibbleDigit(b[0] & 0xF);
      assert Encode(b)[2..] == Encode(b[1..]);
      DecodeEncode(b[1..]);
      assert [b[0]] + b[1..] == b;
    }
  }

  lemma EncodeByte(hi: Octet, lo: Octet, rest: Bytes, s: string)
    requires hi < 16 && lo < 16 && |s| >= 2 && s[0] == Digit(hi) && s[1] == Digit(lo) && s[2..] == Encode(rest)
    ensures Encode([(hi << 4) | lo] + rest) == s
  {
    JoinHalves(hi, lo);
    assert ([(hi << 4) | lo] + rest)[1..] == rest;
  }

  /** What a successful decoding starts with. */
  lemma DecodeFirst(s: string) returns (hi: Octet, lo: Octet, rest: Bytes)
    requires s != "" && Decode(s).Some?
    ensures |s| >= 2 && Nibble(s[0]) == Some(hi) && Nibble(s[1]) == Some(lo) && Decode(s[2..]) == Some(rest)
    ensures Decode(s).value == [(hi << 4) | lo] + rest
  {
    hi, lo, rest := Nibble(s[0]).value, Nibble(s[1]).value, Decode(s[2..]).value;
  }

  /** Lower-case text is the encoding of what it decodes to, so two such texts never name one value. */
  lemma {:induction false} EncodeDecode(s: string)
    requires LowerCase(s) && Decode(s).Some?
    ensures Encode(Decode(s).value) == s
  {
    if s != "" {
      var hi, lo, rest := DecodeFirst(s);
      DigitNibble(s[0]);
      DigitNibble(s[1]);
      EncodeDecode(s[2..]);
      EncodeByte(hi, lo, rest, s);
    }
  }

  /** Two lower-case digits an octet, the high four bits first. */
  lemma {:induction false} EncodeAt(b: Bytes, i: nat)
    requires i < |b|
    ensures Encode(b)[2 * i] == "0123456789abcdef"[(b[i] / 16) as int]
    ensures Encode(b)[2 * i + 1] == "0123456789abcdef"[(b[i] % 16) as int]
  {
    if i > 0 {
      EncodeAt(b[1..], i - 1);
    } else {
      DigitIs(b[0] >> 4);
      DigitIs(b[0] & 0xF);
      HalvesAre(b[0]);
    }
  }

  lemma DigitIs(n: Octet)
    requires n < 16
    ensures Digit(n) == "0123456789abcdef"[n as int]
  {
  }

  lemma HalvesAre(x: Octet)
    ensures x >> 4 == x / 16 && x & 0xF == x % 16
  {
  }
}
