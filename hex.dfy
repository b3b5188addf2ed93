/** `Buffer.toString("hex")`: bytes as lower-case hexadecimal, two digits per byte,
    high nibble first, with the decoding that inverts it. */
module Hex {
  import opened Js

  newtype byte = b: int | 0 <= b < 256

  const Digits := "0123456789abcdef"

  /** A character `toString("hex")` can produce. */
  predicate IsLowerHexDigit(c: char) {
    ('0' <= c <= '9') || ('a' <= c <= 'f')
  }

  function DigitOf(n: int): (c: char)
    requires 0 <= n < 16
    ensures IsLowerHexDigit(c)
  {
    Digits[n]
  }

  /** The value of a lower-case hexadecimal digit. */
  function ValueOf(c: char): (r: Option<int>)
    ensures r.Some? <==> IsLowerHexDigit(c)
    ensures r.Some? ==> 0 <= r.value < 16
  {
    if '0' <= c <= '9' then Some(c as int - '0' as int)
    else if 'a' <= c <= 'f' then Some(c as int - 'a' as int + 10)
    else None
  }

  lemma ValueOfDigit(n: int)
    requires 0 <= n < 16
    ensures ValueOf(DigitOf(n)) == Some(n)
  {
  }

  function Encode(bs: seq<byte>): (s: string)
    ensures |s| == 2 * |bs|
    ensures forall i :: 0 <= i < |s| ==> IsLowerHexDigit(s[i])
  {
    if bs == [] then []
    else [DigitOf(bs[0] as int / 16), DigitOf(bs[0] as int % 16)] + Encode(bs[1..])
  }

  /** Pairs of lower-case digits back to bytes; `None` on an odd length or another character. */
  function Decode(s: string): Option<seq<byte>> {
    if |s| == 0 then Some([])
    else if |s| == 1 then None
    else match (ValueOf(s[0]), ValueOf(s[1]), Decode(s[2..]))
      case (Some(hi), Some(lo), Some(rest)) => Some([(hi * 16 + lo) as byte] + rest)
      case _ => None
  }

  /** Decoding recovers the bytes, so the encoding loses nothing. */
  lemma {:induction false} DecodeEncode(bs: seq<byte>)
    ensures Decode(Encode(bs)) == Some(bs)
  {
    if bs != [] {
      var b := bs[0] as int;
      var s := Encode(bs);
      ValueOfDigit(b / 16);
      ValueOfDigit(b % 16);
      assert s[2..] == Encode(bs[1..]);
      DecodeEncode(bs[1..]);
      assert bs == [bs[0]] + bs[1..];
    }
  }

  /** Every string that decodes is the encoding of what it decodes to: the encoding
      is exactly the even-length strings of lower-case digits. */
  lemma {:induction false} EncodeDecode(s: string)
    requires Decode(s).Some?
    ensures Encode(Decode(s).value) == s
  {
    if |s| >= 2 {
      var hi, lo := ValueOf(s[0]).value, ValueOf(s[1]).value;
      var bs := Decode(s).value;
      EncodeDecode(s[2..]);
      assert bs[1..] == Decode(s[2..]).value;
      assert (hi * 16 + lo) / 16 == hi && (hi * 16 + lo) % 16 == lo;
      assert s == [s[0], s[1]] + s[2..];
    }
  }

  /** Distinct byte strings give distinct tokens. */
  lemma EncodeInjective(a: seq<byte>, b: seq<byte>)
    requires Encode(a) == Encode(b)
    ensures a == b
  {
    DecodeEncode(a);
    DecodeEncode(b);
  }

  /** `crypto.randomBytes(32).toString("hex")` is 64 lower-case hexadecimal digits. */
  lemma TokenShape(bs: seq<byte>)
    requires |bs| == 32
    ensures |Encode(bs)| == 64
    ensures forall i :: 0 <= i < 64 ==> IsLowerHexDigit(Encode(bs)[i])
  {
  }
}
