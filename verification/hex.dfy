/** Go's `%x` rendering of a byte array: two lower-case hex digits per byte. */
module Hex {
  import opened Wrappers
  import opened Bytes

  type Nibble = n: nat | n < 16

  predicate IsHexDigit(c: char) { '0' <= c <= '9' || 'a' <= c <= 'f' }

  predicate IsLowerHex(s: string) {
    forall i | 0 <= i < |s| :: IsHexDigit(s[i])
  }

  function DigitChar(n: Nibble): (c: char)
    ensures IsHexDigit(c)
  {
    if n < 10 then ('0' as int + n) as char else ('a' as int + n - 10) as char
  }

  function DigitValue(c: char): (n: Nibble)
    requires IsHexDigit(c)
  {
    if c <= '9' then c as int - '0' as int else c as int - 'a' as int + 10
  }

  lemma DigitRoundTrip(n: Nibble)
    ensures DigitValue(DigitChar(n)) == n
  {
  }

  /** `fmt.Sprintf("%x", b)`. */
  function Encode(b: seq<Byte>): (r: string)
    ensures |r| == 2 * |b|
    ensures IsLowerHex(r)
    decreases |b|
  {
    if |b| == 0 then [] else [DigitChar(b[0] / 16), DigitChar(b[0] % 16)] + Encode(b[1..])
  }

  /** The inverse reading of a hex string; fails on an odd length or a non-hex character. */
  function Decode(s: string): (r: Option<seq<Byte>>)
    ensures r.Some? <==> |s| % 2 == 0 && IsLowerHex(s)
    ensures r.Some? ==> 2 * |r.value| == |s|
    decreases |s|
  {
    if |s| == 0 then Some([])
    else if |s| < 2 || !IsHexDigit(s[0]) || !IsHexDigit(s[1]) then None
    else match Decode(s[2..])
      case None => None
      case Some(rest) => Some([DigitValue(s[0]) * 16 + DigitValue(s[1])] + rest)
  }

  /** Every byte string is recovered from its hex rendering. */
  lemma {:induction false} DecodeEncode(b: seq<Byte>)
    ensures Decode(Encode(b)) == Some(b)
    decreases |b|
  {
    if |b| > 0 {
      var s := Encode(b);
      assert s[2..] == Encode(b[1..]);
      DecodeEncode(b[1..]);
      DigitRoundTrip(b[0] / 16);
      DigitRoundTrip(b[0] % 16);
      assert [b[0]] + b[1..] == b;
    }
  }
}
