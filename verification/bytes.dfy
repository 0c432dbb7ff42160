/** Bytes, and Go's byte-for-byte view of a `string`. */
module Bytes {

  /** One octet. */
  type Byte = b: nat | b < 256

  /** A Go `string` is a sequence of bytes; the model writes it as a Dafny string
      whose every character stands for one byte. */
  predicate IsByteString(s: string) {
    forall i | 0 <= i < |s| :: s[i] as int < 256
  }

  /** Go's conversion `string(b)` of a byte slice. */
  function FromBytes(b: seq<Byte>): (s: string)
    ensures |s| == |b|
    ensures forall i | 0 <= i < |b| :: s[i] as int == b[i]
    ensures IsByteString(s)
  {
    seq(|b|, i requires 0 <= i < |b| => b[i] as char)
  }

  /** Go's conversion `[]byte(s)` of a byte string. */
  function ToBytes(s: string): (b: seq<Byte>)
    requires IsByteString(s)
    ensures |b| == |s|
    ensures forall i | 0 <= i < |s| :: b[i] == s[i] as int
  {
    seq(|s|, i requires 0 <= i < |s| => s[i] as int)
  }

  /** The two conversions are inverse to each other. */
  lemma BytesRoundTrip(b: seq<Byte>)
    ensures ToBytes(FromBytes(b)) == b
  {
  }

  lemma StringRoundTrip(s: string)
    requires IsByteString(s)
    ensures FromBytes(ToBytes(s)) == s
  {
  }
}
