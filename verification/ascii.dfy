/** Upper-casing of MAC addresses (Go's `strings.ToUpper`, restricted to ASCII). */
module Ascii {

  predicate IsLower(c: char) { 'a' <= c <= 'z' }

  predicate IsUpper(c: char) { 'A' <= c <= 'Z' }

  /** No character of `s` is a lower-case ASCII letter. */
  predicate HasNoLower(s: string) {
    forall i | 0 <= i < |s| :: !IsLower(s[i])
  }

  /** The upper-case form of one character; everything but `a`..`z` is kept. */
  function UpperChar(c: char): (u: char)
    ensures !IsLower(u)
    ensures IsLower(c) ==> IsUpper(u) && u as int + 32 == c as int
    ensures !IsLower(c) ==> u == c
  {
    if IsLower(c) then (c as int - 32) as char else c
  }

  /** `strings.ToUpper` over ASCII: the same characters in the same order, each upper-cased. */
  function ToUpper(s: string): (r: string)
    ensures |r| == |s|
    ensures forall i | 0 <= i < |s| :: r[i] == UpperChar(s[i])
    ensures HasNoLower(r)
  {
    seq(|s|, i requires 0 <= i < |s| => UpperChar(s[i]))
  }

  /** A string without lower-case letters passes through unchanged. */
  lemma ToUpperKeepsUpper(s: string)
    requires HasNoLower(s)
    ensures ToUpper(s) == s
  {
  }

  /** Upper-casing twice is upper-casing once. */
  lemma ToUpperIdempotent(s: string)
    ensures ToUpper(ToUpper(s)) == ToUpper(s)
  {
    ToUpperKeepsUpper(ToUpper(s));
  }
}
