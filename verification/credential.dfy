/** The credential hash: the lower-case hex MD5 digest of the account name followed by
    the password. MD5 itself is a parameter. */
module Credential {
  import opened Wrappers
  import opened Bytes
  import Hex
  import Session

  /** An MD5 sum: sixteen bytes. */
  type Digest = d: seq<Byte> | |d| == 16 witness seq(16, i => 0)

  /** The lower-case hex of the MD5 digest of "admin" followed by the password. */
  function Hash(md5: string -> Digest, password: string): (h: string)
    ensures |h| == 32 && Hex.IsLowerHex(h)
    ensures Hex.Decode(h) == Some(md5(Session.UserName + password))
  {
    Hex.DecodeEncode(md5(Session.UserName + password));
    Hex.Encode(md5(Session.UserName + password))
  }

  /** The hash is a function of "admin" + password alone: two passwords give the same
      hash whenever the digests of the two concatenations agree, and only then. */
  lemma HashDeterminedByDigest(md5: string -> Digest, p1: string, p2: string)
    ensures Hash(md5, p1) == Hash(md5, p2) <==> md5(Session.UserName + p1) == md5(Session.UserName + p2)
  {
  }
}
