/** The state a `Client` keeps between calls, and the envelopes it hands to the
    encrypted transport. */
module Session {
  import opened Wrappers
  import opened Bytes

  /** Go's `uint` on a 64-bit platform. */
  type Uint = n: nat | n < 0x1_0000_0000_0000_0000

  /** The account every login uses. */
  const UserName: string := "admin"

  /** The symmetric key and IV generated locally for one authentication attempt. */
  datatype AesKey = AesKey(key: seq<Byte>, iv: seq<Byte>)

  /** An RSA public key as parsed from the device's key-exchange reply. */
  datatype RsaPublicKey = RsaPublicKey(modulus: nat, exponent: nat)

  /** The fields of a `Client` that carry session state (the HTTP client is left out).
      `None` stands for a nil pointer. */
  datatype Client = Client(
    aes: Option<AesKey>,
    rsa: Option<RsaPublicKey>,
    hash: string,
    stok: string,
    sequence: Uint)

  /** The state of a client straight after `New`: every field at its zero value. */
  function New(): (c: Client)
    ensures c.stok == "" && c.aes.None? && c.rsa.None?
    ensures c.hash == "" && c.sequence == 0
  {
    Client(None, None, "", "", 0)
  }

  /** The failures the client reports. `Fault` is any error produced by code outside
      this model (key fetch, RSA encryption, the encrypted POST), carried unchanged. */
  datatype Error = Fault(message: string) | AuthenticationFailed

  /** The form selector sent with every envelope. */
  datatype EndpointArgs = EndpointArgs(form: string)

  /** One `{"mac": ...}` element of a reboot request's `mac_list`. */
  datatype MacEntry = MacEntry(mac: string)

  /** The plaintext JSON handed to the encrypted transport. */
  datatype Body =
    | ReadBody                          // `readBody` (defined outside client.go)
    // The keys "operation", "params" and "password" are assumed: they come from the tags of
    // `loginRequest`, `loginParams` and `request`, which are defined outside client.go.
    // Only "device_mac", "mac_list" and "mac" are map keys written in client.go.
    | LoginBody(password: string)       // operation "login", params.password
    | ClientListBody(deviceMac: string) // operation "read", params.device_mac
    | RebootBody(macList: seq<MacEntry>) // operation "reboot", params.mac_list
    | RawBody(bytes: seq<Byte>)          // caller-built body of a custom request

  /** One call of the encrypted POST: where it goes, what it carries, whether the AES key
      is attached under the session RSA key, and the client state the transport reads. */
  datatype Envelope = Envelope(
    path: string,
    args: EndpointArgs,
    body: Body,
    embedKey: bool,
    session: Client)

  /** What a typed call sent, and what it returned. */
  datatype Exchange<R> = Exchange(sent: Envelope, result: Result<R, Error>)

  const StokPrefix: string := ";stok="

  /** The path of an authenticated call: `;stok=<token><suffix>`. */
  function AuthPath(stok: string, suffix: string): (p: string)
    ensures |p| == |StokPrefix| + |stok| + |suffix|
    ensures p[..|StokPrefix|] == StokPrefix
    ensures p[|StokPrefix|..|StokPrefix| + |stok|] == stok
    ensures p[|StokPrefix| + |stok|..] == suffix
  {
    StokPrefix + stok + suffix
  }

  /** Reads the token back out of a path known to end in `suffix`. */
  function SplitAuthPath(p: string, suffix: string): (t: Option<string>)
    ensures t.Some? ==> |p| == |StokPrefix| + |t.value| + |suffix|
  {
    if |p| >= |StokPrefix| + |suffix| && p[..|StokPrefix|] == StokPrefix && p[|p| - |suffix|..] == suffix
    then Some(p[|StokPrefix|..|p| - |suffix|])
    else None
  }

  /** The token and suffix are recovered from the path they build. */
  lemma SplitAuthPathOfAuthPath(stok: string, suffix: string)
    ensures SplitAuthPath(AuthPath(stok, suffix), suffix) == Some(stok)
  {
    var p := AuthPath(stok, suffix);
    assert p[..|StokPrefix|] == StokPrefix;
    assert p[|p| - |suffix|..] == suffix;
    assert p[|StokPrefix|..|p| - |suffix|] == stok;
  }

  /** Conversely, a path that splits is exactly the one built from its parts. */
  lemma AuthPathOfSplitAuthPath(p: string, suffix: string)
    requires SplitAuthPath(p, suffix).Some?
    ensures AuthPath(SplitAuthPath(p, suffix).value, suffix) == p
  {
    var t := SplitAuthPath(p, suffix).value;
    assert p == p[..|StokPrefix|] + p[|StokPrefix|..|p| - |suffix|] + p[|p| - |suffix|..];
  }

  /** Different tokens never produce the same path for one suffix. */
  lemma AuthPathInjective(s1: string, s2: string, suffix: string)
    requires AuthPath(s1, suffix) == AuthPath(s2, suffix)
    ensures s1 == s2
  {
    SplitAuthPathOfAuthPath(s1, suffix);
    SplitAuthPathOfAuthPath(s2, suffix);
  }

  /** The path of the login call. */
  const LoginPath: string := ";stok=/login"

  /** The login path is an authenticated path whose token is empty. */
  lemma LoginPathHasEmptyToken()
    ensures LoginPath == AuthPath("", "/login")
    ensures SplitAuthPath(LoginPath, "/login") == Some("")
  {
    SplitAuthPathOfAuthPath("", "/login");
  }
}
