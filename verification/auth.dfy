/** `Client.Authenticate`: key negotiation, credential hashing, password encryption and
    the login call, as a pure function from the old client state and the replies of the
    steps it cannot see to the new client state and the returned error. */
module Auth {
  import opened Wrappers
  import opened Bytes
  import opened Session
  import Credential

  /** The device's error code for a rejected login. */
  const LoginRejectedCode: int := -5002

  /** The reply of the session-key fetch: the RSA key that carries the AES key, and
      the device's sequence baseline. */
  datatype SessionKeyReply = SessionKeyReply(key: RsaPublicKey, sequence: Uint)

  /** The decoded login response: its error code and `result.stok`. */
  datatype LoginResponse = LoginResponse(errorCode: int, stok: string)

  /** Everything `Authenticate` learns from outside the model: the freshly generated
      AES key, MD5, the two key fetches, RSA encryption and the encrypted login POST.
      Their failures are messages of code outside the model, which `Authenticate`
      returns as `Fault`s; none of them can produce `AuthenticationFailed`. */
  datatype AuthEnv = AuthEnv(
    freshAes: AesKey,
    md5: string -> Credential.Digest,
    passwordKey: Result<RsaPublicKey, string>,
    sessionKey: Result<SessionKeyReply, string>,
    encryptRsa: (string, RsaPublicKey) -> Result<seq<Byte>, string>,
    login: Envelope -> Result<LoginResponse, string>)

  /** The state after `Authenticate`, the error it returned, and the login envelope it
      sent, if it got that far. */
  datatype AuthRun = AuthRun(client: Client, outcome: Outcome<Error>, sent: Option<Envelope>)

  /** The acceptance rule for a login response. */
  predicate Accepted(r: LoginResponse) {
    r.errorCode != LoginRejectedCode && r.stok != ""
  }

  /** The login envelope: the login path, form "login", the encrypted password, and the
      AES key attached for the device. */
  function LoginEnvelope(session: Client, encryptedPassword: seq<Byte>): (e: Envelope)
    ensures SplitAuthPath(e.path, "/login") == Some("")
    ensures e.embedKey && e.args.form == "login" && e.session == session
    ensures e.body == LoginBody(FromBytes(encryptedPassword))
  {
    LoginPathHasEmptyToken();
    Envelope(LoginPath, EndpointArgs("login"), LoginBody(FromBytes(encryptedPassword)), true, session)
  }

  /** The login reply seen by `Authenticate`, if it got as far as the login call. */
  function LoginReply(run: AuthRun, env: AuthEnv): Option<Result<LoginResponse, string>> {
    if run.sent.Some? then Some(env.login(run.sent.value)) else None
  }

  function Authenticate(c: Client, password: string, env: AuthEnv): (run: AuthRun)
    // the AES key and the hash are replaced before anything can fail
    ensures run.client.aes == Some(env.freshAes)
    ensures run.client.hash == Credential.Hash(env.md5, password)
    // the login call is made exactly when both key fetches and the encryption succeed
    ensures run.sent.Some? <==>
      env.passwordKey.Ok? && env.sessionKey.Ok? && env.encryptRsa(password, env.passwordKey.value).Ok?
    // success exactly when the login POST succeeds and its response is accepted
    ensures run.outcome.Pass? <==>
      LoginReply(run, env).Some? && LoginReply(run, env).value.Ok? && Accepted(LoginReply(run, env).value.value)
    // the token is taken from the accepted response, and left alone otherwise
    ensures run.outcome.Pass? ==> run.client.stok == LoginReply(run, env).value.value.stok
    ensures run.outcome.Fail? ==> run.client.stok == c.stok
    // the login POST is the login envelope for the encrypted password, sent under the
    // negotiated state: new AES key, hash, RSA key and sequence, and the old token
    ensures run.sent.Some? ==>
      run.sent.value == LoginEnvelope(run.client.(stok := c.stok), env.encryptRsa(password, env.passwordKey.value).value)
  {
    var c1 := c.(aes := Some(env.freshAes), hash := Credential.Hash(env.md5, password));
    match env.passwordKey
    case Err(e) => AuthRun(c1, Fail(Fault(e)), None)
    case Ok(passwordKey) =>
      match env.sessionKey
      case Err(e) => AuthRun(c1, Fail(Fault(e)), None)
      case Ok(reply) =>
        var c2 := c1.(rsa := Some(reply.key), sequence := reply.sequence);
        match env.encryptRsa(password, passwordKey)
        case Err(e) => AuthRun(c2, Fail(Fault(e)), None)
        case Ok(encrypted) =>
          var sent := LoginEnvelope(c2, encrypted);
          match env.login(sent)
          case Err(e) => AuthRun(c2, Fail(Fault(e)), Some(sent))
          case Ok(response) =>
            if Accepted(response) then AuthRun(c2.(stok := response.stok), Pass, Some(sent))
            else AuthRun(c2, Fail(AuthenticationFailed), Some(sent))
  }

  /** `rsa` and `sequence` take the session-key reply exactly when both key fetches
      succeed, whatever happens afterwards; otherwise they keep their old values. */
  lemma RsaAndSequenceFollowNegotiation(c: Client, password: string, env: AuthEnv)
    ensures var run := Authenticate(c, password, env);
      if env.passwordKey.Ok? && env.sessionKey.Ok?
      then run.client.rsa == Some(env.sessionKey.value.key) && run.client.sequence == env.sessionKey.value.sequence
      else run.client.rsa == c.rsa && run.client.sequence == c.sequence
  {
  }

  /** The two RSA keys are never conflated: the password travels encrypted under the
      password key, the envelope that carries the AES key reads the session key, and the
      key kept in the client is the session key (or the old one). */
  lemma KeysNotConflated(c: Client, password: string, env: AuthEnv)
    ensures var run := Authenticate(c, password, env);
      run.sent.Some? ==>
        && run.sent.value.body == LoginBody(FromBytes(env.encryptRsa(password, env.passwordKey.value).value))
        && run.sent.value.embedKey
        && run.sent.value.session.rsa == Some(env.sessionKey.value.key)
        && run.sent.value.session.aes == Some(env.freshAes)
    ensures var run := Authenticate(c, password, env);
      run.client.rsa == c.rsa || (env.sessionKey.Ok? && run.client.rsa == Some(env.sessionKey.value.key))
  {
  }

  /** Every failure returns the error of the first step that failed, unchanged. */
  lemma ErrorsPropagate(c: Client, password: string, env: AuthEnv)
    ensures var run := Authenticate(c, password, env);
      && (env.passwordKey.Err? ==> run.outcome == Fail(Fault(env.passwordKey.error)))
      && (env.passwordKey.Ok? && env.sessionKey.Err? ==> run.outcome == Fail(Fault(env.sessionKey.error)))
      && (run.sent.None? && env.passwordKey.Ok? && env.sessionKey.Ok? ==>
            run.outcome == Fail(Fault(env.encryptRsa(password, env.passwordKey.value).error)))
      && (run.sent.Some? && env.login(run.sent.value).Err? ==>
            run.outcome == Fail(Fault(env.login(run.sent.value).error)))
      && (run.sent.Some? && env.login(run.sent.value).Ok? && !Accepted(env.login(run.sent.value).value) ==>
            run.outcome == Fail(AuthenticationFailed))
  {
  }

  /** `AuthenticationFailed` is returned exactly when the login POST succeeded and its
      response was not accepted; every other failure is a `Fault`. */
  lemma AuthenticationFailedOnlyOnRejection(c: Client, password: string, env: AuthEnv)
    ensures var run := Authenticate(c, password, env);
      run.outcome == Fail(AuthenticationFailed) <==>
        run.sent.Some? && env.login(run.sent.value).Ok? && !Accepted(env.login(run.sent.value).value)
    ensures var run := Authenticate(c, password, env);
      run.outcome.Fail? && run.outcome.error != AuthenticationFailed ==> run.outcome.error.Fault?
  {
  }

  /** The hash depends on the password and MD5 alone: not on the prior state, the keys,
      or how far authentication gets. */
  lemma HashIgnoresEverythingElse(c1: Client, c2: Client, password: string, env1: AuthEnv, env2: AuthEnv)
    requires env1.md5 == env2.md5
    ensures Authenticate(c1, password, env1).client.hash == Authenticate(c2, password, env2).client.hash
  {
  }

  /** A failed re-authentication of an authenticated client leaves a mixed session: the
      old token next to the new AES key and hash. */
  lemma FailedReauthKeepsOldToken(c: Client, password: string, env: AuthEnv)
    requires c.stok != ""
    requires Authenticate(c, password, env).outcome.Fail?
    ensures var run := Authenticate(c, password, env);
      run.client.stok == c.stok && run.client.aes == Some(env.freshAes)
  {
  }

  /** A fresh client whose login fails still has no token. */
  lemma FailedLoginLeavesTokenUnset(password: string, env: AuthEnv)
    requires Authenticate(New(), password, env).outcome.Fail?
    ensures Authenticate(New(), password, env).client.stok == ""
  {
  }

  /** Every step up to the login POST succeeds, and the POST answers `response`. */
  ghost predicate RepliesWith(env: AuthEnv, password: string, response: LoginResponse) {
    && env.passwordKey.Ok? && env.sessionKey.Ok?
    && env.encryptRsa(password, env.passwordKey.value).Ok?
    && forall e: Envelope :: env.login(e) == Ok(response)
  }

  /** The acceptance rule over all responses: the login succeeds exactly when the code
      is not -5002 and the token is not empty, and only then is the token stored. */
  lemma AcceptanceRule(c: Client, password: string, env: AuthEnv, response: LoginResponse)
    requires RepliesWith(env, password, response)
    ensures Authenticate(c, password, env).outcome == Pass <==>
      response.errorCode != LoginRejectedCode && response.stok != ""
    ensures Authenticate(c, password, env).client.stok ==
      if response.errorCode != LoginRejectedCode && response.stok != "" then response.stok else c.stok
  {
  }

  /** A response with error code 0 and token "abc123" authenticates with that token. */
  lemma TokenResponseAuthenticates(c: Client, password: string, env: AuthEnv)
    requires RepliesWith(env, password, LoginResponse(0, "abc123"))
    ensures Authenticate(c, password, env).outcome == Pass
    ensures Authenticate(c, password, env).client.stok == "abc123"
  {
  }

  /** A response without a token is rejected and the token is left as it was. */
  lemma MissingTokenRejected(c: Client, password: string, env: AuthEnv)
    requires RepliesWith(env, password, LoginResponse(0, ""))
    ensures Authenticate(c, password, env).outcome == Fail(AuthenticationFailed)
    ensures Authenticate(c, password, env).client.stok == c.stok
  {
  }

  /** The error code -5002 rejects the login even when a token is present. */
  lemma RejectedCodeOverridesToken(c: Client, password: string, env: AuthEnv, token: string)
    requires RepliesWith(env, password, LoginResponse(LoginRejectedCode, token))
    ensures Authenticate(c, password, env).outcome == Fail(AuthenticationFailed)
    ensures Authenticate(c, password, env).client.stok == c.stok
  {
  }
}
