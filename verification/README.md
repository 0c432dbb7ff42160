# go-deco client core in Dafny

A model of the session logic of the Go client for TP-Link Deco mesh routers
(`client.go`). A `Client` keeps five pieces of session state:

- an AES key;
- the device's RSA session key;
- the credential hash;
- the session token `stok`;
- a sequence number.

`Authenticate` fills these in. It generates an AES key, hashes the password, fetches two RSA keys from the device (one for the password, one for the session), encrypts the password and logs in. The typed calls (`Performance`, `DeviceList`, `ClientList`, `Reboot`, `Custom`) then send encrypted POSTs to `;stok=<token><suffix>`.

The model is functional:

- **Client state.** `Session.Client` is an immutable datatype.
- **Authenticate.** `Auth.Authenticate` is a pure function from the old state and an `AuthEnv` to the new state. The `AuthEnv` carries everything the code obtains from outside: the fresh AES key, MD5, the two key fetches, RSA encryption and the login POST. The result is the new state, the returned error and the login envelope, if one was sent.
- **Typed calls.** Each call builds an `Envelope` holding the path, form, JSON body, the "attach AES key" flag and the client state the transport reads. It hands the envelope to a `post` oracle. `Performance`, `DeviceList`, `Reboot` and `Custom` return the oracle's result unchanged; `ClientList` returns it after decoding the client names.
- **Credential hash.** The hash is the lower-case hexadecimal MD5 digest of `"admin" + password`. It is modelled down to the hex encoding (`Hex`); MD5 is a parameter.
- **Client names.** Names in the client list go through standard padded base64 (section 4 of RFC 4648). The decoder follows Go's `base64.StdEncoding.DecodeString` (`Base64`): carriage returns and line feeds are skipped, only whole quanta are accepted, `=` may pad only the last quantum, and non-zero unused bits in a padded quantum are tolerated.
- **Strings.** A Go string is a Dafny `string` whose characters stand for bytes (`Bytes`).

Three behaviours of the code are worth stating plainly:

- A failed `Authenticate` leaves a mixed session. The AES key and hash are overwritten first, and the RSA key and sequence are set once both key fetches succeed. The old token is kept on every failure (`Auth.FailedReauthKeepsOldToken`).
- Error code -5002 rejects a login even when a token is present (`Auth.RejectedCodeOverridesToken`).
- The typed calls in `client.go` do not inspect `error_code` themselves. An error from `doEncryptedPost` is passed on unchanged, and so is a result, except that `ClientList` first decodes the client names.

## Model

| member | source | states |
|---|---|---|
| Session.New | client.go:115-124 | a new client has every session field at its zero value: no token, no AES key, no RSA key, an empty hash and sequence 0 |
| Session.AuthPath | client.go:245 | an authenticated path is `;stok=`, then the token, then the suffix, and nothing else |
| Session.SplitAuthPathOfAuthPath | client.go:245 | the token can be read back from `;stok=<token><suffix>` given the suffix |
| Session.AuthPathOfSplitAuthPath | client.go:245 | a path that splits into a token and the suffix is exactly the path built from them |
| Session.AuthPathInjective | client.go:245 | two different tokens never produce the same path for one suffix |
| Session.LoginPathHasEmptyToken | client.go:163 | the login path `;stok=/login` is the authenticated path with an empty token and suffix `/login` |
| Hex.Encode | client.go:129 | `%x` of a byte string is lower-case hex, two digits per byte |
| Hex.DecodeEncode | client.go:129 | reading the hex digits back gives the bytes, so `%x` loses nothing |
| Credential.Hash | client.go:129 | the hash is 32 lower-case hex digits, and they decode to the MD5 digest of `"admin" + password` |
| Credential.HashDeterminedByDigest | client.go:20-20 | two passwords have the same hash if and only if the MD5 digests of `"admin"` followed by each password agree |
| Auth.LoginEnvelope | client.go:148-163 | the login envelope goes to the empty-token login path with form "login", carries the encrypted password (as a byte string) as its login body, has the AES key attached and the caller's session state |
| Auth.Authenticate | client.go:127-172 | AES key and hash are always overwritten; the login POST is made if and only if both key fetches and the password encryption succeed; success if and only if that POST succeeds and its response has an error code other than -5002 and a non-empty token; on success the token is the response's, on failure the old one; the login POST is the login envelope (`;stok=/login`, form "login") for the password encrypted under the password key, sent under the new AES key, hash, session RSA key and sequence with the old token |
| Auth.RsaAndSequenceFollowNegotiation | client.go:136-141 | RSA key and sequence take the session-key reply exactly when both key fetches succeed, whatever follows; otherwise they are unchanged |
| Auth.KeysNotConflated | client.go:131-163 | the password is encrypted under the password key; the login envelope carries the session key and the new AES key; the stored RSA key is the session key or the old one, never the password key |
| Auth.ErrorsPropagate | client.go:131-171 | each failing step's error is returned unchanged, as a fault; a successful login POST with an unaccepted response yields the authentication failure |
| Auth.AuthenticationFailedOnlyOnRejection | client.go:163-171 | the authentication failure is returned if and only if the login POST succeeded and its response was not accepted; every other failure is a fault from a step outside the model |
| Auth.AcceptanceRule | client.go:167-171 | whatever the login response, the login succeeds if and only if its code is not -5002 and its token is not empty, and the stored token is the response's exactly then, the old one otherwise |
| Auth.HashIgnoresEverythingElse | client.go:128-129 | the stored hash depends on the password and MD5 only: not on prior state, key replies or how far authentication gets |
| Auth.FailedReauthKeepsOldToken | client.go:167-171 | a failed re-authentication keeps the old token next to the new AES key |
| Auth.FailedLoginLeavesTokenUnset | client.go:167-171 | a new client whose authentication fails still has an empty token |
| Auth.TokenResponseAuthenticates | client.go:167-169 | a login response with code 0 and token "abc123" authenticates and stores "abc123" |
| Auth.MissingTokenRejected | client.go:167-171 | a login response with an empty token fails with the authentication error and keeps the old token |
| Auth.RejectedCodeOverridesToken | client.go:167-171 | error code -5002 fails the login even when a token is present, and the old token is kept |
| Calls.Request | client.go:245 | an authenticated call's path carries the client's current token before the suffix; no AES key is attached; the client state, form and body are passed through |
| Calls.Performance | client.go:175-182 | form "performance" is read under `/admin/network` with the token and the client's own session state, and the POST's result or error is returned as is |
| Calls.DeviceList | client.go:185-192 | form "device_list" is read under `/admin/device` with the token and the client's own session state, and the POST's result or error is returned as is |
| Calls.Custom | client.go:243-250 | the caller's path, form and body are sent behind the token under the client's own session state, and the POST's result or error is returned as is |
| Calls.MacList | client.go:220-224 | `mac_list` has one entry per argument, in order, each the upper-cased argument |
| Calls.Reboot | client.go:216-240 | form "system" goes to `/admin/device` with the token and the client's own session state; the body's `mac_list` has one upper-cased entry per argument, in order; the POST's result or error is returned as is |
| Calls.MacListKeepsUpperCase | client.go:220-224 | MACs with no lower-case letters are sent exactly as given |
| Calls.MacListIdempotent | client.go:220-224 | building the list again from a built list's MACs changes nothing |
| Calls.RebootExample | client.go:220-224 | rebooting "aa:bb:cc:dd:ee:ff" sends "AA:BB:CC:DD:EE:FF" |
| Ascii.ToUpper | client.go:222 | upper-casing keeps the length, maps each character by position and leaves no lower-case letter |
| Ascii.ToUpperIdempotent | client.go:222 | upper-casing twice is the same as once |
| Ascii.ToUpperKeepsUpper | client.go:222 | a string with no lower-case letter is its own upper-case form |
| Calls.DisplayName | client.go:207-210 | a raw name that does not decode is kept; one that decodes is replaced by a byte string whose bytes are the decoded ones |
| Calls.DisplayNameOfEncoded | client.go:207-209 | a name sent base64-encoded is shown as the original name |
| Calls.DisplayNameOfUndecodable | client.go:207-210 | a raw name that does not decode is shown unchanged |
| Calls.DisplayNameOfForeign | client.go:207-210 | a raw name with a character outside the alphabet, the pad and line breaks is shown unchanged |
| Calls.DisplayNameExample | client.go:207-209 | "VGVzdA==" is shown as "Test" |
| Calls.PlainNameIsDecoded | client.go:207-209 | a plain name that happens to be valid base64 ("Test") is replaced by its decoding, three bytes that are not "Test" |
| Calls.DecodeNames | client.go:206-211 | the result has the list's length, and every entry equals the original with only its name replaced by the decoding, or kept when decoding fails |
| Calls.ClientList | client.go:195-213 | form "client_list" goes to `/admin/client` asking for device "default", under the client's own session state; a POST error is returned as is; otherwise the error code and list length are kept, and each entry changes only in its decoded name |
| Base64.Decode | client.go:207 | whatever decodes has, line breaks aside, the length of the encoding of the decoded bytes and padding in exactly the same places |
| Base64.DecodeEncode | client.go:207 | decoding the standard padded encoding of any byte string gives the bytes back |
| Base64.DecodeExactly | client.go:207 | a string decodes to `b` if and only if its symbols are the encoding of `b` once the unused bits of a padded last quantum are cleared |
| Base64.DecodeIgnoresSlack | client.go:207 | the unused bits of a padded last quantum do not affect the decoded bytes, as Go's non-strict decoder ignores them |
| Base64.DecodeRejectsEarlyPad | client.go:207 | a pad before the last two places is rejected |
| Base64.DecodeRejectsPadBeforeDigit | client.go:207 | a pad in the next-to-last place followed by a last character that is not a pad is rejected (earlier pads are covered by `DecodeRejectsEarlyPad`) |
| Base64.DecodeRejectsPadThenQuantum | client.go:207 | "AB==CDEF", with padding before a further quantum, is rejected |
| Base64.DecodeRejectsLoneDigit | client.go:207 | "A===", a single digit before three pads, is rejected |
| Base64.DecodeRejectsDigitAfterPad | client.go:207 | "AB=C", a pad followed by a digit, is rejected |
| Base64.DecodeRejectsForeign | client.go:207 | a string with a character that is not in the alphabet, not `=` and not a line break is rejected |
| Base64.DecodeRejectsPartialQuantum | client.go:207 | a string whose length without line breaks is not a multiple of four is rejected |
| Base64.DecodeSymbolsWholeQuanta | client.go:207 | only whole four-symbol quanta decode |
| Base64.DecodeExample | client.go:207 | "VGVzdA==" decodes to the bytes of "Test" |
| Base64.DecodePlainWord | client.go:207 | "Test" decodes to the bytes 0x4D 0xEB 0x2D |

## Left out

- HTTP client, cookie jar, 10-second timeout and the process-global `baseURL` (client.go:23-26, 115-124). These are I/O plumbing; `Session.New` keeps only the zero session state.
- MD5, RSA, AES and AES key generation are parameters. `getPasswordKey` and `getSessionKey` appear only as their results.
- `doEncryptedPost` is not part of this model. That includes its handling of `sequence`: the model records the envelope and the client state handed to it, and takes its result from the `post` oracle.
- JSON bodies are modelled by their meaning (`Session.Body`), not their bytes. So the `null` that `json.Marshal` writes for an empty `mac_list` is not distinguished from `[]`.
- The `json.Marshal` error branch at client.go:155-158 is not modelled: marshalling a struct of strings cannot fail.
- The typed shapes of `PerfResp` and `DeviceListResp` (client.go:63-112) are left to the caller: those calls are generic in the result type. `PerfResp` holds float32 values.
- The authentication error at client.go:171 wraps a variable that is always nil at that point. The model returns `AuthenticationFailed` with no cause, and does not model the text Go's formatting would produce.
- Ascii.ToUpper: upper-cases ASCII letters only, because Go's `strings.ToUpper` Unicode case mapping is out of scope; MAC addresses are ASCII.
- `examples/usage.go` is a command-line driver with no logic of its own.
