/** The calls made once a client is authenticated. Each builds one envelope for the
    encrypted POST, passed in as `post`, and hands back what the POST returned; a POST
    error comes back unchanged and without a result. */
module Calls {
  import opened Wrappers
  import opened Bytes
  import opened Session
  import Ascii
  import Base64

  /** One element of `result.client_list` in the client-list response. */
  datatype ClientEntry = ClientEntry(
    accessHost: string,
    clientMesh: bool,
    clientType: string,
    connectionType: string,
    downSpeed: Uint,
    enablePriority: bool,
    iface: string,
    ip: string,
    mac: string,
    name: string,
    online: bool,
    ownerId: string,
    remainTime: int,
    spaceId: string,
    upSpeed: Uint,
    wireType: string)

  /** The client-list response. */
  datatype ClientListResp = ClientListResp(errorCode: int, clientList: seq<ClientEntry>)

  /** The envelope of an authenticated call: the client's token before `suffix`, no AES
      key attached, and the client's current state for the transport. */
  function Request(c: Client, suffix: string, form: string, body: Body): (e: Envelope)
    ensures SplitAuthPath(e.path, suffix) == Some(c.stok)
    ensures !e.embedKey && e.session == c && e.args == EndpointArgs(form) && e.body == body
  {
    SplitAuthPathOfAuthPath(c.stok, suffix);
    Envelope(AuthPath(c.stok, suffix), EndpointArgs(form), body, false, c)
  }

  /** `Client.Performance`: form "performance" under `/admin/network`. */
  function Performance<R>(c: Client, post: Envelope -> Result<R, Error>): (x: Exchange<R>)
    ensures SplitAuthPath(x.sent.path, "/admin/network") == Some(c.stok)
    ensures x.sent.args.form == "performance" && x.sent.body == ReadBody && !x.sent.embedKey
    ensures x.sent.session == c
    ensures x.result == post(x.sent)
  {
    var e := Request(c, "/admin/network", "performance", ReadBody);
    Exchange(e, post(e))
  }

  /** `Client.DeviceList`: form "device_list" under `/admin/device`. */
  function DeviceList<R>(c: Client, post: Envelope -> Result<R, Error>): (x: Exchange<R>)
    ensures SplitAuthPath(x.sent.path, "/admin/device") == Some(c.stok)
    ensures x.sent.args.form == "device_list" && x.sent.body == ReadBody && !x.sent.embedKey
    ensures x.sent.session == c
    ensures x.result == post(x.sent)
  {
    var e := Request(c, "/admin/device", "device_list", ReadBody);
    Exchange(e, post(e))
  }

  /** `Client.Custom`: the caller's path, form and body, behind the client's token. */
  function Custom<R>(c: Client, path: string, args: EndpointArgs, body: seq<Byte>,
                     post: Envelope -> Result<R, Error>): (x: Exchange<R>)
    ensures SplitAuthPath(x.sent.path, path) == Some(c.stok)
    ensures x.sent.args == args && x.sent.body == RawBody(body) && !x.sent.embedKey
    ensures x.sent.session == c
    ensures x.result == post(x.sent)
  {
    var e := Request(c, path, args.form, RawBody(body));
    Exchange(e, post(e))
  }

  /** The `mac_list` of a reboot request: one entry per argument, in order, each the
      upper-cased argument. */
  function MacList(macs: seq<string>): (r: seq<MacEntry>)
    ensures |r| == |macs|
    ensures forall i | 0 <= i < |macs| :: r[i].mac == Ascii.ToUpper(macs[i])
    decreases |macs|
  {
    if |macs| == 0 then [] else [MacEntry(Ascii.ToUpper(macs[0]))] + MacList(macs[1..])
  }

  /** `Client.Reboot`: form "system" under `/admin/device`, with the built `mac_list`. */
  function Reboot<R>(c: Client, macs: seq<string>, post: Envelope -> Result<R, Error>): (x: Exchange<R>)
    ensures SplitAuthPath(x.sent.path, "/admin/device") == Some(c.stok)
    ensures x.sent.args.form == "system" && !x.sent.embedKey
    ensures x.sent.session == c
    ensures x.sent.body.RebootBody? && |x.sent.body.macList| == |macs|
    ensures forall i | 0 <= i < |macs| :: x.sent.body.macList[i].mac == Ascii.ToUpper(macs[i])
    ensures x.result == post(x.sent)
  {
    var e := Request(c, "/admin/device", "system", RebootBody(MacList(macs)));
    Exchange(e, post(e))
  }

  /** MAC addresses already in upper case are sent exactly as given. */
  lemma MacListKeepsUpperCase(macs: seq<string>)
    requires forall i | 0 <= i < |macs| :: Ascii.HasNoLower(macs[i])
    ensures forall i | 0 <= i < |macs| :: MacList(macs)[i].mac == macs[i]
  {
    forall i | 0 <= i < |macs|
      ensures MacList(macs)[i].mac == macs[i]
    {
      Ascii.ToUpperKeepsUpper(macs[i]);
    }
  }

  /** Building the list from an already built list's MACs gives the same list. */
  lemma MacListIdempotent(macs: seq<string>)
    ensures var once := MacList(macs);
      MacList(seq(|once|, i requires 0 <= i < |once| => once[i].mac)) == once
  {
    var once := MacList(macs);
    var again := MacList(seq(|once|, i requires 0 <= i < |once| => once[i].mac));
    forall i | 0 <= i < |once|
      ensures again[i] == once[i]
    {
      Ascii.ToUpperIdempotent(macs[i]);
    }
  }

  /** "aa:bb:cc:dd:ee:ff" upper-cases to "AA:BB:CC:DD:EE:FF". */
  lemma UpperExample()
    ensures Ascii.ToUpper("aa:bb:cc:dd:ee:ff") == "AA:BB:CC:DD:EE:FF"
  {
  }

  /** Rebooting "aa:bb:cc:dd:ee:ff" sends "AA:BB:CC:DD:EE:FF". */
  lemma RebootExample<R>(c: Client, post: Envelope -> Result<R, Error>)
    ensures Reboot(c, ["aa:bb:cc:dd:ee:ff"], post).sent.body.macList == [MacEntry("AA:BB:CC:DD:EE:FF")]
  {
    UpperExample();
  }

  /** A client name as shown to callers: the base64 decoding of the raw name when that
      decodes, the raw name otherwise. */
  function DisplayName(raw: string): (name: string)
    ensures Base64.Decode(raw).None? ==> name == raw
    ensures Base64.Decode(raw).Some? ==> IsByteString(name) && ToBytes(name) == Base64.Decode(raw).value
  {
    match Base64.Decode(raw)
    case Some(bytes) => BytesRoundTrip(bytes); FromBytes(bytes)
    case None => raw
  }

  /** A name the device base64-encoded comes back as the original bytes. */
  lemma DisplayNameOfEncoded(name: string)
    requires IsByteString(name)
    ensures DisplayName(Base64.Encode(ToBytes(name))) == name
  {
    Base64.DecodeEncode(ToBytes(name));
    StringRoundTrip(name);
  }

  /** A raw name that does not decode is shown unchanged. */
  lemma DisplayNameOfUndecodable(raw: string)
    requires Base64.Decode(raw).None?
    ensures DisplayName(raw) == raw
  {
  }

  /** A raw name with a character outside the base64 alphabet is shown unchanged. */
  lemma DisplayNameOfForeign(raw: string, i: nat)
    requires i < |raw|
    requires !Base64.IsAlphabetChar(raw[i]) && raw[i] != Base64.PadChar && !Base64.IsLineBreak(raw[i])
    ensures DisplayName(raw) == raw
  {
    Base64.DecodeRejectsForeign(raw, i);
  }

  /** "VGVzdA==" is shown as "Test". */
  lemma DisplayNameExample()
    ensures DisplayName("VGVzdA==") == "Test"
  {
    Base64.DecodeExample();
    BytesOfTest();
  }

  /** The bytes 84 101 115 116 spell "Test". */
  lemma BytesOfTest()
    ensures FromBytes([84, 101, 115, 116]) == "Test"
  {
    var name := FromBytes([84, 101, 115, 116]);
    assert name[0] == 'T' && name[1] == 'e' && name[2] == 's' && name[3] == 't';
  }

  /** A plain name that happens to be valid base64 is decoded all the same:
      "Test" is shown as the three bytes 0x4D 0xEB 0x2D. */
  lemma PlainNameIsDecoded()
    ensures DisplayName("Test") == FromBytes([0x4D, 0xEB, 0x2D])
    ensures DisplayName("Test") != "Test"
  {
    Base64.DecodePlainWord();
    assert |FromBytes([0x4D, 0xEB, 0x2D])| == 3;
  }

  /** The name pass of `Client.ClientList`: every entry keeps all its fields but `name`,
      whose value is replaced by its decoding when that succeeds. */
  method DecodeNames(list: seq<ClientEntry>) returns (r: seq<ClientEntry>)
    ensures |r| == |list|
    ensures forall i | 0 <= i < |list| :: r[i] == list[i].(name := DisplayName(list[i].name))
  {
    r := list;
    for index := 0 to |r|
      invariant |r| == |list|
      invariant forall i | 0 <= i < index :: r[i] == list[i].(name := DisplayName(list[i].name))
      invariant forall i | index <= i < |r| :: r[i] == list[i]
    {
      var decoded := Base64.Decode(r[index].name);
      if decoded.Some? {
        r := r[index := r[index].(name := FromBytes(decoded.value))];
      }
    }
  }

  /** `Client.ClientList`: form "client_list" under `/admin/client`, asking for
      `device_mac` "default"; on success every name goes through `DisplayName`. */
  method ClientList(c: Client, post: Envelope -> Result<ClientListResp, Error>)
    returns (sent: Envelope, r: Result<ClientListResp, Error>)
    ensures SplitAuthPath(sent.path, "/admin/client") == Some(c.stok)
    ensures sent.args.form == "client_list" && sent.body == ClientListBody("default") && !sent.embedKey
    ensures sent.session == c
    ensures post(sent).Err? ==> r == post(sent)
    ensures post(sent).Ok? ==> r.Ok? && r.value.errorCode == post(sent).value.errorCode
    ensures post(sent).Ok? ==> |r.value.clientList| == |post(sent).value.clientList|
    ensures post(sent).Ok? ==> forall i | 0 <= i < |r.value.clientList| ::
      var raw := post(sent).value.clientList[i];
      r.value.clientList[i] == raw.(name := DisplayName(raw.name))
  {
    sent := Request(c, "/admin/client", "client_list", ClientListBody("default"));
    match post(sent)
    case Err(e) =>
      r := Err(e);
    case Ok(resp) =>
      var named := DecodeNames(resp.clientList);
      r := Ok(resp.(clientList := named));
  }
}
