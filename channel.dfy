/** The websocket channel to the machine's dashboard topic: a STOMP session
    over a websocket transport. The transport is left out; what the channel
    asks of it is recorded as a log of actions, and what it reports comes in
    as events. */
module Channel {
  import opened Ints
  import opened Wrappers
  import Strings
  import Stomp
  import Uuid
  import Auth
  import Client

  /** What the channel asks of the transport or of the registered callback. */
  datatype Action =
    | Send(frame: string)            // `sendTXT`
    | Close                          // `disconnect` of the transport
    | SetHeaders(extra: string)      // `setExtraHeaders` for the upgrade request
    | Open                           // `beginSSL(WS_HOST, 443, "/ws/connect")`
    | ReconnectInterval(ms: nat)     // `setReconnectInterval`
    | Deliver(body: string)          // the message callback

  /** What the transport reports (`WStype_t`); only a text frame carries a payload here. */
  datatype Event = Disconnected | Connected | Text(payload: string) | Error | Pong | Ping | Bin | Other

  /** The fields the channel updates, with the actions taken so far. */
  datatype Session = Session(connected: bool, subscriptionId: string, cachedToken: string, log: seq<Action>)

  const WS_HOST := "lion.lamarzocco.io"

  /** The header lines of the STOMP CONNECT frame. */
  function ConnectLines(token: string): seq<string> {
    ["host:" + WS_HOST, "accept-version:1.2,1.1,1.0", "heart-beat:0,0", "Authorization:Bearer " + token]
  }

  function ConnectFrame(token: string): string {
    Stomp.Encode("CONNECT", Stomp.HeaderBlock(ConnectLines(token)), "")
  }

  /** The header lines of the SUBSCRIBE frame for the machine's dashboard topic. */
  function SubscribeLines(serial: string, id: string): seq<string> {
    ["destination:/ws/sn/" + serial + "/dashboard", "ack:auto", "id:" + id, "content-length:0"]
  }

  function SubscribeFrame(serial: string, id: string): string {
    Stomp.Encode("SUBSCRIBE", Stomp.HeaderBlock(SubscribeLines(serial, id)), "")
  }

  function UnsubscribeFrame(id: string): string {
    Stomp.Encode("UNSUBSCRIBE", Stomp.HeaderBlock(["id:" + id]), "")
  }

  /** The extra headers of the websocket upgrade request, without a final "\r\n". */
  function UpgradeHeaders(h: Auth.Headers): string {
    "X-App-Installation-Id: " + h.installationId + "\r\nX-Timestamp: " + h.timestamp
    + "\r\nX-Nonce: " + h.nonce + "\r\nX-Request-Signature: " + h.signature
  }

  /** A subscription id as `generate_uuid` formats it. */
  predicate IsUuidText(u: string) {
    |u| == 36 && forall j :: 0 <= j < 36 ==> u[j] == '-' || Uuid.IsLowerHex(u[j])
  }

  /** What `_connected` guarantees: the session is subscribed under a UUID. */
  predicate Subscribed(s: Session) {
    s.connected ==> IsUuidText(s.subscriptionId)
  }

  /** Whether a text payload is a STOMP CONNECTED frame. */
  predicate IsConnectedFrame(payload: string) {
    var d := Stomp.Decode(payload);
    d.Some? && d.value.command == "CONNECTED"
  }

  /** `_handle_websocket_event` on an active instance; `id` is the fresh
      subscription id a CONNECTED frame takes and `sendOk` the outcome of
      sending CONNECT. */
  function OnEvent(s: Session, ev: Event, serial: string, hasCallback: bool,
                   id: string, sendOk: bool): (r: Session)
    ensures r.cachedToken == s.cachedToken && s.log <= r.log
  {
    match ev
    case Disconnected => s.(connected := false)
    case Error => s.(connected := false)
    case Connected =>
      if |s.cachedToken| == 0 then s.(log := s.log + [Close])
      else
        var sent := s.log + [Send(ConnectFrame(s.cachedToken))];
        s.(log := if sendOk then sent else sent + [Close])
    case Text(payload) => OnText(s, payload, serial, hasCallback, id)
    case _ => s
  }

  /** A text frame, with `id` the subscription id a CONNECTED frame would take. */
  function OnText(s: Session, payload: string, serial: string, hasCallback: bool, id: string): (r: Session)
    ensures r.cachedToken == s.cachedToken && s.log <= r.log
  {
    OnFrame(s, Stomp.Decode(payload), serial, hasCallback, id)
  }

  /** The same, once the payload is decoded. */
  function OnFrame(s: Session, d: Option<Stomp.Frame>, serial: string, hasCallback: bool, id: string): (r: Session)
    ensures r.cachedToken == s.cachedToken && s.log <= r.log
  {
    match Classify(d)
    case ConnectedFrame => Session(true, id, s.cachedToken, s.log + [Send(SubscribeFrame(serial, id))])
    case MessageFrame(body) => if hasCallback then s.(log := s.log + [Deliver(body)]) else s
    case Ignored => s
  }

  /** A transport disconnect or error clears `_connected` and changes nothing
      else: the id, the cached token and the log stay, so the machine's loop
      sees a disconnected channel and may reconnect. */
  lemma DropsOnLoss(s: Session, ev: Event, serial: string, hasCallback: bool, id: string, sendOk: bool)
    requires ev == Disconnected || ev == Error
    ensures OnEvent(s, ev, serial, hasCallback, id, sendOk) == s.(connected := false)
  {
  }

  /** Events the handler only logs leave the session as it was: pong, ping,
      binary and other transport events, a text that does not decode, and a
      decoded frame that is neither CONNECTED nor MESSAGE (a STOMP ERROR frame
      does not disconnect). */
  lemma IgnoredFrames(s: Session, ev: Event, serial: string, hasCallback: bool, id: string, sendOk: bool)
    requires ev == Pong || ev == Ping || ev == Bin || ev == Other
      || (ev.Text? && (Stomp.Decode(ev.payload).None?
                       || Stomp.Decode(ev.payload).value.command !in {"CONNECTED", "MESSAGE"}))
    ensures OnEvent(s, ev, serial, hasCallback, id, sendOk) == s
  {
  }

  /** The kinds of text frame the handler tells apart. */
  datatype Inbound = ConnectedFrame | MessageFrame(body: string) | Ignored

  /** Which kind of STOMP frame a decoded payload holds. */
  function Classify(d: Option<Stomp.Frame>): Inbound
  {
    if d.None? then Ignored
    else if d.value.command == "CONNECTED" then ConnectedFrame
    else if d.value.command == "MESSAGE" then MessageFrame(d.value.body)
    else Ignored
  }

  /** `disconnect`: UNSUBSCRIBE only from a subscribed session; afterwards no
      connection, no subscription id and no cached token. */
  function AfterDisconnect(s: Session): (r: Session)
    ensures !r.connected && r.subscriptionId == "" && r.cachedToken == ""
  {
    var unsubscribe := if s.connected && |s.subscriptionId| > 0 then [Send(UnsubscribeFrame(s.subscriptionId))] else [];
    Session(false, "", "", s.log + [ReconnectInterval(0)] + unsubscribe + [Close, ReconnectInterval(5000)])
  }

  /** `connect` after the token request: `fetched` is what `get_access_token`
      answered, `token` the access token then held and `key` what
      `get_installation_key` yields. */
  function Connecting(s: Session, fetched: bool, token: string, key: Option<Auth.InstallationKey>,
                      random: seq<byte>, millis: u32, sha: seq<byte> -> Auth.Digest, signer: Auth.Signer): (res: (bool, Session))
    requires |random| == 16
    ensures res.0 <==> fetched && token != "" && key.Some?
                       && Auth.ExtraHeaders(key.value, random, millis, sha, signer).signature != ""
    ensures !fetched ==> res.1 == s
    ensures s.log <= res.1.log
  {
    if !fetched then (false, s)
    else if token == "" then (false, s.(cachedToken := token))
    else OpenWith(Cached(s, token), key, random, millis, sha, signer)
  }

  /** The token is cached, and a connected session is then disconnected. */
  function Cached(s: Session, token: string): (r: Session)
    ensures s.log <= r.log
  {
    var cached := s.(cachedToken := token);
    if s.connected then AfterDisconnect(cached) else cached
  }

  /** The upgrade request is signed with the key and the transport reopened;
      without a key or a signature nothing more happens. */
  function OpenWith(s: Session, key: Option<Auth.InstallationKey>,
                    random: seq<byte>, millis: u32, sha: seq<byte> -> Auth.Digest, signer: Auth.Signer): (res: (bool, Session))
    requires |random| == 16
    ensures res.0 <==> key.Some? && Auth.ExtraHeaders(key.value, random, millis, sha, signer).signature != ""
    ensures s.log <= res.1.log
  {
    if key.None? then (false, s)
    else
      var h := Auth.ExtraHeaders(key.value, random, millis, sha, signer);
      if h.signature == "" then (false, s)
      else (true, s.(log := s.log + [SetHeaders(UpgradeHeaders(h)), Close, Open]))
  }

  // Properties of the session functions.

  lemma UuidIsUuidText(random: seq<byte>)
    requires |random| == 16
    ensures IsUuidText(Uuid.Prefix(Uuid.Stamped(random), 16))
  {
    Uuid.UuidFormat(random);
  }

  /** `_connected` becomes true on a STOMP CONNECTED frame and on nothing else. */
  lemma ConnectsOnlyOnConnectedFrame(s: Session, ev: Event, serial: string, hasCallback: bool,
                                     id: string, sendOk: bool)
    requires !s.connected
    ensures OnEvent(s, ev, serial, hasCallback, id, sendOk).connected
            <==> ev.Text? && IsConnectedFrame(ev.payload)
  {
  }

  /** Every event keeps a connected session subscribed under a UUID. */
  lemma OnEventSubscribed(s: Session, ev: Event, serial: string, hasCallback: bool,
                          id: string, sendOk: bool)
    requires IsUuidText(id) && Subscribed(s)
    ensures Subscribed(OnEvent(s, ev, serial, hasCallback, id, sendOk))
  {
  }

  /** A UUID's text holds neither "\n" nor NUL. */
  lemma UuidTextPlain(u: string)
    requires IsUuidText(u)
    ensures '\n' !in u && '\0' !in u
  {
    forall j | 0 <= j < |u| ensures u[j] != '\n' && u[j] != '\0' {
      assert u[j] == '-' || Uuid.IsLowerHex(u[j]);
    }
  }

  // The commands the channel sends and handles are plain STOMP commands.

  lemma FixedCommands()
    ensures Stomp.IsCommand("CONNECT") && Stomp.IsCommand("SUBSCRIBE")
    ensures Stomp.IsCommand("UNSUBSCRIBE") && Stomp.IsCommand("MESSAGE")
  {
  }

  lemma SubscribeLinesWellFormed(serial: string, id: string)
    requires '\n' !in serial && '\0' !in serial && '\n' !in id && '\0' !in id
    ensures Stomp.HeaderLines(SubscribeLines(serial, id))
  {
    var l := SubscribeLines(serial, id);
    assert l[0] == "destination:/ws/sn/" + serial + "/dashboard" && l[2] == "id:" + id;
  }

  /** The SUBSCRIBE frame decodes to its command and its four header lines. */
  lemma SubscribeFrameDecodes(serial: string, id: string)
    requires '\n' !in serial && '\0' !in serial && '\n' !in id && '\0' !in id
    ensures var h := Stomp.HeaderBlock(SubscribeLines(serial, id));
      Stomp.Decode(SubscribeFrame(serial, id)) == Some(Stomp.Frame("SUBSCRIBE", h[..|h| - 1], ""))
  {
    SubscribeLinesWellFormed(serial, id);
    FixedCommands();
    Stomp.FrameOfLines("SUBSCRIBE", SubscribeLines(serial, id), "");
  }

  /** On a STOMP CONNECTED frame the session subscribes to the machine's
      dashboard under a fresh UUID with a well-formed SUBSCRIBE frame. */
  lemma SubscribesOnConnected(s: Session, payload: string, serial: string, hasCallback: bool,
                              id: string, sendOk: bool)
    requires IsUuidText(id) && IsConnectedFrame(payload)
    requires '\n' !in serial && '\0' !in serial
    ensures var h := Stomp.HeaderBlock(SubscribeLines(serial, id));
      OnEvent(s, Text(payload), serial, hasCallback, id, sendOk)
        == Session(true, id, s.cachedToken, s.log + [Send(SubscribeFrame(serial, id))])
      && Stomp.Decode(SubscribeFrame(serial, id)) == Some(Stomp.Frame("SUBSCRIBE", h[..|h| - 1], ""))
  {
    UuidTextPlain(id);
    SubscribeFrameDecodes(serial, id);
    ConnectedFrameSubscribes(s, payload, serial, hasCallback, id, sendOk);
  }

  lemma ConnectedFrameSubscribes(s: Session, payload: string, serial: string, hasCallback: bool,
                                 id: string, sendOk: bool)
    requires IsConnectedFrame(payload)
    ensures OnEvent(s, Text(payload), serial, hasCallback, id, sendOk)
        == Session(true, id, s.cachedToken, s.log + [Send(SubscribeFrame(serial, id))])
  {
    assert Classify(Stomp.Decode(payload)) == ConnectedFrame;
  }

  lemma ConnectLinesWellFormed(token: string)
    requires '\n' !in token && '\0' !in token
    ensures Stomp.HeaderLines(ConnectLines(token))
  {
    FixedConnectLines();
    var bearer := "Authorization:Bearer ";
    assert '\n' !in bearer && '\0' !in bearer;
    assert ConnectLines(token)[3] == bearer + token;
  }

  /** The three header lines of CONNECT that do not depend on the token. */
  lemma FixedConnectLines()
    ensures Stomp.HeaderLines(ConnectLines("")[..3])
  {
    var host := "host:" + WS_HOST;
    assert '\n' !in host && '\0' !in host;
  }

  /** The CONNECT frame decodes to its command and its four header lines. */
  lemma ConnectFrameDecodes(token: string)
    requires '\n' !in token && '\0' !in token
    ensures var h := Stomp.HeaderBlock(ConnectLines(token));
      Stomp.Decode(ConnectFrame(token)) == Some(Stomp.Frame("CONNECT", h[..|h| - 1], ""))
  {
    ConnectLinesWellFormed(token);
    FixedCommands();
    Stomp.FrameOfLines("CONNECT", ConnectLines(token), "");
  }

  /** When the transport opens, the session sends CONNECT with the cached token
      as bearer, and closes the transport instead when it has no token or the
      send fails; the CONNECT frame is well-formed. */
  lemma ConnectOnTransportOpen(s: Session, serial: string, hasCallback: bool,
                               id: string, sendOk: bool)
    requires '\n' !in s.cachedToken && '\0' !in s.cachedToken
    ensures var r := OnEvent(s, Connected, serial, hasCallback, id, sendOk);
      var h := Stomp.HeaderBlock(ConnectLines(s.cachedToken));
      r.connected == s.connected && r.subscriptionId == s.subscriptionId
      && r.log == s.log + (if s.cachedToken == "" then [Close]
                           else [Send(ConnectFrame(s.cachedToken))] + (if sendOk then [] else [Close]))
      && Stomp.Decode(ConnectFrame(s.cachedToken)) == Some(Stomp.Frame("CONNECT", h[..|h| - 1], ""))
  {
    TransportOpened(s, serial, hasCallback, id, sendOk);
    ConnectFrameDecodes(s.cachedToken);
  }

  lemma TransportOpened(s: Session, serial: string, hasCallback: bool, id: string, sendOk: bool)
    ensures var r := OnEvent(s, Connected, serial, hasCallback, id, sendOk);
      r.connected == s.connected && r.subscriptionId == s.subscriptionId
      && r.log == s.log + (if s.cachedToken == "" then [Close]
                           else [Send(ConnectFrame(s.cachedToken))] + (if sendOk then [] else [Close]))
  {
    if s.cachedToken != "" {
      var m := Send(ConnectFrame(s.cachedToken));
      assert s.log + [m] + [Close] == s.log + ([m] + [Close]);
      assert s.log + [m] == s.log + ([m] + []);
    }
  }

  lemma MessageDecodes(headers: string, body: string)
    requires Stomp.EndsWithNewline(headers) && '\0' !in headers && !Stomp.HasBlankLine("\n" + headers)
    requires '\0' !in body
    ensures Stomp.Decode(Stomp.Encode("MESSAGE", headers, body)) == Some(Stomp.Frame("MESSAGE", headers[..|headers| - 1], body))
  {
    FixedCommands();
    Stomp.DecodeEncode("MESSAGE", headers, body);
  }

  /** A MESSAGE frame's body reaches the callback verbatim, if one is set, and
      nothing else changes. */
  lemma MessageDelivered(s: Session, headers: string, body: string, serial: string, hasCallback: bool,
                         id: string, sendOk: bool)
    requires Stomp.EndsWithNewline(headers) && '\0' !in headers && !Stomp.HasBlankLine("\n" + headers)
    requires '\0' !in body
    ensures OnEvent(s, Text(Stomp.Encode("MESSAGE", headers, body)), serial, hasCallback, id, sendOk)
            == s.(log := s.log + (if hasCallback then [Deliver(body)] else []))
  {
    MessageDecodes(headers, body);
    MessageFrameHandled(s, Stomp.Encode("MESSAGE", headers, body), Stomp.Frame("MESSAGE", headers[..|headers| - 1], body),
                        serial, hasCallback, id);
  }

  lemma MessageFrameHandled(s: Session, payload: string, f: Stomp.Frame, serial: string, hasCallback: bool, id: string)
    requires Stomp.Decode(payload) == Some(f) && f.command == "MESSAGE"
    ensures OnText(s, payload, serial, hasCallback, id) == s.(log := s.log + (if hasCallback then [Deliver(f.body)] else []))
  {
    assert f.command != "CONNECTED" by { assert f.command[0] != "CONNECTED"[0]; }
  }

  /** The UNSUBSCRIBE frame decodes to its command and its one header line. */
  lemma UnsubscribeFrameDecodes(id: string)
    requires '\n' !in id && '\0' !in id
    ensures Stomp.Decode(UnsubscribeFrame(id)) == Some(Stomp.Frame("UNSUBSCRIBE", "id:" + id, ""))
  {
    var lines := ["id:" + id];
    assert Stomp.HeaderLines(lines);
    FixedCommands();
    Stomp.FrameOfLines("UNSUBSCRIBE", lines, "");
    SingleHeaderLine("id:" + id);
  }

  lemma SingleHeaderLine(line: string)
    ensures var h := Stomp.HeaderBlock([line]); h[..|h| - 1] == line
  {
    assert [line][..0] == [];
  }

  /** A subscribed session unsubscribes with a well-formed UNSUBSCRIBE frame. */
  lemma UnsubscribeOnDisconnect(s: Session)
    requires Subscribed(s) && s.connected
    ensures AfterDisconnect(s).log == s.log + [ReconnectInterval(0), Send(UnsubscribeFrame(s.subscriptionId)),
                                          Close, ReconnectInterval(5000)]
    ensures Stomp.Decode(UnsubscribeFrame(s.subscriptionId)) == Some(Stomp.Frame("UNSUBSCRIBE", "id:" + s.subscriptionId, ""))
  {
    UuidTextPlain(s.subscriptionId);
    UnsubscribeFrameDecodes(s.subscriptionId);
    UnsubscribeLogged(s);
  }

  lemma UnsubscribeLogged(s: Session)
    requires s.connected && |s.subscriptionId| > 0
    ensures AfterDisconnect(s).log == s.log + [ReconnectInterval(0), Send(UnsubscribeFrame(s.subscriptionId)),
                                          Close, ReconnectInterval(5000)]
  {
  }

  /** A second `disconnect` sends nothing: it only touches the transport. */
  lemma DisconnectTwice(s: Session)
    ensures AfterDisconnect(AfterDisconnect(s)) == AfterDisconnect(s).(log := AfterDisconnect(s).log + [ReconnectInterval(0), Close, ReconnectInterval(5000)])
  {
  }

  /** Calling `connect` on a connected session disconnects after the token was
      cached, so the cache ends up empty and the next transport open closes
      the transport instead of sending CONNECT. */
  lemma ReconnectDropsToken(s: Session, token: string, key: Option<Auth.InstallationKey>,
                            random: seq<byte>, millis: u32, sha: seq<byte> -> Auth.Digest, signer: Auth.Signer,
                            serial: string, hasCallback: bool, id: string, sendOk: bool)
    requires |random| == 16
    requires s.connected && token != ""
    ensures var r := Connecting(s, true, token, key, random, millis, sha, signer).1;
      r.cachedToken == "" && !r.connected
      && OnEvent(r, Connected, serial, hasCallback, id, sendOk).log == r.log + [Close]
  {
  }

  /** A successful `connect` ends by setting the upgrade headers, closing and
      opening the transport; without a connected session it caches the token. */
  lemma ConnectOpens(s: Session, token: string, key: Auth.InstallationKey,
                     random: seq<byte>, millis: u32, sha: seq<byte> -> Auth.Digest, signer: Auth.Signer)
    requires |random| == 16
    requires Connecting(s, true, token, Some(key), random, millis, sha, signer).0
    ensures var r := Connecting(s, true, token, Some(key), random, millis, sha, signer).1;
      var h := Auth.ExtraHeaders(key, random, millis, sha, signer);
      |r.log| >= 3 && r.log[|r.log| - 3..] == [SetHeaders(UpgradeHeaders(h)), Close, Open]
      && (!s.connected ==> r == s.(cachedToken := token, log := s.log + [SetHeaders(UpgradeHeaders(h)), Close, Open]))
      && (s.connected ==> r.log[..|r.log| - 3] == AfterDisconnect(s).log && r.cachedToken == "")
  {
  }

  /** `LaMarzoccoWebSocket`: the channel of one client. `active` says whether
      this object is the one the transport's callback reaches. */
  class WebSocket {
    const client: Client.LaMarzoccoClient
    var active: bool
    var connected: bool
    var serialNumber: string
    var subscriptionId: string
    var cachedToken: string
    var hasCallback: bool
    var log: seq<Action>

    function State(): Session
      reads this
    {
      Session(connected, subscriptionId, cachedToken, log)
    }

    /** The constructor makes this the active instance and sets a 5 s reconnect interval. */
    constructor (client: Client.LaMarzoccoClient)
      ensures this.client == client && active && !hasCallback && serialNumber == ""
      ensures State() == Session(false, "", "", [ReconnectInterval(5000)])
    {
      this.client := client;
      active := true;
      connected := false;
      serialNumber, subscriptionId, cachedToken := "", "", "";
      hasCallback := false;
      log := [ReconnectInterval(5000)];
    }

    /** `is_connected` */
    function IsConnected(): (r: bool)
      reads this
      ensures r == State().connected
    {
      connected
    }

    /** `set_message_callback`, with whether the callback is non-null. */
    method SetMessageCallback(present: bool)
      modifies this`hasCallback
      ensures hasCallback == present
    {
      hasCallback := present;
    }

    /** `_handle_websocket_event`: nothing happens unless this is the active instance. */
    method HandleEvent(ev: Event, random: seq<byte>, sendOk: bool)
      requires |random| == 16
      modifies this
      ensures !old(active) ==> State() == old(State())
      ensures old(active) ==> State() == OnEvent(old(State()), ev, serialNumber, hasCallback,
                                                  Uuid.Prefix(Uuid.Stamped(random), 16), sendOk)
      ensures active == old(active) && serialNumber == old(serialNumber) && hasCallback == old(hasCallback)
    {
      if !active {
        return;
      }
      match ev {
        case Disconnected =>
          connected := false;
        case Connected =>
          if |cachedToken| == 0 {
            log := log + [Close];
          } else {
            var message := ConnectFrame(cachedToken);
            log := log + [Send(message)];
            if !sendOk {
              log := log + [Close];
            }
          }
        case Text(payload) =>
          var d := Stomp.Decode(payload);
          var id := Uuid.GenerateUuid(random);
          ReceiveFrame(d, id);
        case Error =>
          connected := false;
        case Pong =>
        case Ping =>
        case Bin =>
        case Other =>
      }
    }

    /** The `WStype_TEXT` case: a CONNECTED frame subscribes, a MESSAGE frame is
        handed to the callback, anything else is ignored; `d` is the decoded
        payload and `id` the UUID generated for the subscription. */
    method ReceiveFrame(d: Option<Stomp.Frame>, id: string)
      modifies this
      ensures State() == OnFrame(old(State()), d, serialNumber, hasCallback, id)
      ensures active == old(active) && serialNumber == old(serialNumber) && hasCallback == old(hasCallback)
    {
      match Classify(d) {
        case ConnectedFrame =>
          subscriptionId := id;
          log := log + [Send(SubscribeFrame(serialNumber, subscriptionId))];
          connected := true;
        case MessageFrame(body) =>
          if hasCallback {
            log := log + [Deliver(body)];
          }
        case Ignored =>
      }
    }

    /** `disconnect` */
    method Disconnect()
      modifies this
      ensures State() == AfterDisconnect(old(State()))
      ensures active == old(active) && serialNumber == old(serialNumber) && hasCallback == old(hasCallback)
    {
      var wasConnected := connected;
      connected := false;
      log := log + [ReconnectInterval(0)];
      if wasConnected && |subscriptionId| > 0 {
        var message := UnsubscribeFrame(subscriptionId);
        log := log + [Send(message)];
      }
      log := log + [Close];
      subscriptionId := "";
      cachedToken := "";
      log := log + [ReconnectInterval(5000)];
    }

    /** `connect`: the token is requested from the client (with the clocks and
        the server's replies as inputs) and the upgrade headers are signed with
        the client's installation key. */
    method Connect(serial: string, now: u32, uptime: u32, refresh: Client.RefreshReply, signIn: Client.SignInReply,
                   random: seq<byte>, millis: u32, sha: seq<byte> -> Auth.Digest, signer: Auth.Signer)
      returns (ok: bool)
      requires |random| == 16
      modifies this, client
      ensures serialNumber == serial && active == old(active) && hasCallback == old(hasCallback)
      ensures client.initialized == old(client.initialized) && client.key == old(client.key)
      ensures !old(client.initialized) ==> client.token == old(client.token)
      ensures old(client.initialized) ==>
        client.token == Client.Renewed(old(client.token), now, uptime, refresh, signIn).1
      ensures var fetched := old(client.initialized) && Client.Renewed(old(client.token), now, uptime, refresh, signIn).0;
        (ok, State()) == Connecting(old(State()), fetched, client.token.accessToken, client.GetInstallationKey(),
                                    random, millis, sha, signer)
    {
      serialNumber := serial;
      var fetched := client.GetAccessToken(now, uptime, refresh, signIn);
      ok := ConnectFetched(fetched, random, millis, sha, signer);
    }

    /** `connect` once `get_access_token` has answered `fetched`. */
    method ConnectFetched(fetched: bool, random: seq<byte>, millis: u32, sha: seq<byte> -> Auth.Digest, signer: Auth.Signer)
      returns (ok: bool)
      requires |random| == 16
      modifies this
      ensures serialNumber == old(serialNumber) && active == old(active) && hasCallback == old(hasCallback)
      ensures (ok, State()) == Connecting(old(State()), fetched, client.token.accessToken, client.GetInstallationKey(),
                                          random, millis, sha, signer)
    {
      if !fetched {
        return false;
      }
      var token := client.AccessTokenString();
      if |token| == 0 {
        cachedToken := token;
        return false;
      }
      CacheToken(token);
      var key := client.GetInstallationKey();
      ok := OpenTransport(key, random, millis, sha, signer);
    }

    /** The token is cached and a connected session disconnected. */
    method CacheToken(token: string)
      modifies this
      ensures State() == Cached(old(State()), token)
      ensures active == old(active) && serialNumber == old(serialNumber) && hasCallback == old(hasCallback)
    {
      cachedToken := token;
      if connected {
        Disconnect();
      }
    }

    /** The tail of `connect`: sign the upgrade headers with the key and reopen the transport. */
    method OpenTransport(key: Option<Auth.InstallationKey>, random: seq<byte>, millis: u32,
                         sha: seq<byte> -> Auth.Digest, signer: Auth.Signer) returns (ok: bool)
      requires |random| == 16
      modifies this`log
      ensures (ok, State()) == OpenWith(old(State()), key, random, millis, sha, signer)
    {
      if key.None? {
        return false;
      }
      var h := Auth.ExtraHeaders(key.value, random, millis, sha, signer);
      if |h.signature| == 0 {
        return false;
      }
      log := log + [SetHeaders(UpgradeHeaders(h)), Close, Open];
      ok := true;
    }

    /** The destructor: this stops being the active instance, then disconnects. */
    method Release()
      modifies this
      ensures !active && serialNumber == old(serialNumber) && hasCallback == old(hasCallback)
      ensures State() == AfterDisconnect(old(State()))
    {
      active := false;
      Disconnect();
    }
  }
}
