/** The machine controller: the reduction of a dashboard message (a list of
    widgets) to the machine, boiler, brewing and water state, the calls it
    makes into the displays and the activity monitor, and the power and steam
    commands. The parsed JSON document is given as a list of widget records. */
module Machine {
  import opened Ints
  import opened Wrappers
  import Strings
  import Client
  import Channel
  import Auth

  /** One widget of the `widgets` array. A field that is `None` is absent (or
      null where the source checks for null). The coffee target is the text the
      firmware formats from `targetTemperature`, "" for a temperature that is
      not positive. For the steam target level, `Some(None)` is a key whose
      value is not a string. Widgets without a code or with another code are
      `OtherWidget`. */
  datatype Widget =
    | MachineStatus(status: Option<string>, brewingStart: Option<i64>)
    | CoffeeBoiler(coffeeStatus: Option<string>, coffeeReady: Option<i64>, targetText: Option<string>)
    | SteamBoiler(steamStatus: Option<string>, steamReady: Option<i64>, targetLevel: Option<Option<string>>)
    | NoWater(alarm: Option<bool>)
    | OtherWidget

  /** A dashboard message: the widgets of a parsed document (none when it has no
      `widgets` key), or a document that failed to parse. */
  datatype Message = Parsed(widgets: seq<Widget>) | ParseError

  /** The local variables of `_websocket_message_handler` after the widget
      loop, with the instance's `_power_state` and `_steam_state`. */
  datatype Summary = Summary(machineStatus: Option<string>, isBrewing: bool, brewingStart: i64,
                             coffeeStatus: Option<string>, coffeeReady: i64, coffeeTarget: string,
                             steamStatus: Option<string>, steamReady: i64, steamLevel: Option<string>,
                             noWater: bool, power: bool, steam: bool)

  /** A call the handler makes into another module. `target` is "" for a null target. */
  datatype Call =
    | MarkMachineActivity
    | WaterAlarm(on: bool)
    | BrewingUpdate(brewing: bool, start: i64)
    | BoilerUpdate(ty: nat, machine: string, status: string, ready: i64, target: string)

  predicate IsOffStatus(s: string) {
    s == "Off" || s == "StandBy"
  }

  /** The variables before the widget loop. */
  function Start(power: bool, steam: bool): Summary {
    Summary(None, false, 0, None, 0, "", None, 0, None, false, power, steam)
  }

  /** One pass of the widget loop. */
  function Step(s: Summary, w: Widget): Summary {
    match w
    case MachineStatus(st, start) =>
      var brewing := st == Some("Brewing");
      s.(machineStatus := st, isBrewing := brewing,
         brewingStart := if !brewing then 0 else if start.Some? then start.value else s.brewingStart,
         power := if st.Some? then st.value == "PoweredOn" else s.power)
    case CoffeeBoiler(st, ready, target) =>
      s.(coffeeStatus := st, coffeeReady := if ready.Some? then ready.value else s.coffeeReady,
         coffeeTarget := if target.Some? then target.value else s.coffeeTarget)
    case SteamBoiler(st, ready, level) =>
      s.(steamStatus := st, steamReady := if ready.Some? then ready.value else s.steamReady,
         steamLevel := if level.Some? then level.value else s.steamLevel,
         steam := if st.Some? then !IsOffStatus(st.value) else s.steam)
    case NoWater(alarm) =>
      s.(noWater := if alarm.Some? then alarm.value else s.noWater)
    case OtherWidget => s
  }

  /** The widget loop, as a left fold. */
  function Reduce(ws: seq<Widget>, s: Summary): Summary {
    if ws == [] then s else Step(Reduce(ws[..|ws| - 1], s), ws[|ws| - 1])
  }

  /** What the loop keeps in step: brewing exactly when the status is
      "Brewing", a start time only while brewing, the power state matching a
      present machine status and the steam state a present steam status. */
  predicate Coherent(s: Summary) {
    (s.isBrewing <==> s.machineStatus == Some("Brewing"))
    && (!s.isBrewing ==> s.brewingStart == 0)
    && (s.machineStatus.Some? ==> (s.power <==> s.machineStatus.value == "PoweredOn"))
    && (s.steamStatus.Some? ==> (s.steam <==> !IsOffStatus(s.steamStatus.value)))
  }

  lemma StartCoherent(power: bool, steam: bool)
    ensures Coherent(Start(power, steam))
  {
  }

  lemma StepCoherent(s: Summary, w: Widget)
    requires Coherent(s)
    ensures Coherent(Step(s, w))
  {
  }

  /** The reduction of any widget list is coherent. */
  lemma {:induction false} ReduceCoherent(ws: seq<Widget>, power: bool, steam: bool)
    ensures Coherent(Reduce(ws, Start(power, steam)))
  {
    if ws == [] {
      StartCoherent(power, steam);
    } else {
      ReduceCoherent(ws[..|ws| - 1], power, steam);
      StepCoherent(Reduce(ws[..|ws| - 1], Start(power, steam)), ws[|ws| - 1]);
    }
  }

  predicate NoMachineWidget(ws: seq<Widget>) {
    forall k :: 0 <= k < |ws| ==> !ws[k].MachineStatus?
  }

  predicate NoSteamWidget(ws: seq<Widget>) {
    forall k :: 0 <= k < |ws| ==> !ws[k].SteamBoiler?
  }

  /** Without a machine-status widget the machine status, the brewing flag and
      the power state are unchanged. */
  lemma {:induction false} ReduceKeepsMachine(ws: seq<Widget>, s: Summary)
    requires NoMachineWidget(ws)
    ensures var r := Reduce(ws, s);
      r.machineStatus == s.machineStatus && r.power == s.power && r.isBrewing == s.isBrewing
  {
    if ws != [] {
      var init := ws[..|ws| - 1];
      assert NoMachineWidget(init) by {
        forall k | 0 <= k < |init| ensures !init[k].MachineStatus? {
          assert init[k] == ws[k];
        }
      }
      ReduceKeepsMachine(init, s);
      StepKeepsMachine(Reduce(init, s), ws[|ws| - 1]);
    }
  }

  lemma StepKeepsMachine(s: Summary, w: Widget)
    requires !w.MachineStatus?
    ensures var r := Step(s, w);
      r.machineStatus == s.machineStatus && r.power == s.power && r.isBrewing == s.isBrewing
  {
  }

  /** Without a steam-boiler widget the steam state is unchanged. */
  lemma {:induction false} ReduceKeepsSteam(ws: seq<Widget>, s: Summary)
    requires NoSteamWidget(ws)
    ensures Reduce(ws, s).steam == s.steam
  {
    if ws != [] {
      var init := ws[..|ws| - 1];
      assert NoSteamWidget(init) by {
        forall k | 0 <= k < |init| ensures !init[k].SteamBoiler? {
          assert init[k] == ws[k];
        }
      }
      ReduceKeepsSteam(init, s);
      assert !ws[|ws| - 1].SteamBoiler?;
    }
  }

  /** The latest widget of a kind decides: after a machine-status widget with
      a status, only a later machine-status widget changes the status. */
  lemma {:induction false} LastMachineStatusWins(ws: seq<Widget>, s: Summary, st: string, start: Option<i64>,
                                                 rest: seq<Widget>)
    requires NoMachineWidget(rest)
    ensures var r := Reduce(ws + [MachineStatus(Some(st), start)] + rest, s);
      r.machineStatus == Some(st) && r.power == (st == "PoweredOn") && (r.isBrewing <==> st == "Brewing")
  {
    var pre := ws + [MachineStatus(Some(st), start)];
    assert Reduce(pre, s) == Step(Reduce(ws, s), MachineStatus(Some(st), start)) by {
      assert pre[..|pre| - 1] == ws;
    }
    ReduceAppend(pre, rest, s);
    ReduceKeepsMachine(rest, Reduce(pre, s));
  }

  /** Folding a concatenation folds the second part from where the first ended. */
  lemma {:induction false} ReduceAppend(a: seq<Widget>, b: seq<Widget>, s: Summary)
    ensures Reduce(a + b, s) == Reduce(b, Reduce(a, s))
  {
    if b == [] {
      assert a + b == a;
    } else {
      ReduceAppend(a, b[..|b| - 1], s);
      assert (a + b)[..|a + b| - 1] == a + b[..|b| - 1];
    }
  }

  /** The steam target label: "Level" and a rest becomes "L" and the rest, any
      other level is copied; both into a 16-byte buffer, so at most 15
      characters. */
  function LevelText(level: string): (r: string)
    ensures |r| <= 15
    ensures |level| >= 5 && level[..5] == "Level" && |level| <= 19 ==> r == "L" + level[5..]
    ensures !(|level| >= 5 && level[..5] == "Level") && |level| <= 15 ==> r == level
    ensures !(|level| >= 5 && level[..5] == "Level") ==> r <= level
    ensures |level| >= 5 && level[..5] == "Level" ==> r <= "L" + level[5..]
    ensures |r| == if |level| >= 5 && level[..5] == "Level"
                   then (if |level| <= 19 then |level| - 4 else 15)
                   else (if |level| <= 15 then |level| else 15)
  {
    if |level| >= 5 && level[..5] == "Level" then Strings.Truncate("L" + level[5..], 15)
    else Strings.Truncate(level, 15)
  }

  /** The water alarm: the `allarm` flag or either boiler reporting "NoWater". */
  function WaterOn(s: Summary): bool {
    s.noWater || s.coffeeStatus == Some("NoWater") || s.steamStatus == Some("NoWater")
  }

  /** The boiler calls: none without a machine status; both boilers, a missing
      status taken as "Off", when the machine is off or in standby; otherwise
      each boiler whose widget gave a status. */
  function BoilerCalls(s: Summary): seq<Call> {
    if s.machineStatus.None? then []
    else
      var ms := s.machineStatus.value;
      var steamText := if s.steamLevel.Some? then LevelText(s.steamLevel.value) else "";
      var coffee := BoilerUpdate(0, ms, s.coffeeStatus.GetOr("Off"), s.coffeeReady, s.coffeeTarget);
      var steam := BoilerUpdate(1, ms, s.steamStatus.GetOr("Off"), s.steamReady, steamText);
      if IsOffStatus(ms) then [coffee, steam]
      else (if s.coffeeStatus.Some? then [coffee] else []) + (if s.steamStatus.Some? then [steam] else [])
  }

  /** The calls after the loop, with `last` the static last brewing state
      (`None` until one is recorded): machine activity when a status arrives
      for the first time or brewing flips, then the water alarm and the brewing
      display always, then the boilers. */
  function Dispatch(s: Summary, last: Option<bool>): (seq<Call>, Option<bool>) {
    var marks := s.machineStatus.Some? && (last.None? || s.isBrewing != last.value);
    ((if marks then [MarkMachineActivity] else [])
       + [WaterAlarm(WaterOn(s)), BrewingUpdate(s.isBrewing, s.brewingStart)] + BoilerCalls(s),
     if marks then Some(s.isBrewing) else last)
  }

  /** The instance state the handler reads and writes: `_power_state`,
      `_steam_state`, the static last brewing state and the calls made so far. */
  datatype Handler = Handler(power: bool, steam: bool, last: Option<bool>, calls: seq<Call>)

  /** `_websocket_message_handler` */
  function Handled(h: Handler, m: Message): Handler {
    match m
    case ParseError => h
    case Parsed(ws) =>
      var s := Reduce(ws, Start(h.power, h.steam));
      var (calls, last) := Dispatch(s, h.last);
      Handler(s.power, s.steam, last, h.calls + calls)
  }

  // Properties of the handler.

  /** A document that fails to parse changes nothing and calls nothing. */
  lemma ParseErrorIgnored(h: Handler)
    ensures Handled(h, ParseError) == h
  {
  }

  /** Every parsed message sets the water alarm and updates the brewing display,
      once each, brewing exactly when the machine status is "Brewing". */
  lemma AlarmAndBrewingEveryMessage(h: Handler, ws: seq<Widget>)
    ensures var s := Reduce(ws, Start(h.power, h.steam));
      var added := Handled(h, Parsed(ws)).calls[|h.calls|..];
      var k := if added[0] == MarkMachineActivity then 1 else 0;
      |added| >= k + 2 && added[k] == WaterAlarm(WaterOn(s)) && added[k + 1] == BrewingUpdate(s.isBrewing, s.brewingStart)
      && (s.isBrewing <==> s.machineStatus == Some("Brewing"))
  {
    ReduceCoherent(ws, h.power, h.steam);
    var s := Reduce(ws, Start(h.power, h.steam));
    var r := Handled(h, Parsed(ws));
    assert r.calls[|h.calls|..] == Dispatch(s, h.last).0;
  }

  /** Machine activity is marked on the first message with a machine status,
      and afterwards exactly when brewing flips. */
  lemma ActivityMarkedOnFlip(h: Handler, ws: seq<Widget>)
    ensures var s := Reduce(ws, Start(h.power, h.steam));
      var r := Handled(h, Parsed(ws));
      var marks := s.machineStatus.Some? && (h.last.None? || h.last.value != s.isBrewing);
      (r.calls[|h.calls|..][0] == MarkMachineActivity <==> marks)
      && r.last == (if marks then Some(s.isBrewing) else h.last)
  {
    var s := Reduce(ws, Start(h.power, h.steam));
    var r := Handled(h, Parsed(ws));
    assert r.calls[|h.calls|..] == Dispatch(s, h.last).0;
  }

  /** No machine status, no boiler update. */
  lemma NoStatusNoBoilers(s: Summary)
    requires s.machineStatus.None?
    ensures BoilerCalls(s) == []
  {
  }

  /** Off or standby: both boilers, a missing status as "Off". */
  lemma OffUpdatesBoth(s: Summary)
    requires s.machineStatus.Some? && IsOffStatus(s.machineStatus.value)
    ensures var c := BoilerCalls(s);
      |c| == 2 && c[0].BoilerUpdate? && c[0].ty == 0 && c[0].status == s.coffeeStatus.GetOr("Off")
      && c[1].BoilerUpdate? && c[1].ty == 1 && c[1].status == s.steamStatus.GetOr("Off")
  {
  }

  /** Otherwise a boiler is updated iff its widget gave a status. */
  lemma OnUpdatesPresent(s: Summary)
    requires s.machineStatus.Some? && !IsOffStatus(s.machineStatus.value)
    ensures var c := BoilerCalls(s);
      (exists k :: 0 <= k < |c| && c[k].BoilerUpdate? && c[k].ty == 0) <==> s.coffeeStatus.Some?
    ensures var c := BoilerCalls(s);
      (exists k :: 0 <= k < |c| && c[k].BoilerUpdate? && c[k].ty == 1) <==> s.steamStatus.Some?
  {
    var c := BoilerCalls(s);
    if s.coffeeStatus.Some? {
      assert c[0].BoilerUpdate? && c[0].ty == 0;
    }
    if s.steamStatus.Some? {
      assert c[|c| - 1].BoilerUpdate? && c[|c| - 1].ty == 1;
    }
  }

  /** Power follows a present machine status and steam a present steam
      status; a message without them keeps the instance's states. */
  lemma StatesFollowStatus(h: Handler, ws: seq<Widget>)
    ensures var s := Reduce(ws, Start(h.power, h.steam)); var r := Handled(h, Parsed(ws));
      (s.machineStatus.Some? ==> (r.power <==> s.machineStatus.value == "PoweredOn"))
      && (s.steamStatus.Some? ==> (r.steam <==> !IsOffStatus(s.steamStatus.value)))
      && (NoMachineWidget(ws) ==> r.power == h.power)
      && (NoSteamWidget(ws) ==> r.steam == h.steam)
  {
    ReduceCoherent(ws, h.power, h.steam);
    if NoMachineWidget(ws) {
      ReduceKeepsMachine(ws, Start(h.power, h.steam));
    }
    if NoSteamWidget(ws) {
      ReduceKeepsSteam(ws, Start(h.power, h.steam));
    }
  }

  /** The reconnect throttle of `loop`: an `unsigned long` distance of 30 s. */
  const RECONNECT_INTERVAL_MS: int := 30000

  predicate ReconnectDue(last: u32, now: u32) {
    U32(now - last) >= RECONNECT_INTERVAL_MS
  }

  /** After an attempt at `last`, the next one is due exactly 30 s later,
      also across the wrap of the uptime counter. */
  lemma ReconnectSpacing(last: u32, d: nat)
    requires d < TWO_32
    ensures ReconnectDue(last, U32(last + d)) <==> d >= RECONNECT_INTERVAL_MS
  {
    var m := U32(last + d);
    assert (last + d - m) % TWO_32 == 0;
    assert (m - last - d) % TWO_32 == 0;
  }

  /** A request body of `api_call`. */
  datatype Body = Mode(mode: string) | SteamEnabled(boilerIndex: nat, enabled: bool)

  datatype Request = Request(path: string, body: Body)

  function PowerRequest(serial: string, enabled: bool): Request {
    Request("/things/" + serial + "/command/CoffeeMachineChangeMode",
            Mode(if enabled then "BrewingMode" else "StandBy"))
  }

  function SteamRequest(serial: string, enabled: bool): Request {
    Request("/things/" + serial + "/command/CoffeeMachineSettingSteamBoilerEnabled", SteamEnabled(1, enabled))
  }

  /** `LaMarzoccoMachine`. `requests` records the commands handed to
      `api_call`; `lastReconnect` is the static of `loop`. */
  class LaMarzoccoMachine {
    const client: Client.LaMarzoccoClient
    const websocket: Channel.WebSocket
    var power: bool
    var steam: bool
    var lastBrewing: Option<bool>
    var calls: seq<Call>
    var requests: seq<Request>
    var lastReconnect: u32

    function View(): Handler
      reads this
    {
      Handler(power, steam, lastBrewing, calls)
    }

    /** The constructor: both states off, and the handler registered as the
        websocket's message callback. */
    constructor (client: Client.LaMarzoccoClient, websocket: Channel.WebSocket)
      modifies websocket`hasCallback
      ensures this.client == client && this.websocket == websocket
      ensures View() == Handler(false, false, None, []) && requests == [] && lastReconnect == 0
      ensures websocket.hasCallback
    {
      this.client := client;
      this.websocket := websocket;
      power, steam := false, false;
      lastBrewing := None;
      calls, requests := [], [];
      lastReconnect := 0;
      new;
      websocket.SetMessageCallback(true);
    }

    /** `get_power_state` */
    function GetPowerState(): bool
      reads this
    {
      power
    }

    /** `_websocket_message_handler` for a message that parsed as `m`. */
    method HandleMessage(m: Message)
      modifies this
      ensures View() == Handled(old(View()), m)
      ensures requests == old(requests) && lastReconnect == old(lastReconnect)
    {
      if m.ParseError? {
        return;
      }
      var s := ReduceWidgets(m.widgets);
      var (more, last) := Dispatch(s, lastBrewing);
      power, steam := s.power, s.steam;
      lastBrewing := last;
      calls := calls + more;
    }

    /** The widget loop of the handler. */
    method ReduceWidgets(ws: seq<Widget>) returns (s: Summary)
      ensures s == Reduce(ws, Start(power, steam))
    {
      s := Start(power, steam);
      for i := 0 to |ws|
        invariant s == Reduce(ws[..i], Start(power, steam))
      {
        assert ws[..i + 1][..i] == ws[..i];
        s := Step(s, ws[i]);
      }
      assert ws[..|ws|] == ws;
    }

    /** `set_power` with the clocks and the server's replies of `api_call`
        as inputs: no call without a serial number; the state changes only on
        success. */
    method SetPower(enabled: bool, now: u32, uptime: u32, refresh: Client.RefreshReply,
                    signIn: Client.SignInReply, code: int) returns (ok: bool)
      modifies this, client
      ensures var serial := old(client.serialNumber);
        (serial == "" ==> !ok && requests == old(requests) && client.token == old(client.token))
        && (serial != "" ==>
              requests == old(requests) + [PowerRequest(serial, enabled)]
              && (ok <==> old(client.initialized)
                          && Client.Renewed(old(client.token), now, uptime, refresh, signIn).0
                          && 200 <= code < 300))
      ensures power == if ok then enabled else old(power)
      ensures steam == old(steam) && lastBrewing == old(lastBrewing) && calls == old(calls)
      ensures client.serialNumber == old(client.serialNumber) && client.initialized == old(client.initialized)
      ensures client.key == old(client.key) && client.username == old(client.username)
        && client.password == old(client.password)
      ensures old(client.serialNumber) != "" && old(client.initialized) ==>
        client.token == Client.Renewed(old(client.token), now, uptime, refresh, signIn).1
      ensures old(client.serialNumber) != "" && !old(client.initialized) ==> client.token == old(client.token)
      ensures lastReconnect == old(lastReconnect)
    {
      var serial := client.serialNumber;
      if |serial| == 0 {
        return false;
      }
      requests := requests + [PowerRequest(serial, enabled)];
      ok := client.ApiCall("POST", now, uptime, refresh, signIn, code);
      if ok {
        power := enabled;
      }
    }

    /** `toggle_power` */
    method TogglePower(now: u32, uptime: u32, refresh: Client.RefreshReply,
                       signIn: Client.SignInReply, code: int) returns (ok: bool)
      modifies this, client
      ensures var serial := old(client.serialNumber);
        (serial == "" ==> !ok && requests == old(requests) && client.token == old(client.token))
        && (serial != "" ==>
              requests == old(requests) + [PowerRequest(serial, !old(power))]
              && (ok <==> old(client.initialized)
                          && Client.Renewed(old(client.token), now, uptime, refresh, signIn).0
                          && 200 <= code < 300))
      ensures power == if ok then !old(power) else old(power)
      ensures steam == old(steam) && lastBrewing == old(lastBrewing) && calls == old(calls)
      ensures client.serialNumber == old(client.serialNumber) && client.initialized == old(client.initialized)
      ensures client.key == old(client.key) && client.username == old(client.username)
        && client.password == old(client.password)
      ensures old(client.serialNumber) != "" && old(client.initialized) ==>
        client.token == Client.Renewed(old(client.token), now, uptime, refresh, signIn).1
      ensures old(client.serialNumber) != "" && !old(client.initialized) ==> client.token == old(client.token)
      ensures lastReconnect == old(lastReconnect)
    {
      ok := SetPower(!power, now, uptime, refresh, signIn, code);
    }

    /** `set_steam`, like `set_power` for the steam boiler (index 1). */
    method SetSteam(enabled: bool, now: u32, uptime: u32, refresh: Client.RefreshReply,
                    signIn: Client.SignInReply, code: int) returns (ok: bool)
      modifies this, client
      ensures var serial := old(client.serialNumber);
        (serial == "" ==> !ok && requests == old(requests) && client.token == old(client.token))
        && (serial != "" ==>
              requests == old(requests) + [SteamRequest(serial, enabled)]
              && (ok <==> old(client.initialized)
                          && Client.Renewed(old(client.token), now, uptime, refresh, signIn).0
                          && 200 <= code < 300))
      ensures steam == if ok then enabled else old(steam)
      ensures power == old(power) && lastBrewing == old(lastBrewing) && calls == old(calls)
      ensures client.serialNumber == old(client.serialNumber) && client.initialized == old(client.initialized)
      ensures client.key == old(client.key) && client.username == old(client.username)
        && client.password == old(client.password)
      ensures old(client.serialNumber) != "" && old(client.initialized) ==>
        client.token == Client.Renewed(old(client.token), now, uptime, refresh, signIn).1
      ensures old(client.serialNumber) != "" && !old(client.initialized) ==> client.token == old(client.token)
      ensures lastReconnect == old(lastReconnect)
    {
      var serial := client.serialNumber;
      if |serial| == 0 {
        return false;
      }
      requests := requests + [SteamRequest(serial, enabled)];
      ok := client.ApiCall("POST", now, uptime, refresh, signIn, code);
      if ok {
        steam := enabled;
      }
    }

    /** `toggle_steam` */
    method ToggleSteam(now: u32, uptime: u32, refresh: Client.RefreshReply,
                       signIn: Client.SignInReply, code: int) returns (ok: bool)
      modifies this, client
      ensures var serial := old(client.serialNumber);
        (serial == "" ==> !ok && requests == old(requests) && client.token == old(client.token))
        && (serial != "" ==>
              requests == old(requests) + [SteamRequest(serial, !old(steam))]
              && (ok <==> old(client.initialized)
                          && Client.Renewed(old(client.token), now, uptime, refresh, signIn).0
                          && 200 <= code < 300))
      ensures steam == if ok then !old(steam) else old(steam)
      ensures power == old(power) && lastBrewing == old(lastBrewing) && calls == old(calls)
      ensures client.serialNumber == old(client.serialNumber) && client.initialized == old(client.initialized)
      ensures client.key == old(client.key) && client.username == old(client.username)
        && client.password == old(client.password)
      ensures old(client.serialNumber) != "" && old(client.initialized) ==>
        client.token == Client.Renewed(old(client.token), now, uptime, refresh, signIn).1
      ensures old(client.serialNumber) != "" && !old(client.initialized) ==> client.token == old(client.token)
      ensures lastReconnect == old(lastReconnect)
    {
      ok := SetSteam(!steam, now, uptime, refresh, signIn, code);
    }

    /** `is_websocket_connected` */
    function IsWebsocketConnected(): (r: bool)
      reads this, websocket
      ensures r <==> websocket.State().connected
    {
      websocket.IsConnected()
    }

    /** `connect_websocket`: true at once when connected, false without a
        serial number, otherwise the websocket's `connect` with the serial. */
    method ConnectWebsocket(now: u32, uptime: u32, refresh: Client.RefreshReply, signIn: Client.SignInReply,
                            random: seq<byte>, millis: u32, sha: seq<byte> -> Auth.Digest, signer: Auth.Signer)
      returns (ok: bool)
      requires |random| == 16
      modifies websocket, websocket.client
      ensures old(websocket.connected) ==> ok && websocket.State() == old(websocket.State())
      ensures websocket.client.initialized == old(websocket.client.initialized)
        && websocket.client.key == old(websocket.client.key)
      ensures !(!old(websocket.connected) && old(client.serialNumber) != "") ==> websocket.client.token == old(websocket.client.token)
      ensures !old(websocket.connected) && old(client.serialNumber) != "" ==>
        websocket.client.token == if old(websocket.client.initialized)
          then Client.Renewed(old(websocket.client.token), now, uptime, refresh, signIn).1
          else old(websocket.client.token)
      ensures !old(websocket.connected) && old(client.serialNumber) == "" ==> !ok && websocket.State() == old(websocket.State())
      ensures !old(websocket.connected) && old(client.serialNumber) != "" ==>
        websocket.serialNumber == old(client.serialNumber)
        && var c := websocket.client;
           var fetched := old(c.initialized) && Client.Renewed(old(c.token), now, uptime, refresh, signIn).0;
           (ok, websocket.State()) == Channel.Connecting(old(websocket.State()), fetched, c.token.accessToken,
                                                         c.GetInstallationKey(), random, millis, sha, signer)
    {
      if websocket.IsConnected() {
        return true;
      }
      var serial := client.serialNumber;
      if |serial| == 0 {
        return false;
      }
      ok := websocket.Connect(serial, now, uptime, refresh, signIn, random, millis, sha, signer);
    }

    /** `disconnect_websocket` */
    method DisconnectWebsocket()
      modifies websocket
      ensures websocket.State() == Channel.AfterDisconnect(old(websocket.State()))
    {
      websocket.Disconnect();
    }

    /** `loop` at uptime `ms`, after the websocket's own loop: while
        disconnected, a reconnect is attempted once the throttle allows, and
        the attempt moves the throttle. */
    method Loop(ms: u32, now: u32, uptime: u32, refresh: Client.RefreshReply, signIn: Client.SignInReply,
                random: seq<byte>, millis: u32, sha: seq<byte> -> Auth.Digest, signer: Auth.Signer)
      returns (attempted: bool)
      requires |random| == 16
      modifies this, websocket, websocket.client
      ensures attempted <==> !old(websocket.connected) && ReconnectDue(old(lastReconnect), ms)
      ensures lastReconnect == if attempted then ms else old(lastReconnect)
      ensures !attempted ==> websocket.State() == old(websocket.State())
      ensures attempted && old(client.serialNumber) == "" ==> websocket.State() == old(websocket.State())
      ensures attempted && old(client.serialNumber) != "" ==>
        websocket.serialNumber == old(client.serialNumber)
        && var c := websocket.client;
           var fetched := old(c.initialized) && Client.Renewed(old(c.token), now, uptime, refresh, signIn).0;
           websocket.State() == Channel.Connecting(old(websocket.State()), fetched, c.token.accessToken,
                                                   c.GetInstallationKey(), random, millis, sha, signer).1
      ensures websocket.client.initialized == old(websocket.client.initialized)
        && websocket.client.key == old(websocket.client.key)
      ensures !(attempted && old(client.serialNumber) != "") ==> websocket.client.token == old(websocket.client.token)
      ensures attempted && old(client.serialNumber) != "" ==>
        websocket.client.token == if old(websocket.client.initialized)
          then Client.Renewed(old(websocket.client.token), now, uptime, refresh, signIn).1
          else old(websocket.client.token)
      ensures View() == old(View()) && requests == old(requests)
    {
      attempted := false;
      if !websocket.IsConnected() {
        if U32(ms - lastReconnect) >= RECONNECT_INTERVAL_MS {
          lastReconnect := ms;
          attempted := true;
          var _ := ConnectWebsocket(now, uptime, refresh, signIn, random, millis, sha, signer);
        }
      }
    }
  }
}
