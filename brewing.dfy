/** The brewing timer display: idle, counting up while a shot is pulled, then
    flashing the final seconds for three seconds; and the test mode in which a
    grounded GPIO pin simulates brewing. The wall clock (`now`, milliseconds),
    the uptime counter (`ms`, `millis()`) and the pin level are parameters. */
module Brewing {
  import opened Ints
  import Strings

  /** `FLASH_DURATION_MS` */
  const FLASH_DURATION_MS: int := 3000
  /** `FLASH_TOGGLE_MS` */
  const FLASH_TOGGLE_MS: int := 200
  /** The refresh period the timer is created and restarted with. */
  const UPDATE_PERIOD_MS: nat := 50

  /** `BrewingState` */
  datatype Phase = Idle | Active | Flashing

  /** The module's globals. `shown` is whether the seconds panel is visible,
      `text` the text of the seconds label, `lastText` the static copy that
      `update_elapsed_time_display` compares against; `lastPin` is true for a
      HIGH pin. */
  datatype Brew = Brew(initialized: bool, phase: Phase, start: i64, final: i32, flashStart: u32,
                       paused: bool, period: nat, simActive: bool, lastPin: bool, allow: bool,
                       shown: bool, text: string, lastText: string)

  /** The static initialisers. */
  function Boot(): Brew {
    Brew(false, Idle, 0, 0, 0, true, 0, false, true, false, false, "", "")
  }

  /** `brewing_display_init` with the pin read as `pin`. */
  function Initialized(b: Brew, pin: bool): Brew {
    if b.initialized then b
    else b.(initialized := true, lastPin := pin, shown := false, period := UPDATE_PERIOD_MS,
            paused := true, phase := Idle, start := 0, final := 0)
  }

  /** `start_brewing`: already brewing, only the start time moves. */
  function Started(b: Brew, start: i64): Brew {
    if b.phase == Active then b.(start := start)
    else b.(phase := Active, start := start, final := 0, shown := true, text := "0.0",
            period := UPDATE_PERIOD_MS, paused := false)
  }

  /** The seconds `stop_brewing` keeps, as `(int)(elapsed_ms / 1000)`. */
  function FinalSeconds(start: i64, now: i64): i32 {
    if start > 0 then
      var elapsed := I64(now - start);
      if elapsed > 0 then I32(elapsed / 1000) else 0
    else 0
  }

  /** The final seconds are 0 without a start time, and otherwise the whole
      seconds elapsed since it (0 if the clock is not past it), as long as the
      64-bit difference does not wrap and the seconds fit an `int`. */
  lemma FinalSecondsValue(start: i64, now: i64)
    ensures start <= 0 ==> FinalSeconds(start, now) == 0
    ensures start > 0 && -TWO_63 <= now - start < TWO_31 * 1000 ==>
      FinalSeconds(start, now) == if now > start then (now - start) / 1000 else 0
  {
  }

  /** `stop_brewing` at wall time `now` and uptime `ms`: nothing when idle,
      otherwise the final seconds are captured and the flash begins. */
  function Stopped(b: Brew, now: i64, ms: u32): Brew {
    if b.phase == Idle then b
    else
      var f := FinalSeconds(b.start, now);
      b.(final := f, phase := Flashing, flashStart := ms, start := 0,
         text := Strings.IntToString(f), shown := true, paused := false, period := UPDATE_PERIOD_MS)
  }

  /** `brewing_display_update(is_brewing, brewing_start_time)`: ignored before
      initialisation, and while the simulation runs unless the call comes from
      it; an accepted call clears that permission. */
  function Updated(b: Brew, isBrewing: bool, start: i64, now: i64, ms: u32): Brew {
    if !b.initialized then b
    else if b.simActive && !b.allow then b
    else
      var c := b.(allow := false);
      if isBrewing then Started(c, if start <= 0 then now else start)
      else Stopped(c, now, ms)
  }

  /** The `"%d.%d"` text of `update_elapsed_time_display` for a clamped
      elapsed time: seconds and tenths. */
  function ElapsedText(e: int): string
    requires e >= 0
  {
    Strings.IntToString(I32(e / 1000)) + "." + Strings.IntToString((e % 1000) / 100)
  }

  /** `update_elapsed_time_display` at wall time `now`: nothing without a start
      time; the label changes only when the text differs from the last one. */
  function Elapsed(b: Brew, now: i64): Brew {
    if b.start <= 0 then b
    else
      var e := I64(now - b.start);
      var t := ElapsedText(if e < 0 then 0 else e);
      if t != b.lastText then b.(lastText := t, text := t) else b
  }

  /** The flash phase: visible during even 200 ms slots. */
  function FlashVisible(elapsed: u32): bool {
    (elapsed / FLASH_TOGGLE_MS) % 2 == 0
  }

  /** `brewing_display_timer_callback` at wall time `now` and uptime `ms`;
      the flash time is an `unsigned long` difference. */
  function Ticked(b: Brew, now: i64, ms: u32): Brew {
    if !b.initialized then b
    else
      match b.phase
      case Active => Elapsed(b, now)
      case Flashing =>
        var elapsed := U32(ms - b.flashStart);
        if elapsed >= FLASH_DURATION_MS then b.(phase := Idle, final := 0, shown := false, paused := true)
        else b.(shown := FlashVisible(elapsed))
      case Idle => b
  }

  /** `brewing_display_is_active` */
  function IsActive(b: Brew): (r: bool)
    ensures r <==> b.initialized && b.phase == Active
    ensures r ==> b.phase != Flashing
  {
    b.initialized && b.phase == Active
  }

  /** The edge handling of `brewing_display_check_gpio_simulation`: a falling
      edge starts the simulation and brewing, a rising edge ends it. */
  function Edge(b: Brew, pin: bool, now: i64, ms: u32): Brew {
    if pin == b.lastPin then b
    else
      var c := b.(lastPin := pin);
      if !pin then
        if !c.simActive then Updated(c.(simActive := true, allow := true), true, now, now, ms) else c
      else if !c.simActive then c
      else
        var d := c.(simActive := false);
        if d.phase == Flashing then d.(phase := Idle, final := 0, paused := true, shown := false)
        else if d.phase == Active then Updated(d.(allow := true), false, 0, now, ms)
        else d
  }

  /** The tail of `brewing_display_check_gpio_simulation`: while the
      simulation runs, an idle display is sent back into brewing. */
  function Reentered(b: Brew, now: i64, ms: u32): Brew {
    if b.simActive && b.phase != Active && b.phase != Flashing then
      Updated(b.(allow := true), true, now, now, ms)
    else b
  }

  /** `brewing_display_check_gpio_simulation` with the pin read as `pin`. */
  function GpioChecked(b: Brew, pin: bool, now: i64, ms: u32): Brew {
    if !b.initialized then b else Reentered(Edge(b, pin, now, ms), now, ms)
  }

  // The invariant.

  /** Once initialised, the timer runs exactly when the display is not idle;
      only a brew in progress has a start time; only a flashing display has
      final seconds. */
  predicate Valid(b: Brew) {
    b.initialized ==>
      (b.paused <==> b.phase == Idle)
      && (b.phase != Active ==> b.start == 0)
      && (b.phase != Flashing ==> b.final == 0)
      && (b.phase != Idle ==> b.period == UPDATE_PERIOD_MS)
  }

  lemma BootValid()
    ensures Valid(Boot()) && !Boot().initialized
  {
  }

  lemma InitializedValid(b: Brew, pin: bool)
    requires Valid(b)
    ensures Valid(Initialized(b, pin)) && Initialized(b, pin).initialized
  {
  }

  lemma UpdatedValid(b: Brew, isBrewing: bool, start: i64, now: i64, ms: u32)
    requires Valid(b)
    ensures Valid(Updated(b, isBrewing, start, now, ms))
  {
  }

  lemma TickedValid(b: Brew, now: i64, ms: u32)
    requires Valid(b)
    ensures Valid(Ticked(b, now, ms))
  {
  }

  lemma GpioCheckedValid(b: Brew, pin: bool, now: i64, ms: u32)
    requires Valid(b)
    ensures Valid(GpioChecked(b, pin, now, ms))
  {
    if b.initialized {
      var c := Edge(b, pin, now, ms);
      assert Valid(c) by {
        if pin != b.lastPin {
          var c0 := b.(lastPin := pin);
          if !pin && !c0.simActive {
            UpdatedValid(c0.(simActive := true, allow := true), true, now, now, ms);
          } else if pin && c0.simActive && c0.phase == Active {
            UpdatedValid(c0.(simActive := false, allow := true), false, 0, now, ms);
          }
        }
      }
      if c.simActive && c.phase == Idle {
        UpdatedValid(c.(allow := true), true, now, now, ms);
      }
    }
  }

  // Properties of the transitions.

  /** While the simulation runs, an update that does not come from it changes
      nothing; every accepted update clears the permission. */
  lemma UpdateGating(b: Brew, isBrewing: bool, start: i64, now: i64, ms: u32)
    ensures b.simActive && !b.allow ==> Updated(b, isBrewing, start, now, ms) == b
    ensures b.initialized && (!b.simActive || b.allow) ==> !Updated(b, isBrewing, start, now, ms).allow
  {
  }

  /** A brewing update enters ACTIVE with the given start time, or the wall
      clock when none is given; while already ACTIVE it keeps the final
      seconds and all else but the start time. */
  lemma StartKeepsFinal(b: Brew, start: i64, now: i64, ms: u32)
    requires b.initialized && (!b.simActive || b.allow)
    ensures var r := Updated(b, true, start, now, ms);
      r.phase == Active && r.start == (if start <= 0 then now else start)
      && (b.phase == Active ==> r == b.(allow := false, start := r.start))
      && (b.phase != Active ==> r.final == 0 && r.text == "0.0" && !r.paused)
  {
  }

  /** Stopping: nothing when idle; otherwise FLASHING from uptime `ms` with
      the start cleared and the final seconds shown. A second stop while
      flashing restarts the flash with 0 seconds. */
  lemma StopFlashes(b: Brew, now: i64, ms: u32)
    requires Valid(b) && b.initialized && (!b.simActive || b.allow)
    ensures var r := Updated(b, false, 0, now, ms);
      (b.phase == Idle ==> r == b.(allow := false))
      && (b.phase != Idle ==>
            r.phase == Flashing && r.start == 0 && r.flashStart == ms
            && r.final == FinalSeconds(b.start, now) && r.text == Strings.IntToString(r.final))
      && (b.phase == Flashing ==> r.final == 0 && r.text == "0")
  {
  }

  /** The flash tick: after 3 seconds back to IDLE with a paused timer;
      before that the panel is visible exactly in the even 200 ms slots. */
  lemma FlashTick(b: Brew, now: i64, ms: u32)
    requires b.initialized && b.phase == Flashing
    ensures var r := Ticked(b, now, ms);
      var elapsed := U32(ms - b.flashStart);
      (elapsed >= FLASH_DURATION_MS ==> r.phase == Idle && r.final == 0 && r.paused && !r.shown)
      && (elapsed < FLASH_DURATION_MS ==> r.phase == Flashing && (r.shown <==> (elapsed / 200) % 2 == 0))
  {
  }

  /** The flash ends 3000 ms of uptime after it began, also across the
      32-bit wrap of the uptime counter. */
  lemma FlashEndsOnTime(b: Brew, now: i64, d: nat)
    requires b.initialized && b.phase == Flashing && d < TWO_32
    ensures var r := Ticked(b, now, U32(b.flashStart + d));
      (r.phase == Idle <==> d >= FLASH_DURATION_MS)
  {
    var ms := U32(b.flashStart + d);
    UnsignedDistance(b.flashStart, d);
    assert U32(ms - b.flashStart) == d;
  }

  lemma UnsignedDistance(a: u32, d: nat)
    requires d < TWO_32
    ensures U32(U32(a + d) - a) == d
  {
    var m := U32(a + d);
    assert (a + d - m) % TWO_32 == 0;
    assert (m - a - d) % TWO_32 == 0;
  }

  /** The elapsed text is seconds, a dot and one tenths digit, and reads back
      to the elapsed time to within a tenth. */
  lemma ElapsedTextFormat(e: int)
    requires 0 <= e < TWO_31 * 1000
    ensures var t := ElapsedText(e); var k := |t| - 2;
      k >= 1 && t[k] == '.' && Strings.IsDigit(t[k + 1])
      && (forall i :: 0 <= i < k ==> Strings.IsDigit(t[i]))
      && Strings.DecimalValue(t[..k]) * 1000 + Strings.DigitValue(t[k + 1]) * 100 <= e
      && e < Strings.DecimalValue(t[..k]) * 1000 + Strings.DigitValue(t[k + 1]) * 100 + 100
  {
    var s, d := e / 1000, (e % 1000) / 100;
    assert I32(s) == s;
    var secs := Strings.NatToString(s);
    assert Strings.IntToString(d) == [Strings.DigitChar(d)];
    var t := ElapsedText(e);
    assert t == secs + "." + [Strings.DigitChar(d)];
    assert t[..|t| - 2] == secs;
  }

  /** Elapsed text is refreshed only while brewing with a start time. */
  lemma ElapsedNeedsStart(b: Brew, now: i64)
    requires b.start <= 0
    ensures Elapsed(b, now) == b
  {
  }

  /** A falling edge with the simulation off turns it on and starts brewing. */
  lemma FallingEdgeStarts(b: Brew, now: i64, ms: u32)
    requires b.initialized && b.lastPin && !b.simActive
    ensures var r := GpioChecked(b, false, now, ms);
      r.simActive && r.phase == Active && !r.lastPin && !r.allow
  {
  }

  /** A rising edge with the simulation on turns it off: a flash is cut short,
      a brew starts its flash, an idle display stays idle. */
  lemma RisingEdgeEnds(b: Brew, now: i64, ms: u32)
    requires Valid(b) && b.initialized && !b.lastPin && b.simActive
    ensures var r := GpioChecked(b, true, now, ms);
      !r.simActive && r.lastPin
      && (b.phase == Flashing ==> r.phase == Idle && r.final == 0 && r.paused)
      && (b.phase == Active ==> r.phase == Flashing && r.flashStart == ms)
      && (b.phase == Idle ==> r.phase == Idle)
  {
  }

  /** An unchanged pin with the simulation on and an idle display brews
      again; with the simulation off nothing changes. */
  lemma SteadyPin(b: Brew, now: i64, ms: u32)
    requires b.initialized
    ensures var r := GpioChecked(b, b.lastPin, now, ms);
      (b.simActive && b.phase == Idle ==> r.phase == Active)
      && (!b.simActive ==> r == b)
  {
  }

  /** The module's state in place. */
  class BrewingDisplay {
    var initialized: bool
    var phase: Phase
    var start: i64
    var final: i32
    var flashStart: u32
    var paused: bool
    var period: nat
    var simActive: bool
    var lastPin: bool
    var allow: bool
    var shown: bool
    var text: string
    var lastText: string

    function View(): Brew
      reads this
    {
      Brew(initialized, phase, start, final, flashStart, paused, period, simActive, lastPin, allow,
           shown, text, lastText)
    }

    /** The static initialisers. */
    constructor()
      ensures View() == Boot()
    {
      initialized, phase, start, final, flashStart := false, Idle, 0, 0, 0;
      paused, period, simActive, lastPin, allow := true, 0, false, true, false;
      shown, text, lastText := false, "", "";
    }

    /** `brewing_display_init` with the pin read as `pin`. */
    method Init(pin: bool)
      modifies this
      ensures View() == Initialized(old(View()), pin)
    {
      if initialized {
        return;
      }
      lastPin := pin;
      shown := false;
      CreateTimer();
      initialized := true;
      ResetBrew();
    }

    /** The timer of `brewing_display_init`: created at the refresh period, paused. */
    method CreateTimer()
      modifies this
      ensures View() == old(View()).(period := UPDATE_PERIOD_MS, paused := true)
    {
      period := UPDATE_PERIOD_MS;
      paused := true;
    }

    /** The idle brew of `brewing_display_init`. */
    method ResetBrew()
      modifies this
      ensures View() == old(View()).(phase := Idle, start := 0, final := 0)
    {
      phase := Idle;
      start := 0;
      final := 0;
    }

    /** The timer restart of `start_brewing` and `stop_brewing`. */
    method ResumeTimer()
      modifies this
      ensures View() == old(View()).(period := UPDATE_PERIOD_MS, paused := false)
    {
      period := UPDATE_PERIOD_MS;
      if paused {
        paused := false;
      }
    }

    /** The timer pause at the end of a flash. */
    method PauseTimer()
      modifies this
      ensures View() == old(View()).(paused := true)
    {
      if !paused {
        paused := true;
      }
    }

    /** `show_brewing_ui`: the panel shown with "0.0". */
    method ShowBrewingUi()
      modifies this
      ensures View() == old(View()).(shown := true, text := "0.0")
    {
      shown := true;
      text := "0.0";
    }

    /** `restore_normal_ui`: the panel hidden. */
    method RestoreNormalUi()
      modifies this
      ensures View() == old(View()).(shown := false)
    {
      shown := false;
    }

    /** `start_brewing` */
    method StartBrewing(startTime: i64)
      modifies this
      ensures View() == Started(old(View()), startTime)
    {
      if phase == Active {
        if startTime != start {
          start := startTime;
        }
        return;
      }
      phase := Active;
      start := startTime;
      final := 0;
      ShowBrewingUi();
      ResumeTimer();
    }

    /** `stop_brewing` at wall time `now` and uptime `ms`. */
    method StopBrewing(now: i64, ms: u32)
      modifies this
      ensures View() == Stopped(old(View()), now, ms)
    {
      if phase == Idle {
        return;
      }
      var f := CaptureFinal(now);
      final := f;
      phase := Flashing;
      EnterFlashing(ms);
      ShowFinal();
      ResumeTimer();
    }

    /** The capture of the final seconds in `stop_brewing`. */
    method CaptureFinal(now: i64) returns (f: i32)
      ensures f == FinalSeconds(start, now)
    {
      if start > 0 {
        var elapsed := I64(now - start);
        if elapsed > 0 {
          f := I32(elapsed / 1000);
        } else {
          f := 0;
        }
      } else {
        f := 0;
      }
    }

    /** The flash clock of `stop_brewing` starts and the start time is cleared. */
    method EnterFlashing(ms: u32)
      modifies this
      ensures View() == old(View()).(flashStart := ms, start := 0)
    {
      flashStart := ms;
      start := 0;
    }

    /** The final seconds shown by `stop_brewing`, without tenths. */
    method ShowFinal()
      modifies this
      ensures View() == old(View()).(text := Strings.IntToString(old(final)), shown := true)
    {
      var secondsText := Strings.IntToString(final);
      text := secondsText;
      shown := true;
    }

    /** `brewing_display_update` */
    method Update(isBrewing: bool, startTime: i64, now: i64, ms: u32)
      modifies this
      ensures View() == Updated(old(View()), isBrewing, startTime, now, ms)
    {
      if !initialized {
        return;
      }
      if simActive && !allow {
        return;
      }
      allow := false;
      if isBrewing {
        var s := startTime;
        if s <= 0 {
          s := now;
        }
        StartBrewing(s);
      } else {
        StopBrewing(now, ms);
      }
    }

    /** `update_elapsed_time_display` at wall time `now`. */
    method UpdateElapsedTimeDisplay(now: i64)
      modifies this
      ensures View() == Elapsed(old(View()), now)
    {
      if start <= 0 {
        return;
      }
      var elapsed := I64(now - start);
      if elapsed < 0 {
        elapsed := 0;
      }
      var totalSeconds := I32(elapsed / 1000);
      var tenths := (elapsed % 1000) / 100;
      var t := Strings.IntToString(totalSeconds) + "." + Strings.IntToString(tenths);
      if t != lastText {
        lastText := t;
        text := t;
      }
    }

    /** The end of a flash, in the timer callback and when the pin is released. */
    method EndFlash()
      modifies this
      ensures View() == old(View()).(phase := Idle, final := 0, shown := false, paused := true)
    {
      phase := Idle;
      final := 0;
      RestoreNormalUi();
      PauseTimer();
    }

    /** `brewing_display_timer_callback` */
    method TimerCallback(now: i64, ms: u32)
      modifies this
      ensures View() == Ticked(old(View()), now, ms)
    {
      if !initialized {
        return;
      }
      match phase
      case Active =>
        UpdateElapsedTimeDisplay(now);
      case Flashing =>
        var elapsed := U32(ms - flashStart);
        if elapsed >= FLASH_DURATION_MS {
          EndFlash();
        } else {
          shown := (elapsed / FLASH_TOGGLE_MS) % 2 == 0;
        }
      case Idle =>
    }

    /** `brewing_display_is_active` */
    function IsActiveNow(): (r: bool)
      reads this
      ensures r <==> IsActive(View())
    {
      initialized && phase == Active
    }

    /** `brewing_display_check_gpio_simulation` with the pin read as `pin`. */
    method CheckGpioSimulation(pin: bool, now: i64, ms: u32)
      modifies this
      ensures View() == GpioChecked(old(View()), pin, now, ms)
    {
      if !initialized {
        return;
      }
      OnPinEdge(pin, now, ms);
      if simActive && phase != Active && phase != Flashing {
        allow := true;
        Update(true, now, now, ms);
      }
    }

    /** The edge part of `brewing_display_check_gpio_simulation`. */
    method OnPinEdge(pin: bool, now: i64, ms: u32)
      modifies this
      ensures View() == Edge(old(View()), pin, now, ms)
    {
      if pin == lastPin {
        return;
      }
      lastPin := pin;
      if !pin {
        if !simActive {
          simActive := true;
          allow := true;
          Update(true, now, now, ms);
        }
      } else if simActive {
        simActive := false;
        if phase == Flashing {
          EndFlash();
        } else if phase == Active {
          allow := true;
          Update(false, 0, now, ms);
        }
      }
    }
  }
}
