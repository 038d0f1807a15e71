/** The boiler countdown display: for the coffee and the steam boiler, whether it
    is off, heating towards a known ready time, or ready; the arc and text
    values shown for it; and the period and pause state of the refresh timer.
    Clock readings are parameters. */
module Boiler {
  import opened Ints
  import Strings

  /** `WARMUP_DURATION_SEC`: the warm-up the arc is scaled to. */
  const WARMUP_DURATION_SEC: int := 300

  const COFFEE: nat := 0
  const STEAM: nat := 1

  /** `BoilerState` */
  datatype State = Off | Heating | Ready

  /** `BoilerInfo` without its widget handles; `arc` and `text` are the value
      and text the two widgets were last given. */
  datatype BoilerInfo = BoilerInfo(readyStartTime: i64, state: State, lastRemaining: i32, arc: int, text: string)

  /** The refresh timer (`lv_timer_set_period`, and `g_timer_paused`). */
  datatype Timer = Timer(period: nat, paused: bool)

  /** The module's globals: `g_initialized`, `g_boilers`, the timer and the texts
      of the temperature and level labels. */
  datatype Display = Display(initialized: bool, boilers: seq<BoilerInfo>, timer: Timer,
                             coffeeTarget: string, steamTarget: string)

  // Pure helpers.

  /** `calculate_remaining_seconds`: `(int)((ready - now) / 1000)` with C's
      truncating division; the 64-bit difference and the narrowing cast wrap. */
  function Remaining(ready: i64, now: i64): (r: i32)
    ensures -TWO_31 * 1000 < ready - now < TWO_31 * 1000 ==>
      r == Quot(ready - now, 1000) && (r <= 0 <==> ready - now < 1000)
  {
    I32(Quot(I64(ready - now), 1000))
  }

  /** The arc value of `update_arc_and_label`: `remaining * 100 / 300` in `int`
      arithmetic, clamped to [0, 100]. */
  function ArcValue(r: i32): (a: int)
    ensures 0 <= a <= 100
    ensures 0 <= r <= WARMUP_DURATION_SEC ==> a == r / 3
    ensures WARMUP_DURATION_SEC <= r <= TWO_31 / 100 ==> a == 100
    ensures -(TWO_31 / 100) <= r <= 2 ==> a == 0
  {
    var v := Quot(I32(r * 100), WARMUP_DURATION_SEC);
    if v < 0 then 0 else if v > 100 then 100 else v
  }

  /** More remaining time never gives a smaller arc, as long as `remaining * 100` fits an `int`. */
  lemma ArcMonotone(r1: i32, r2: i32)
    requires -(TWO_31 / 100) <= r1 <= r2 <= TWO_31 / 100
    ensures ArcValue(r1) <= ArcValue(r2)
  {
    var p1, p2 := r1 * 100, r2 * 100;
    assert I32(p1) == p1 && I32(p2) == p2;
    QuotMonotone(p1, p2, WARMUP_DURATION_SEC);
  }

  lemma QuotMonotone(a: int, b: int, d: int)
    requires a <= b && d > 0
    ensures Quot(a, d) <= Quot(b, d)
  {
    if a >= 0 {
      DivMonotone(a, b, d);
      assert Quot(a, d) == a / d && Quot(b, d) == b / d;
    } else if b < 0 {
      DivMonotone(-b, -a, d);
      assert Quot(a, d) == -((-a) / d) && Quot(b, d) == -((-b) / d);
    } else {
      DivNonNegative(-a, d);
      DivNonNegative(b, d);
      assert Quot(a, d) == -((-a) / d) && Quot(b, d) == b / d;
    }
  }

  lemma DivNonNegative(a: nat, d: int)
    requires d > 0
    ensures a / d >= 0
  {
  }

  lemma DivMonotone(a: nat, b: nat, d: int)
    requires a <= b && d > 0
    ensures a / d <= b / d
  {
    var qa, qb := a / d, b / d;
    if qa > qb {
      MulLe(d, qb + 1, qa);
      assert false;
    }
  }

  lemma MulLe(d: nat, x: int, y: int)
    requires x <= y
    ensures d * x <= d * y
  {
    assert d * y - d * x == d * (y - x);
  }

  /** The label text of `update_arc_and_label`: minutes rounded up above a
      minute, seconds down to one second, then "READY". */
  function LabelText(r: i32): (s: string)
    ensures r <= 0 ==> s == "READY"
    ensures 0 < r <= 60 ==> s == Strings.NatToString(r) + " sec"
  {
    if r > 60 then Strings.IntToString(Quot(I32(r + 59), 60)) + " min"
    else if r > 0 then Strings.IntToString(r) + " sec"
    else "READY"
  }

  /** Above a minute the label counts started minutes: `m` with
      `(m - 1) * 60 < r <= m * 60`, as long as `r + 59` fits an `int`. */
  lemma LabelMinutes(r: i32)
    requires 60 < r < TWO_31 - 59
    ensures var m := (r + 59) / 60;
      m >= 2 && (m - 1) * 60 < r <= m * 60 && LabelText(r) == Strings.NatToString(m) + " min"
  {
    assert I32(r + 59) == r + 59;
  }

  predicate IsOffStatus(s: string) {
    s == "Off" || s == "StandBy"
  }

  /** The state `boiler_display_update` asks for, in the order it checks:
      the machine or the boiler off, a "Ready" status, no ready time, a ready
      time already passed, and otherwise heating. */
  function Target(machine: string, boiler: string, ready: i64, now: i64): State {
    if IsOffStatus(machine) || IsOffStatus(boiler) then Off
    else if boiler == "Ready" || ready <= 0 || Remaining(ready, now) <= 0 then Ready
    else Heating
  }

  // The state entry effects.

  /** `set_boiler_off` */
  function OffInfo(): BoilerInfo {
    BoilerInfo(0, Off, -1, 0, "OFF")
  }

  /** `update_arc_and_label` */
  function Shown(b: BoilerInfo, r: i32): BoilerInfo {
    b.(lastRemaining := r, arc := ArcValue(r), text := LabelText(r))
  }

  /** `set_boiler_heating` for the boiler: the ready time is stored and the
      countdown shown at once. */
  function HeatingInfo(ready: i64, now: i64): BoilerInfo {
    Shown(BoilerInfo(ready, Heating, -1, 0, ""), Remaining(ready, now))
  }

  /** `set_boiler_ready_no_mutex`: the ready time is kept. */
  function ReadyInfo(b: BoilerInfo): BoilerInfo {
    b.(state := Ready, lastRemaining := 0, arc := 100, text := "READY")
  }

  /** A heating boiler with less than a minute to go. */
  predicate Fast(b: BoilerInfo, now: i64) {
    b.state == Heating && 0 < Remaining(b.readyStartTime, now) < 60
  }

  predicate NeedsFast(bs: seq<BoilerInfo>, now: i64) {
    exists k :: 0 <= k < |bs| && Fast(bs[k], now)
  }

  predicate AnyActive(bs: seq<BoilerInfo>) {
    exists k :: 0 <= k < |bs| && bs[k].state != Off
  }

  predicate AnyIn(bs: seq<BoilerInfo>, s: State) {
    exists k :: 0 <= k < |bs| && bs[k].state == s
  }

  /** `restart_update_timer`: one second while some boiler is less than a
      minute from ready, else 30 seconds; running iff some boiler is not off. */
  function Restarted(d: Display, now: i64): Display {
    d.(timer := Timer(if NeedsFast(d.boilers, now) then 1000 else 30000, !AnyActive(d.boilers)))
  }

  function SetBoiler(d: Display, i: nat, b: BoilerInfo): Display
    requires i < |d.boilers|
  {
    d.(boilers := d.boilers[i := b])
  }

  /** `set_boiler_heating`: also resumes a paused timer. */
  function Heated(d: Display, i: nat, ready: i64, now: i64): Display
    requires i < |d.boilers|
  {
    d.(boilers := d.boilers[i := HeatingInfo(ready, now)], timer := d.timer.(paused := false))
  }

  /** `set_boiler_ready`, which does nothing unless the GUI mutex is acquired,
      followed by the timer restart when the boiler was not ready before. */
  function Readied(d: Display, i: nat, mutex: bool, now: i64): Display
    requires i < |d.boilers|
  {
    var e := if mutex then SetBoiler(d, i, ReadyInfo(d.boilers[i])) else d;
    if d.boilers[i].state != Ready then Restarted(e, now) else e
  }

  /** The state part of `boiler_display_update` for boiler `i`. */
  function UpdateBoiler(d: Display, i: nat, machine: string, status: string, ready: i64,
                        now: i64, mutex: bool): Display
    requires i < |d.boilers|
  {
    var b := d.boilers[i];
    if IsOffStatus(machine) then
      if b.state != Off then Restarted(SetBoiler(d, i, OffInfo()), now) else d
    else if IsOffStatus(status) then
      if b.state != Off then Restarted(SetBoiler(d, i, OffInfo()), now) else d
    else if status == "Ready" then Readied(d, i, mutex, now)
    else if ready <= 0 then Readied(d, i, mutex, now)
    else
      var r := Remaining(ready, now);
      if r <= 0 then Readied(d, i, mutex, now)
      else if b.state != Heating || b.readyStartTime != ready then Restarted(Heated(d, i, ready, now), now)
      else SetBoiler(d, i, Shown(b, r))
  }

  /** The target label text is written when it is non-empty and the mutex is acquired. */
  function WithTarget(d: Display, ty: nat, target: string, mutex: bool): Display {
    if |target| == 0 || !mutex then d
    else if ty == COFFEE then d.(coffeeTarget := target)
    else if ty == STEAM then d.(steamTarget := target)
    else d
  }

  /** `boiler_display_update(type, machine_status, boiler_status, ready_start_time,
      target_value)`, with "" for a null target and the clock reading `now`. The
      source takes the GUI mutex twice, each time with its own time-out: once for
      the target label (`labelMutex`) and once inside `set_boiler_ready`
      (`readyMutex`). */
  function Updated(d: Display, ty: nat, machine: string, status: string, ready: i64,
                   target: string, now: i64, labelMutex: bool, readyMutex: bool): Display
    requires d.initialized ==> |d.boilers| == 2
  {
    if !d.initialized then d
    else
      var e := WithTarget(d, ty, target, labelMutex);
      if ty >= 2 then e else UpdateBoiler(e, ty, machine, status, ready, now, readyMutex)
  }

  /** One boiler in the timer callback: an expired countdown becomes ready,
      a running one is shown again, a ready one is refreshed. */
  function TickBoiler(b: BoilerInfo, now: i64): BoilerInfo {
    match b.state
    case Heating =>
      var r := Remaining(b.readyStartTime, now);
      if r <= 0 then ReadyInfo(b) else Shown(b, r)
    case Ready => ReadyInfo(b)
    case Off => b
  }

  function TickAll(bs: seq<BoilerInfo>, now: i64): (r: seq<BoilerInfo>)
    ensures |r| == |bs| && forall k :: 0 <= k < |bs| ==> r[k] == TickBoiler(bs[k], now)
  {
    if bs == [] then [] else TickAll(bs[..|bs| - 1], now) + [TickBoiler(bs[|bs| - 1], now)]
  }

  /** `boiler_display_timer_callback`: after the boilers are ticked, the timer
      follows the restart rule while one is heating, refreshes every 5 seconds
      while one is ready, and is paused otherwise. */
  function Ticked(d: Display, now: i64): Display {
    if !d.initialized then d
    else
      var e := d.(boilers := TickAll(d.boilers, now));
      if AnyIn(e.boilers, Heating) then Restarted(e, now)
      else if AnyIn(e.boilers, Ready) then e.(timer := Timer(5000, false))
      else e.(timer := e.timer.(paused := true))
  }

  /** `boiler_display_set_all_off` */
  function AllOff(d: Display): Display {
    if !d.initialized then d
    else d.(boilers := seq(|d.boilers|, _ => OffInfo()), timer := d.timer.(paused := true))
  }

  /** `boiler_display_init`: both boilers off, the timer created paused at 30 seconds. */
  function Initialized(d: Display): Display {
    if d.initialized then d
    else d.(initialized := true, boilers := [OffInfo(), OffInfo()], timer := Timer(30000, true))
  }

  // The invariant.

  /** What the widgets show agrees with the state: "OFF" and an empty arc with
      no ready time, "READY" and a full arc, or the countdown of the last
      positive remaining time with a ready time set. */
  predicate Consistent(b: BoilerInfo) {
    match b.state
    case Off => b.readyStartTime == 0 && b.lastRemaining == -1 && b.arc == 0 && b.text == "OFF"
    case Ready => b.lastRemaining == 0 && b.arc == 100 && b.text == "READY"
    case Heating => b.readyStartTime > 0 && b.lastRemaining > 0
                    && b.arc == ArcValue(b.lastRemaining) && b.text == LabelText(b.lastRemaining)
  }

  /** Once initialised: two boilers, each consistent, and the timer paused
      exactly when both are off. */
  predicate Valid(d: Display) {
    d.initialized ==>
      |d.boilers| == 2 && (forall k :: 0 <= k < 2 ==> Consistent(d.boilers[k]))
      && (d.timer.paused <==> !AnyActive(d.boilers))
  }

  lemma InitializedValid(d: Display)
    requires Valid(d)
    ensures Valid(Initialized(d)) && Initialized(d).initialized
  {
    if !d.initialized {
      var bs := Initialized(d).boilers;
      assert bs[0].state == Off && bs[1].state == Off;
    }
  }

  lemma RestartedValid(d: Display, now: i64)
    requires d.initialized && |d.boilers| == 2 && forall k :: 0 <= k < 2 ==> Consistent(d.boilers[k])
    ensures Valid(Restarted(d, now))
  {
  }

  lemma ReadiedValid(d: Display, i: nat, mutex: bool, now: i64)
    requires Valid(d) && d.initialized && i < 2
    ensures Valid(Readied(d, i, mutex, now))
  {
    var e := if mutex then SetBoiler(d, i, ReadyInfo(d.boilers[i])) else d;
    assert forall k :: 0 <= k < 2 ==> Consistent(e.boilers[k]);
    if d.boilers[i].state != Ready {
      RestartedValid(e, now);
    } else if mutex {
      assert e.boilers[i].state == d.boilers[i].state;
      assert forall k :: 0 <= k < 2 ==> e.boilers[k].state == d.boilers[k].state;
    }
  }

  lemma HeatingConsistent(ready: i64, now: i64)
    requires ready > 0 && Remaining(ready, now) > 0
    ensures Consistent(HeatingInfo(ready, now))
  {
  }

  lemma UpdateBoilerValid(d: Display, i: nat, machine: string, status: string, ready: i64,
                          now: i64, mutex: bool)
    requires Valid(d) && d.initialized && i < 2
    ensures Valid(UpdateBoiler(d, i, machine, status, ready, now, mutex))
  {
    var b := d.boilers[i];
    if IsOffStatus(machine) || IsOffStatus(status) {
      if b.state != Off {
        RestartedValid(SetBoiler(d, i, OffInfo()), now);
      }
    } else if status == "Ready" || ready <= 0 || Remaining(ready, now) <= 0 {
      ReadiedValid(d, i, mutex, now);
    } else {
      var r := Remaining(ready, now);
      if b.state != Heating || b.readyStartTime != ready {
        HeatingConsistent(ready, now);
        RestartedValid(Heated(d, i, ready, now), now);
      } else {
        var e := SetBoiler(d, i, Shown(b, r));
        assert forall k :: 0 <= k < 2 ==> e.boilers[k].state == d.boilers[k].state;
      }
    }
  }

  /** `boiler_display_update` keeps the invariant. */
  lemma UpdatedValid(d: Display, ty: nat, machine: string, status: string, ready: i64,
                     target: string, now: i64, labelMutex: bool, readyMutex: bool)
    requires Valid(d)
    ensures Valid(Updated(d, ty, machine, status, ready, target, now, labelMutex, readyMutex))
  {
    if d.initialized {
      var e := WithTarget(d, ty, target, labelMutex);
      assert e.boilers == d.boilers && e.timer == d.timer;
      if ty < 2 {
        UpdateBoilerValid(e, ty, machine, status, ready, now, readyMutex);
      }
    }
  }

  lemma TickBoilerConsistent(b: BoilerInfo, now: i64)
    requires Consistent(b)
    ensures Consistent(TickBoiler(b, now))
    ensures TickBoiler(b, now).state == Off <==> b.state == Off
  {
  }

  /** The timer callback keeps the invariant. */
  lemma TickedValid(d: Display, now: i64)
    requires Valid(d)
    ensures Valid(Ticked(d, now))
  {
    if d.initialized {
      var bs := TickAll(d.boilers, now);
      TickBoilerConsistent(d.boilers[0], now);
      TickBoilerConsistent(d.boilers[1], now);
      var e := d.(boilers := bs);
      if !AnyIn(bs, Heating) && !AnyIn(bs, Ready) {
        assert bs[0].state == Off && bs[1].state == Off;
      } else if !AnyIn(bs, Heating) {
        assert AnyActive(bs);
      }
    }
  }

  /** `set_all_off` keeps the invariant. */
  lemma AllOffValid(d: Display)
    requires Valid(d)
    ensures Valid(AllOff(d))
  {
  }

  // Properties of the transitions.

  /** The transition priority of `boiler_display_update`: the boiler named by
      `ty` ends in the `Target` state, except that a move to READY without the
      second GUI mutex leaves it as it was; a heating boiler holds the new ready
      time; the other boiler is untouched. Before initialisation nothing
      changes, and a type of 2 or more changes no boiler. The target labels
      are the subject of `UpdateTargetLabel`. */
  lemma UpdatePriority(d: Display, ty: nat, machine: string, status: string, ready: i64,
                       target: string, now: i64, labelMutex: bool, readyMutex: bool)
    requires Valid(d)
    ensures var r := Updated(d, ty, machine, status, ready, target, now, labelMutex, readyMutex);
      var t := Target(machine, status, ready, now);
      (!d.initialized ==> r == d)
      && (d.initialized && ty >= 2 ==> r.boilers == d.boilers)
      && (d.initialized && ty < 2 ==>
            |r.boilers| == 2 && r.boilers[1 - ty] == d.boilers[1 - ty]
            && r.boilers[ty].state == (if t == Ready && !readyMutex then d.boilers[ty].state else t)
            && (t == Heating ==> r.boilers[ty].readyStartTime == ready))
  {
    if d.initialized {
      var e := WithTarget(d, ty, target, labelMutex);
      assert e.boilers == d.boilers;
      if ty < 2 {
        UpdateBoilerPriority(e, ty, machine, status, ready, now, readyMutex);
      }
    }
  }
  /** The label half of `boiler_display_update`: the target label of boiler
      `ty` takes a non-empty target text exactly when the label's own GUI mutex
      is acquired, whatever happens to the boiler; the other label is kept. */
  lemma UpdateTargetLabel(d: Display, ty: nat, machine: string, status: string, ready: i64,
                          target: string, now: i64, labelMutex: bool, readyMutex: bool)
    requires Valid(d)
    ensures var r := Updated(d, ty, machine, status, ready, target, now, labelMutex, readyMutex);
      var shown := d.initialized && |target| > 0 && labelMutex;
      r.coffeeTarget == (if shown && ty == COFFEE then target else d.coffeeTarget)
      && r.steamTarget == (if shown && ty == STEAM then target else d.steamTarget)
  {
    if d.initialized && ty < 2 {
      UpdateBoilerKeepsTargets(WithTarget(d, ty, target, labelMutex), ty, machine, status, ready, now, readyMutex);
    }
  }

  lemma UpdateBoilerKeepsTargets(d: Display, i: nat, machine: string, status: string, ready: i64,
                                 now: i64, mutex: bool)
    requires i < |d.boilers|
    ensures var r := UpdateBoiler(d, i, machine, status, ready, now, mutex);
      r.coffeeTarget == d.coffeeTarget && r.steamTarget == d.steamTarget
  {
  }


  lemma UpdateBoilerPriority(d: Display, i: nat, machine: string, status: string, ready: i64,
                             now: i64, mutex: bool)
    requires |d.boilers| == 2 && i < 2
    ensures var r := UpdateBoiler(d, i, machine, status, ready, now, mutex);
      var t := Target(machine, status, ready, now);
      |r.boilers| == 2 && r.boilers[1 - i] == d.boilers[1 - i]
      && r.boilers[i].state == (if t == Ready && !mutex then d.boilers[i].state else t)
      && (t == Heating ==> r.boilers[i].readyStartTime == ready)
  {
    var t := Target(machine, status, ready, now);
    if IsOffStatus(machine) || IsOffStatus(status) {
      assert t == Off;
    } else if status == "Ready" || ready <= 0 || Remaining(ready, now) <= 0 {
      assert t == Ready;
      ReadiedPriority(d, i, mutex, now);
    } else {
      assert t == Heating;
    }
  }

  lemma ReadiedPriority(d: Display, i: nat, mutex: bool, now: i64)
    requires |d.boilers| == 2 && i < 2
    ensures var r := Readied(d, i, mutex, now);
      |r.boilers| == 2 && r.boilers[1 - i] == d.boilers[1 - i]
      && r.boilers[i].state == (if mutex then Ready else d.boilers[i].state)
  {
  }

  /** In the timer callback a countdown that has run out becomes READY, one
      still running shows its remaining time, and an OFF boiler stays OFF. */
  lemma TickExpires(d: Display, now: i64, i: nat)
    requires Valid(d) && d.initialized && i < 2
    ensures var b, r := d.boilers[i], Ticked(d, now).boilers[i];
      var left := Remaining(b.readyStartTime, now);
      (b.state == Heating && left <= 0 ==> r.state == Ready && r.text == "READY")
      && (b.state == Heating && left > 0 ==> r.state == Heating && r.lastRemaining == left)
      && (b.state == Off ==> r == b)
  {
  }

  /** After the timer callback the timer runs at 5 seconds when a boiler is
      ready and none is heating, and is paused when both are off. */
  lemma TickTimer(d: Display, now: i64)
    requires Valid(d) && d.initialized
    ensures var r := Ticked(d, now);
      (AnyIn(r.boilers, Heating) ==> r.timer.period == (if NeedsFast(r.boilers, now) then 1000 else 30000))
      && (!AnyIn(r.boilers, Heating) && AnyIn(r.boilers, Ready) ==> r.timer == Timer(5000, false))
      && (!AnyActive(r.boilers) ==> r.timer.paused)
  {
  }

  /** `set_all_off` makes both boilers OFF and pauses the timer. */
  lemma AllOffPauses(d: Display)
    requires Valid(d) && d.initialized
    ensures var r := AllOff(d);
      |r.boilers| == 2 && r.boilers[0].state == Off && r.boilers[1].state == Off && r.timer.paused
  {
  }

  // The module's state in place.

  /** The namespace-scope globals of the boiler display: `g_boilers` as a
      two-element array, `g_initialized`, the timer's period and
      `g_timer_paused`, and the two target labels. */
  class BoilerDisplay {
    var initialized: bool
    const boilers: array<BoilerInfo>
    var period: nat
    var paused: bool
    var coffeeTarget: string
    var steamTarget: string

    function View(): Display
      reads this, boilers
    {
      Display(initialized, boilers[..], Timer(period, paused), coffeeTarget, steamTarget)
    }

    /** The static initialisers: zeroed boilers, no timer, not initialised. */
    constructor()
      ensures boilers.Length == 2 && fresh(boilers)
      ensures !initialized && paused && Valid(View())
    {
      boilers := new BoilerInfo[2](_ => BoilerInfo(0, Off, 0, 0, ""));
      initialized := false;
      period := 0;
      paused := true;
      coffeeTarget, steamTarget := "", "";
    }

    /** `set_boiler_off` on boiler `i`. */
    method SetBoilerOff(i: nat)
      requires i < boilers.Length
      modifies boilers
      ensures boilers[..] == old(boilers[..])[i := OffInfo()]
    {
      boilers[i] := OffInfo();
    }

    /** `update_arc_and_label` on boiler `i`. */
    method UpdateArcAndLabel(i: nat, remaining: i32)
      requires i < boilers.Length
      modifies boilers
      ensures boilers[..] == old(boilers[..])[i := Shown(old(boilers[i]), remaining)]
    {
      var b := boilers[i];
      var arc := Quot(I32(remaining * 100), WARMUP_DURATION_SEC);
      if arc < 0 { arc := 0; }
      if arc > 100 { arc := 100; }
      boilers[i] := b.(lastRemaining := remaining, arc := arc, text := LabelText(remaining));
    }

    /** `set_boiler_heating` on boiler `i` at time `now`. */
    method SetBoilerHeating(i: nat, ready: i64, now: i64)
      requires i < boilers.Length
      modifies this, boilers
      ensures View() == Heated(old(View()), i, ready, now)
    {
      boilers[i] := boilers[i].(state := Heating, readyStartTime := ready, lastRemaining := -1);
      var remaining := Remaining(ready, now);
      UpdateArcAndLabel(i, remaining);
      paused := false;
    }

    /** `set_boiler_ready_no_mutex` on boiler `i`. */
    method SetBoilerReadyNoMutex(i: nat)
      requires i < boilers.Length
      modifies boilers
      ensures boilers[..] == old(boilers[..])[i := ReadyInfo(old(boilers[i]))]
    {
      boilers[i] := boilers[i].(state := Ready, lastRemaining := -1, arc := 100, text := "READY");
      boilers[i] := boilers[i].(lastRemaining := 0);
    }

    /** `set_boiler_ready`: the same, only when the GUI mutex is acquired. */
    method SetBoilerReady(i: nat, mutex: bool)
      requires i < boilers.Length
      modifies boilers
      ensures boilers[..] == if mutex then old(boilers[..])[i := ReadyInfo(old(boilers[i]))] else old(boilers[..])
    {
      if mutex {
        SetBoilerReadyNoMutex(i);
      }
    }

    /** `restart_update_timer` at time `now`. */
    method RestartUpdateTimer(now: i64)
      modifies this
      ensures View() == Restarted(old(View()), now)
    {
      var fast := ScanFast(now);
      period := if fast then 1000 else 30000;
      var active := ScanActive();
      if active && paused {
        paused := false;
      } else if !active && !paused {
        paused := true;
      }
    }

    /** The first scan of `restart_update_timer`: whether a heating boiler has
        less than a minute to go. */
    method ScanFast(now: i64) returns (fast: bool)
      ensures fast <==> NeedsFast(boilers[..], now)
    {
      fast := false;
      var i := 0;
      while i < boilers.Length
        invariant 0 <= i <= boilers.Length
        invariant forall k :: 0 <= k < i ==> !Fast(boilers[k], now)
      {
        if boilers[i].state == Heating {
          var remaining := Remaining(boilers[i].readyStartTime, now);
          if remaining > 0 && remaining < 60 {
            fast := true;
            break;
          }
        }
        i := i + 1;
      }
      if fast {
        assert Fast(boilers[..][i], now);
      }
    }

    /** The second scan of `restart_update_timer`: whether a boiler is not OFF. */
    method ScanActive() returns (active: bool)
      ensures active <==> AnyActive(boilers[..])
    {
      active := false;
      var i := 0;
      while i < boilers.Length
        invariant 0 <= i <= boilers.Length
        invariant forall k :: 0 <= k < i ==> boilers[k].state == Off
      {
        if boilers[i].state != Off {
          active := true;
          break;
        }
        i := i + 1;
      }
      if active {
        assert boilers[..][i].state != Off;
      }
    }

    /** `boiler_display_update` with status texts, `""` for a null target,
        the clock reading `now` and whether each of the two GUI mutex
        acquisitions succeeds. */
    method Update(ty: nat, machine: string, status: string, ready: i64, target: string,
                  now: i64, labelMutex: bool, readyMutex: bool)
      requires boilers.Length == 2
      modifies this, boilers
      ensures View() == Updated(old(View()), ty, machine, status, ready, target, now, labelMutex, readyMutex)
    {
      if !initialized {
        return;
      }
      if |target| > 0 && labelMutex {
        if ty == COFFEE {
          coffeeTarget := target;
        } else if ty == STEAM {
          steamTarget := target;
        }
      }
      if ty >= 2 {
        return;
      }
      UpdateOne(ty, machine, status, ready, now, readyMutex);
    }

    /** The part of `boiler_display_update` after the type check. */
    method UpdateOne(i: nat, machine: string, status: string, ready: i64, now: i64, mutex: bool)
      requires i < boilers.Length
      modifies this, boilers
      ensures View() == UpdateBoiler(old(View()), i, machine, status, ready, now, mutex)
    {
      var b := boilers[i];
      if machine == "Off" || machine == "StandBy" || status == "Off" || status == "StandBy" {
        if b.state != Off {
          SetBoilerOff(i);
          RestartUpdateTimer(now);
        }
        return;
      }
      if status == "Ready" || ready <= 0 {
        ReadyTransition(i, mutex, now);
        return;
      }
      var remaining := Remaining(ready, now);
      if remaining <= 0 {
        ReadyTransition(i, mutex, now);
      } else if b.state != Heating || b.readyStartTime != ready {
        SetBoilerHeating(i, ready, now);
        RestartUpdateTimer(now);
      } else {
        UpdateArcAndLabel(i, remaining);
      }
    }

    /** A READY branch of `boiler_display_update`: the timer is restarted only
        when the boiler was not ready before. */
    method ReadyTransition(i: nat, mutex: bool, now: i64)
      requires i < boilers.Length
      modifies this, boilers
      ensures View() == Readied(old(View()), i, mutex, now)
    {
      var was := boilers[i].state;
      SetBoilerReady(i, mutex);
      if was != Ready {
        RestartUpdateTimer(now);
      }
    }

    /** `boiler_display_timer_callback` at time `now`. */
    method TimerCallback(now: i64)
      modifies this, boilers
      ensures View() == Ticked(old(View()), now)
    {
      if !initialized {
        return;
      }
      var heating := TickBoilers(now);
      var ready := ScanReady();
      if heating {
        RestartUpdateTimer(now);
      } else if ready {
        period := 5000;
        if paused {
          paused := false;
        }
      } else {
        if !paused {
          paused := true;
        }
      }
    }

    /** The first loop of the timer callback: each boiler ticked, and whether
        one is still counting down. */
    method TickBoilers(now: i64) returns (heating: bool)
      modifies boilers
      ensures boilers[..] == TickAll(old(boilers[..]), now)
      ensures heating <==> AnyIn(boilers[..], Heating)
    {
      heating := false;
      for i := 0 to boilers.Length
        invariant forall k :: 0 <= k < i ==> boilers[k] == TickBoiler(old(boilers[k]), now)
        invariant forall k :: i <= k < boilers.Length ==> boilers[k] == old(boilers[k])
        invariant heating <==> exists k :: 0 <= k < i && boilers[k].state == Heating
      {
        var still := TickBoiler1(i, now);
        heating := heating || still;
      }
      assert heating <==> AnyIn(boilers[..], Heating) by {
        if heating {
          var k :| 0 <= k < boilers.Length && boilers[k].state == Heating;
          assert boilers[..][k].state == Heating;
        }
      }
    }

    /** One pass of the first loop of the timer callback, on boiler `i`. */
    method TickBoiler1(i: nat, now: i64) returns (heating: bool)
      requires i < boilers.Length
      modifies boilers
      ensures boilers[..] == old(boilers[..])[i := TickBoiler(old(boilers[i]), now)]
      ensures heating <==> boilers[i].state == Heating
    {
      var b := boilers[i];
      heating := false;
      if b.state == Heating {
        var remaining := Remaining(b.readyStartTime, now);
        if remaining <= 0 {
          SetBoilerReadyNoMutex(i);
        } else {
          UpdateArcAndLabel(i, remaining);
          heating := true;
        }
      } else if b.state == Ready {
        boilers[i] := b.(lastRemaining := -1);
        SetBoilerReadyNoMutex(i);
      }
    }

    /** The second loop of the timer callback: whether some boiler is READY. */
    method ScanReady() returns (ready: bool)
      ensures ready <==> AnyIn(boilers[..], Ready)
    {
      ready := false;
      var i := 0;
      while i < boilers.Length
        invariant 0 <= i <= boilers.Length
        invariant forall k :: 0 <= k < i ==> boilers[k].state != Ready
      {
        if boilers[i].state == Ready {
          ready := true;
          break;
        }
        i := i + 1;
      }
      if ready {
        assert boilers[..][i].state == Ready;
      }
    }

    /** `boiler_display_set_all_off` */
    method SetAllOff()
      requires boilers.Length == 2
      modifies this, boilers
      ensures View() == AllOff(old(View()))
    {
      if !initialized {
        return;
      }
      SetBoilerOff(COFFEE);
      SetBoilerOff(STEAM);
      assert boilers[..] == seq(2, _ => OffInfo());
      if !paused {
        paused := true;
      }
    }

    /** `boiler_display_init` */
    method Init()
      requires boilers.Length == 2
      modifies this, boilers
      ensures View() == Initialized(old(View()))
    {
      if initialized {
        return;
      }
      boilers[COFFEE] := BoilerInfo(0, Off, -1, boilers[COFFEE].arc, boilers[COFFEE].text);
      boilers[STEAM] := BoilerInfo(0, Off, -1, boilers[STEAM].arc, boilers[STEAM].text);
      SetBoilerOff(COFFEE);
      SetBoilerOff(STEAM);
      assert boilers[..] == [OffInfo(), OffInfo()];
      period := 30000;
      paused := true;
      initialized := true;
    }
  }
}
