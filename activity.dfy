/** The activity monitor: when the user and the machine were last active, and
    whether either has been idle for longer than its timeout. Times are
    `millis()` readings, passed in as parameters. */
module Activity {
  import opened Ints

  /** `is_inactive`: false before initialisation, with a zero timeout, or when
      `now` is before `last`; otherwise whether `(uint32_t)(now - last)` has
      reached the timeout. With `now >= last` the difference already fits in
      32 bits, so the cast never wraps. */
  function IsInactive(initialized: bool, last: u32, timeout: u32, now: u32): (r: bool)
    ensures r <==> initialized && timeout > 0 && last <= now && now - last >= timeout
  {
    if !initialized || timeout == 0 then false
    else if now < last then false
    else U32(now - last) >= timeout
  }

  /** Once inactive, later readings stay inactive until the next mark. */
  lemma InactiveStays(initialized: bool, last: u32, timeout: u32, now: u32, later: u32)
    requires now <= later && IsInactive(initialized, last, timeout, now)
    ensures IsInactive(initialized, last, timeout, later)
  {
  }

  /** A mark at `last` keeps the monitor active for the whole timeout after it. */
  lemma ActiveAfterMark(initialized: bool, last: u32, timeout: u32, now: u32)
    requires last <= now < last + timeout
    ensures !IsInactive(initialized, last, timeout, now)
  {
  }

  /** The namespace-scope state of the monitor. */
  class ActivityMonitor {
    var userTimeout: u32
    var machineTimeout: u32
    var lastUser: u32
    var lastMachine: u32
    var initialized: bool

    /** The static initialisers: zero timeouts and stamps, not initialised. */
    constructor()
      ensures userTimeout == 0 && machineTimeout == 0 && lastUser == 0 && lastMachine == 0
      ensures !initialized
    {
      userTimeout, machineTimeout := 0, 0;
      lastUser, lastMachine := 0, 0;
      initialized := false;
    }

    /** `activity_monitor_init` at time `now`. */
    method Init(userT: u32, machineT: u32, now: u32)
      modifies this
      ensures userTimeout == userT && machineTimeout == machineT
      ensures lastUser == now && lastMachine == now && initialized
    {
      userTimeout := userT;
      machineTimeout := machineT;
      lastUser := now;
      lastMachine := now;
      initialized := true;
    }

    /** `activity_monitor_mark_user_activity` at time `now`: the first mark also
        stamps the machine and initialises the monitor. The timeouts stay. */
    method MarkUser(now: u32)
      modifies this
      ensures lastUser == now && initialized && !IsUserInactive(now)
      ensures lastMachine == if old(initialized) then old(lastMachine) else now
      ensures userTimeout == old(userTimeout) && machineTimeout == old(machineTimeout)
    {
      lastUser := now;
      if !initialized {
        lastMachine := lastUser;
        initialized := true;
      }
    }

    /** `activity_monitor_mark_machine_activity`, the mirror image of `MarkUser`. */
    method MarkMachine(now: u32)
      modifies this
      ensures lastMachine == now && initialized && !IsMachineInactive(now)
      ensures lastUser == if old(initialized) then old(lastUser) else now
      ensures userTimeout == old(userTimeout) && machineTimeout == old(machineTimeout)
    {
      lastMachine := now;
      if !initialized {
        lastUser := lastMachine;
        initialized := true;
      }
    }

    /** `activity_monitor_is_user_inactive` */
    function IsUserInactive(now: u32): (r: bool)
      reads this
      ensures r <==> initialized && userTimeout > 0 && lastUser <= now && now - lastUser >= userTimeout
    {
      IsInactive(initialized, lastUser, userTimeout, now)
    }

    /** `activity_monitor_is_machine_inactive` */
    function IsMachineInactive(now: u32): (r: bool)
      reads this
      ensures r <==> initialized && machineTimeout > 0 && lastMachine <= now && now - lastMachine >= machineTimeout
    {
      IsInactive(initialized, lastMachine, machineTimeout, now)
    }
  }
}
