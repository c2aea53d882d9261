/*******************************************************************************
 *  The GPIO vibrator of drivers/leds/leds-qpnp-vibrator-gpio.c as a state
 *  machine: the chip record, one pure transition per sysfs store, worker run,
 *  timer expiry and LED brightness call, and the invariants they keep.
 *******************************************************************************/

module Vibrator {
  import opened KernelLib

  /** QPNP_VIB_MIN_PLAY_MS, QPNP_VIB_PLAY_MS and QPNP_VIB_MAX_PLAY_MS. */
  const MinPlayMs: nat := 50
  const DefaultPlayMs: nat := 5000
  const MaxPlayMs: nat := 15000

  /** The two pin-control configurations the driver switches between. */
  datatype PinState = PinDefault | PinActive

  /** The one-shot stop timer: idle, or armed for a relative number of milliseconds. */
  datatype StopTimer = TimerIdle | TimerArmed(ms: nat)

  /** What the timer callback tells the hrtimer core. */
  datatype HrtimerRestart = NoRestart | Restart

  /**
   * struct vib_ldo_chip without its kernel objects: `state` is what the worker
   * acts on, `vibEnabled` what the LED brightness call last set, `pin` the
   * selected pin configuration, and `workPending` whether vib_work is queued.
   */
  datatype Chip = Chip(
    state: int,
    vibPlayMs: nat,
    vibEnabled: bool,
    pin: PinState,
    timer: StopTimer,
    workPending: bool)

  /** A sysfs store's return value together with the chip after it. */
  datatype Store = Store(ret: int, chip: Chip)

  /** The events that drive the chip; each fires atomically. */
  datatype Event =
    | WriteDuration(buf: string)
    | WriteActivate(buf: string)
    | WriteState(buf: string)
    | RunWork
    | TimerFires
    | SetBrightness(level: nat)

  /** The chip invariant: the play time stays within its bounds, including an armed one, and `state` is 0 or 1. */
  predicate Inv(c: Chip)
  {
    && MinPlayMs <= c.vibPlayMs <= MaxPlayMs
    && (c.state == 0 || c.state == 1)
    && (c.timer.TimerArmed? ==> MinPlayMs <= c.timer.ms <= MaxPlayMs)
  }

  /** The chip probe leaves behind: zero-filled, default pins, the 5 s play time. */
  function Probe(): (c: Chip)
    ensures Inv(c)
    ensures c.vibPlayMs == DefaultPlayMs && c.state == 0 && !c.vibEnabled
    ensures c.pin == PinDefault && c.timer == TimerIdle && !c.workPending
  {
    Chip(0, DefaultPlayMs, false, PinDefault, TimerIdle, false)
  }

  /** The play time a non-zero duration write stores: the in-range value closest to the request. */
  function ClampPlayMs(v: nat): (ms: nat)
    ensures MinPlayMs <= ms <= MaxPlayMs
    ensures forall y :: MinPlayMs <= y <= MaxPlayMs ==> Dist(ms, v) <= Dist(y, v)
    ensures MinPlayMs <= v <= MaxPlayMs ==> ms == v
  {
    if v < MinPlayMs then MinPlayMs
    else if v > MaxPlayMs then MaxPlayMs
    else v
  }

  function Dist(a: int, b: int): nat
  {
    if a < b then b - a else a - b
  }

  /**
   * qpnp_vib_store_duration: a parse error is returned and changes nothing, 0
   * is accepted and ignored, anything else is clamped into the play time. The
   * armed timer keeps its duration.
   */
  function StoreDuration(c: Chip, buf: string): (r: Store)
    ensures KStrToUint(buf).Err? ==> r.ret == -(KStrToUint(buf).errno as int) < 0 && r.chip == c
    ensures KStrToUint(buf) == Ok(0) ==> r.ret == |buf| && r.chip == c
    ensures KStrToUint(buf).Ok? && KStrToUint(buf).value != 0 ==>
              r.ret == |buf| && r.chip == c.(vibPlayMs := ClampPlayMs(KStrToUint(buf).value))
    ensures r.chip.timer == c.timer && r.chip.state == c.state && r.chip.pin == c.pin
    ensures Inv(c) ==> Inv(r.chip)
  {
    match KStrToUint(buf)
    case Err(e) => Store(-(e as int), c)
    case Ok(val) =>
      if val == 0 then Store(|buf|, c)
      else
        var ms := if val < MinPlayMs then MinPlayMs else if val > MaxPlayMs then MaxPlayMs else val;
        Store(|buf|, c.(vibPlayMs := ms))
  }

  /**
   * qpnp_vib_store_activate: only 0 and 1 act. They cancel the stop timer,
   * become `state` and queue the worker; any other number is accepted and
   * ignored.
   */
  function StoreActivate(c: Chip, buf: string): (r: Store)
    ensures KStrToUint(buf).Err? ==> r.ret == -(KStrToUint(buf).errno as int) < 0 && r.chip == c
    ensures KStrToUint(buf).Ok? && KStrToUint(buf).value > 1 ==> r.ret == |buf| && r.chip == c
    ensures KStrToUint(buf).Ok? && KStrToUint(buf).value <= 1 ==>
              && r.ret == |buf|
              && r.chip.timer == TimerIdle
              && r.chip.state == KStrToUint(buf).value
              && r.chip.workPending
              && r.chip.vibPlayMs == c.vibPlayMs && r.chip.vibEnabled == c.vibEnabled
              && r.chip.pin == c.pin
    ensures Inv(c) ==> Inv(r.chip)
  {
    match KStrToUint(buf)
    case Err(e) => Store(-(e as int), c)
    case Ok(val) =>
      if val != 0 && val != 1 then Store(|buf|, c)
      else Store(|buf|, c.(timer := TimerIdle, state := val, workPending := true))
  }

  /** qpnp_vib_store_state: accepts every write and changes nothing. */
  function StoreState(c: Chip, buf: string): (r: Store)
    ensures r.ret == |buf| && r.chip == c
  {
    Store(|buf|, c)
  }

  /** qpnp_vib_show_state: "%d\n" of vib_enabled, which reads back as 1 exactly when enabled. */
  function ShowState(c: Chip): (text: string)
    ensures KStrToUint(text) == Ok(if c.vibEnabled then 1 else 0)
  {
    var v := if c.vibEnabled then 1 else 0;
    KStrToUintDecimal(v, true);
    Decimal(v) + "\n"
  }

  /**
   * qpnp_vib_show_duration: the milliseconds left on an armed timer (a clock
   * reading, passed in), and 0 when the timer is idle.
   */
  function ShowDuration(c: Chip, remainingMs: int): (text: string)
    ensures c.timer.TimerIdle? ==> KStrToUint(text) == Ok(0)
    ensures c.timer.TimerArmed? && 0 <= remainingMs < U32Limit ==> KStrToUint(text) == Ok(remainingMs)
    ensures |text| > 0 && (c.timer.TimerArmed? && remainingMs < 0 ==> text[0] == '-')
  {
    var ms := if c.timer.TimerArmed? then remainingMs else 0;
    KStrToUintSignedDecimal(ms);
    var text := SignedDecimal(ms) + "\n";
    assert text[0] == SignedDecimal(ms)[0];
    text
  }

  /**
   * qpnp_vib_work: with a non-zero `state` select the active pins and (re)arm
   * the stop timer for the current play time; otherwise select the default
   * pins and leave the timer alone.
   */
  function Work(c: Chip): (r: Chip)
    ensures !r.workPending
    ensures c.state != 0 ==> r.pin == PinActive && r.timer == TimerArmed(c.vibPlayMs)
    ensures c.state == 0 ==> r.pin == PinDefault && r.timer == c.timer
    ensures r.state == c.state && r.vibPlayMs == c.vibPlayMs && r.vibEnabled == c.vibEnabled
    ensures Inv(c) ==> Inv(r)
  {
    if c.state != 0 then c.(pin := PinActive, timer := TimerArmed(c.vibPlayMs), workPending := false)
    else c.(pin := PinDefault, workPending := false)
  }

  /** vib_stop_timer: clear `state`, queue the worker, and never restart. */
  function TimerExpiry(c: Chip): (r: (HrtimerRestart, Chip))
    requires c.timer.TimerArmed?
    ensures r.0 == NoRestart
    ensures r.1.state == 0 && r.1.timer == TimerIdle && r.1.workPending
    ensures r.1.vibPlayMs == c.vibPlayMs && r.1.vibEnabled == c.vibEnabled && r.1.pin == c.pin
    ensures Inv(c) ==> Inv(r.1)
  {
    (NoRestart, c.(state := 0, timer := TimerIdle, workPending := true))
  }

  /**
   * qpnp_vib_brightness_set: switches the pins directly and records the level
   * in vib_enabled; `state`, the timer and the play time are untouched.
   */
  function BrightnessSet(c: Chip, level: nat): (r: Chip)
    ensures r.vibEnabled <==> level != 0
    ensures r.pin == (if level != 0 then PinActive else PinDefault)
    ensures r.state == c.state && r.timer == c.timer && r.vibPlayMs == c.vibPlayMs
    ensures r.workPending == c.workPending
  {
    if level != 0 then c.(pin := PinActive, vibEnabled := true)
    else c.(pin := PinDefault, vibEnabled := false)
  }

  /**
   * One event. The worker only runs when it is queued, and the timer only
   * fires when it is armed; otherwise the event cannot happen and nothing changes.
   */
  function Fire(c: Chip, e: Event): (r: Chip)
    ensures Inv(c) ==> Inv(r)
  {
    match e
    case WriteDuration(b) => StoreDuration(c, b).chip
    case WriteActivate(b) => StoreActivate(c, b).chip
    case WriteState(b) => StoreState(c, b).chip
    case RunWork => if c.workPending then Work(c) else c
    case TimerFires => if c.timer.TimerArmed? then TimerExpiry(c).1 else c
    case SetBrightness(level) => BrightnessSet(c, level)
  }

  /** The chip after a sequence of events, fired in order. */
  function Run(c: Chip, es: seq<Event>): Chip
    decreases |es|
  {
    if |es| == 0 then c else Run(Fire(c, es[0]), es[1..])
  }

  /** Two events run one after the other. */
  lemma RunTwo(c: Chip, e1: Event, e2: Event)
    ensures Run(c, [e1, e2]) == Fire(Fire(c, e1), e2)
  {
    var c1 := Fire(c, e1);
    assert [e1, e2][1..] == [e2];
    assert Run(c, [e1, e2]) == Run(c1, [e2]);
    assert [e2][1..] == [];
    assert Run(c1, [e2]) == Run(Fire(c1, e2), []);
  }

  /** Every event sequence keeps the chip invariant. */
  lemma {:induction false} RunKeepsInv(c: Chip, es: seq<Event>)
    requires Inv(c)
    ensures Inv(Run(c, es))
    decreases |es|
  {
    if |es| > 0 {
      RunKeepsInv(Fire(c, es[0]), es[1..]);
    }
  }

  /** From probe on, whatever happens, the play time stays within 50..15000 ms. */
  lemma PlayTimeAlwaysInRange(es: seq<Event>)
    ensures MinPlayMs <= Run(Probe(), es).vibPlayMs <= MaxPlayMs
    ensures Run(Probe(), es).state in {0, 1}
  {
    RunKeepsInv(Probe(), es);
  }

  predicate NoActivate(es: seq<Event>)
  {
    forall i :: 0 <= i < |es| ==> !es[i].WriteActivate?
  }

  /**
   * The stop timer is one-shot: once `state` is 0 and the timer idle, as
   * after an expiry, no sequence of events without an activate write arms it
   * again or sets `state`.
   */
  lemma {:induction false} NoRearmWithoutActivate(c: Chip, es: seq<Event>)
    requires c.state == 0 && c.timer == TimerIdle
    requires NoActivate(es)
    ensures Run(c, es).state == 0 && Run(c, es).timer == TimerIdle
    decreases |es|
  {
    if |es| > 0 {
      assert !es[0].WriteActivate?;
      var c' := Fire(c, es[0]);
      assert c'.state == 0 && c'.timer == TimerIdle;
      assert NoActivate(es[1..]) by {
        forall i | 0 <= i < |es[1..]| ensures !es[1..][i].WriteActivate? {
          assert es[1..][i] == es[i + 1];
        }
      }
      NoRearmWithoutActivate(c', es[1..]);
    }
  }

  /**
   * Expiry reverts the vibrator exactly once: the queued worker selects the
   * default pins without arming the timer, and a second worker run is not queued.
   */
  lemma ExpiryRevertsOnce(c: Chip)
    requires c.timer.TimerArmed?
    ensures var c2 := Run(c, [TimerFires, RunWork]);
      && c2.pin == PinDefault && c2.timer == TimerIdle && c2.state == 0 && !c2.workPending
      && Fire(c2, RunWork) == c2
  {
    RunTwo(c, TimerFires, RunWork);
  }

  /**
   * Writing 1 to activate and letting the worker run vibrates for the current
   * play time, even if the timer was already armed: the deadline restarts.
   */
  lemma ActivateStartsTimer(c: Chip, buf: string)
    requires KStrToUint(buf) == Ok(1)
    ensures var c2 := Run(c, [WriteActivate(buf), RunWork]);
      c2.pin == PinActive && c2.timer == TimerArmed(c.vibPlayMs) && c2.state == 1
  {
    RunTwo(c, WriteActivate(buf), RunWork);
  }

  /** Writing 0 to activate and letting the worker run stops the vibrator and leaves the timer idle. */
  lemma DeactivateStops(c: Chip, buf: string)
    requires KStrToUint(buf) == Ok(0)
    ensures var c2 := Run(c, [WriteActivate(buf), RunWork]);
      c2.pin == PinDefault && c2.timer == TimerIdle && c2.state == 0
  {
    RunTwo(c, WriteActivate(buf), RunWork);
  }

  /**
   * Two duration writes serialised by the chip lock: the stored play time is
   * the clamped value of whichever ran last, never a mix.
   */
  lemma LastDurationWriteWins(c: Chip, first: string, second: string)
    requires KStrToUint(second).Ok? && KStrToUint(second).value != 0
    ensures Run(c, [WriteDuration(first), WriteDuration(second)]).vibPlayMs ==
            ClampPlayMs(KStrToUint(second).value)
  {
    RunTwo(c, WriteDuration(first), WriteDuration(second));
  }

  /** A duration write reads back through kstrtouint's grammar: writing "40" stores 50, "20000" stores 15000. */
  lemma DurationWriteClampsText()
    ensures StoreDuration(Probe(), Decimal(40) + "\n").chip.vibPlayMs == MinPlayMs
    ensures StoreDuration(Probe(), Decimal(20000) + "\n").chip.vibPlayMs == MaxPlayMs
  {
    KStrToUintDecimal(40, true);
    KStrToUintDecimal(20000, true);
  }
}
