/** Tick arithmetic and the two delay disciplines used by the demo's tasks.
    The tick counter is a 32-bit unsigned TickType_t, so every wake time is
    computed modulo 2^32. */
module Ticks {

  const TICK_MODULUS: nat := 0x1_0000_0000

  /** A value of the 32-bit tick counter. */
  type Tick = t: nat | t < TICK_MODULUS

  /** portTICK_PERIOD_MS for a 1000 Hz tick. */
  const TICK_PERIOD_MS: nat := 1

  /** mainCHECK_DELAY: period of the check task, 5000 ms in ticks. */
  const CHECK_DELAY: Tick := 5000 / TICK_PERIOD_MS

  /** tempSENSOR_DELAY: delay of the temperature task, 100 ms in ticks (10 Hz). */
  const SENSOR_DELAY: Tick := 100 / TICK_PERIOD_MS

  /** Wrapping addition on the tick counter. */
  function AddTicks(t: Tick, d: nat): Tick
  {
    (t + d) % TICK_MODULUS
  }

  /** vTaskDelayUntil(&previousWake, increment): the caller's wake time is
      advanced from its PREVIOUS wake time, never from the current time. */
  function DelayUntil(previousWake: Tick, increment: Tick): (wake: Tick)
    ensures wake == if previousWake + increment < TICK_MODULUS
                    then previousWake + increment
                    else previousWake + increment - TICK_MODULUS
  {
    AddTicks(previousWake, increment)
  }

  /** vTaskDelay(ticks) called at tick `now`: the caller wakes `ticks` after now. */
  function Delay(now: Tick, ticks: Tick): (wake: Tick)
    ensures wake == if now + ticks < TICK_MODULUS then now + ticks else now + ticks - TICK_MODULUS
  {
    AddTicks(now, ticks)
  }

  /** Wake time after k anchored cycles of period `period` starting from t0. */
  function AnchoredWake(t0: Tick, period: Tick, k: nat): Tick
  {
    if k == 0 then t0 else DelayUntil(AnchoredWake(t0, period, k - 1), period)
  }

  /** Wake time after the cycles whose bodies (including any time blocked on
      the queue) took busy[0], busy[1], ... ticks, when each cycle ends with a
      relative delay of `period`. */
  function RelativeWake(t0: Tick, period: Tick, busy: seq<nat>): Tick
  {
    if busy == [] then t0
    else
      var last := RelativeWake(t0, period, busy[..|busy| - 1]);
      Delay(AddTicks(last, busy[|busy| - 1]), period)
  }

  function Sum(s: seq<nat>): nat
  {
    if s == [] then 0 else Sum(s[..|s| - 1]) + s[|s| - 1]
  }

  /** Reducing an intermediate sum modulo 2^32 does not change the final tick. */
  lemma ModAbsorb(a: int, b: int)
    ensures (a % TICK_MODULUS + b) % TICK_MODULUS == (a + b) % TICK_MODULUS
  {
    var q := a / TICK_MODULUS;
    assert a == q * TICK_MODULUS + a % TICK_MODULUS;
    ModShift(a % TICK_MODULUS + b, q);
  }

  lemma ModShift(x: int, q: int)
    ensures (x + q * TICK_MODULUS) % TICK_MODULUS == x % TICK_MODULUS
  {
  }

  /** The anchored schedule: the k-th wake is t0 + k * period (mod 2^32),
      whatever the task did between its wakes. */
  lemma {:induction false} AnchoredWakeClosedForm(t0: Tick, period: Tick, k: nat)
    ensures AnchoredWake(t0, period, k) == (t0 + k * period) % TICK_MODULUS
  {
    if k > 0 {
      AnchoredWakeClosedForm(t0, period, k - 1);
      ModAbsorb(t0 + (k - 1) * period, period);
      assert (k - 1) * period + period == k * period;
    }
  }

  /** The relative schedule drifts: every tick a cycle body takes is added to
      all later wake times. */
  lemma {:induction false} RelativeWakeClosedForm(t0: Tick, period: Tick, busy: seq<nat>)
    ensures RelativeWake(t0, period, busy) == (t0 + |busy| * period + Sum(busy)) % TICK_MODULUS
  {
    if busy != [] {
      var init := busy[..|busy| - 1];
      var b := busy[|busy| - 1];
      RelativeWakeClosedForm(t0, period, init);
      var x := t0 + |init| * period + Sum(init);
      assert |busy| * period == |init| * period + period;
      calc {
        RelativeWake(t0, period, busy);
        ((x % TICK_MODULUS + b) % TICK_MODULUS + period) % TICK_MODULUS;
        { ModAbsorb(x, b); }
        ((x + b) % TICK_MODULUS + period) % TICK_MODULUS;
        { ModAbsorb(x + b, period); }
        (x + b + period) % TICK_MODULUS;
      }
    }
  }

  /** Until the tick counter wraps, the k-th wake of an anchored task is
      exactly t0 + k * period. */
  lemma AnchoredWakeBeforeWrap(t0: Tick, period: Tick, k: nat)
    requires t0 + k * period < TICK_MODULUS
    ensures AnchoredWake(t0, period, k) == t0 + k * period
  {
    AnchoredWakeClosedForm(t0, period, k);
  }
}
