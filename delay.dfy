/** The capture thread's polling delay and connection flag (class ADB).
    The wait itself, on a condition variable under a mutex, is not part of
    this model; what is kept is the delay value and how many times the
    waiting thread is woken. */
module Delay {

  /** increaseDelay's step: one more step while below the maximum. */
  function Increased(d: int, max: int, step: int): (r: int)
    ensures d < max ==> r == d + step
    ensures d >= max ==> r == d
  {
    if d < max then d + step else d
  }

  /** The delay after n calls of increaseDelay, starting from d. */
  function IncreasedTimes(d: int, max: int, step: int, n: nat): int
    decreases n
  {
    if n == 0 then d else IncreasedTimes(Increased(d, max, step), max, step, n - 1)
  }

  /** With a positive step the delay never goes down, and once it is at or
      beyond the maximum further increases leave it where it is. */
  lemma IncreasedMonotone(d: int, max: int, step: int)
    requires step > 0
    ensures Increased(d, max, step) >= d
    ensures d >= max ==> Increased(Increased(d, max, step), max, step) == Increased(d, max, step)
  {
  }

  /** Starting at or below the maximum, repeated increases stay below
      max + step: the delay overshoots the maximum by less than one step. */
  lemma {:induction false} IncreasedTimesBounded(d: int, max: int, step: int, n: nat)
    requires step > 0 && d < max + step
    decreases n
    ensures d <= IncreasedTimes(d, max, step, n) < max + step
  {
    if n > 0 {
      IncreasedTimesBounded(Increased(d, max, step), max, step, n - 1);
    }
  }

  /** After n increases from d the delay is d + n steps, until it first
      reaches the maximum; from there on it stays put. */
  lemma {:induction false} IncreasedTimesValue(d: int, max: int, step: int, n: nat)
    requires step > 0
    decreases n
    ensures d + n * step <= max ==> IncreasedTimes(d, max, step, n) == d + n * step
    ensures d >= max ==> IncreasedTimes(d, max, step, n) == d
  {
    if n > 0 {
      IncreasedTimesValue(Increased(d, max, step), max, step, n - 1);
      if d + n * step <= max {
        assert d < max;
        assert Increased(d, max, step) + (n - 1) * step == d + n * step;
      }
    }
  }

  class Adb {
    /** DELAY_FAST, DELAY_MAX and DELAY_STEP. */
    const delayFast: int
    const delayMax: int
    const delayStep: int

    var delay: int
    var connected: bool
    /** How many times the delay condition has been signalled (wakeAll). */
    var wakeups: nat

    constructor (fast: int, max: int, step: int)
      ensures delayFast == fast && delayMax == max && delayStep == step
      ensures delay == fast && !connected && wakeups == 0
    {
      delayFast, delayMax, delayStep := fast, max, step;
      delay := fast;
      connected := false;
      wakeups := 0;
    }

    /** setDelay: stores the new delay and wakes the waiting thread, every
        time, whether or not the value changed. */
    method SetDelay(d: int)
      modifies this
      ensures delay == d && wakeups == old(wakeups) + 1 && connected == old(connected)
    {
      delay := d;
      wakeups := wakeups + 1;
    }

    /** increaseDelay: one step more while below the maximum; returns the
        delay now in force. Nothing is woken. */
    method IncreaseDelay() returns (r: int)
      modifies this
      ensures delay == Increased(old(delay), delayMax, delayStep) && r == delay
      ensures connected == old(connected) && wakeups == old(wakeups)
    {
      if delay < delayMax {
        delay := delay + delayStep;
      }
      r := delay;
    }

    /** ADB::setConnected, which adbfb.cpp calls but does not define; it is
        taken to store the flag and nothing else. */
    method SetConnected(state: bool)
      modifies this
      ensures connected == state && delay == old(delay) && wakeups == old(wakeups)
    {
      connected := state;
    }
  }
}
