/** The repeating-timer callback `blink_red_led` and its static latch `led_state`. */
module Blink {
  /** The latch after `calls` callbacks, starting from `false`: on exactly after
      an odd number of them. */
  function LatchAfter(calls: nat): (on: bool)
    ensures on == (calls % 2 == 1)
  {
    if calls == 0 then false else !LatchAfter(calls - 1)
  }

  /** Ten callbacks (one second at the 100 ms period) bring the LED back to the
      same level, having toggled it ten times. */
  lemma LatchPeriod(calls: nat)
    ensures LatchAfter(calls + 10) == LatchAfter(calls)
    ensures forall k :: calls < k <= calls + 10 ==> LatchAfter(k) != LatchAfter(k - 1)
  {
  }

  /** The timer state: the latch and the red LED pin it drives. */
  class BlinkTimer {
    var ledState: bool
    var redPin: bool
    ghost var Calls: nat

    ghost predicate Valid()
      reads this
    {
      ledState == LatchAfter(Calls) && redPin == ledState
    }

    /** Power-on: the latch starts `false` and `init_led_rgb` drives the pin low. */
    constructor ()
      ensures Valid() && Calls == 0 && !ledState && !redPin
    {
      ledState := false;
      redPin := false;
      Calls := 0;
    }

    /** `blink_red_led`: flips the latch, drives the pin to it, and asks the timer
        to keep repeating. */
    method BlinkRedLed() returns (repeat: bool)
      requires Valid()
      modifies this
      ensures Valid() && Calls == old(Calls) + 1
      ensures ledState == !old(ledState) && redPin == ledState
      ensures repeat
    {
      ledState := !ledState;
      redPin := ledState;
      Calls := Calls + 1;
      repeat := true;
    }
  }
}
