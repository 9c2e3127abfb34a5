/** The debounced button handler `button_callback`, as a transition on the four
    globals it shares with the main loop. */
module Buttons {
  import opened Widths
  import opened Glyphs

  /** `PIN_BUTTON_A`: increments the digit. */
  const PinButtonA: uint32 := 5
  /** `PIN_BUTTON_B`: decrements the digit. */
  const PinButtonB: uint32 := 6
  /** `DEBOUNCE_MS`. */
  const DebounceMs: uint64 := 150

  /** The globals `g_current_number`, `g_update_requested`, `last_press_a`, `last_press_b`. */
  datatype Shared = Shared(currentNumber: int, updateRequested: bool, lastPressA: uint64, lastPressB: uint64)

  /** Their initial values: digit 0, a redraw requested, both timestamps 0. */
  const Boot: Shared := Shared(0, true, 0, 0)

  /** The invariant the handler keeps: the digit indexes the glyph table. */
  predicate Valid(s: Shared)
  {
    IsDigit(s.currentNumber)
  }

  /** The debounce test: fewer than `DEBOUNCE_MS` milliseconds since the last
      accepted press, measured by unsigned 64-bit subtraction. Once the clock has
      reached the last accepted press, it is the plain difference `now - last < 150`. */
  predicate Bounced(now: uint64, last: uint64)
    ensures last <= now ==> (Bounced(now, last) <==> now as int - last as int < 150)
  {
    Sub64(now, last) < DebounceMs
  }

  /** `g_current_number++`, then back to 0 past 9. */
  function Increment(d: int): (r: int)
    ensures IsDigit(d) ==> IsDigit(r) && r == (d + 1) % 10
  {
    if d + 1 > 9 then 0 else d + 1
  }

  /** `g_current_number--`, then up to 9 below 0. */
  function Decrement(d: int): (r: int)
    ensures IsDigit(d) ==> IsDigit(r) && r == (d + 9) % 10 && r == (d - 1 + 10) % 10
  {
    if d - 1 < 0 then 9 else d - 1
  }

  /** Whether the handler accepts an interrupt from `gpio` at time `now`. */
  predicate Accepted(s: Shared, gpio: uint32, now: uint64)
  {
    || (gpio == PinButtonA && !Bounced(now, s.lastPressA))
    || (gpio == PinButtonB && !Bounced(now, s.lastPressB))
  }

  /** `button_callback(gpio, events)` with the clock reading `now`. */
  function OnPress(s: Shared, gpio: uint32, now: uint64): (t: Shared)
    ensures Valid(s) ==> Valid(t)
    ensures !Accepted(s, gpio, now) ==> t == s
    ensures Accepted(s, gpio, now) ==> t.updateRequested
    ensures t.lastPressA == if gpio == PinButtonA && Accepted(s, gpio, now) then now else s.lastPressA
    ensures t.lastPressB == if gpio == PinButtonB && Accepted(s, gpio, now) then now else s.lastPressB
  {
    if gpio == PinButtonA then
      if Bounced(now, s.lastPressA) then s
      else s.(lastPressA := now, currentNumber := Increment(s.currentNumber), updateRequested := true)
    else if gpio == PinButtonB then
      if Bounced(now, s.lastPressB) then s
      else s.(lastPressB := now, currentNumber := Decrement(s.currentNumber), updateRequested := true)
    else
      s
  }

  /** Both timestamps start at 0, so any press in the first 150 ms after boot is ignored. */
  lemma EarlyPressIgnored(gpio: uint32, now: uint64)
    requires now < 150
    ensures OnPress(Boot, gpio, now) == Boot
  {
  }

  /** An accepted press of A advances the digit modulo 10, records `now` as A's
      last press, requests a redraw and leaves B's timestamp alone. */
  lemma PressA(s: Shared, now: uint64)
    requires Valid(s) && !Bounced(now, s.lastPressA)
    ensures OnPress(s, PinButtonA, now)
            == Shared((s.currentNumber + 1) % 10, true, now, s.lastPressB)
  {
  }

  /** An accepted press of B steps the digit back modulo 10, records `now` as B's
      last press, requests a redraw and leaves A's timestamp alone. */
  lemma PressB(s: Shared, now: uint64)
    requires Valid(s) && !Bounced(now, s.lastPressB)
    ensures OnPress(s, PinButtonB, now)
            == Shared((s.currentNumber + 9) % 10, true, s.lastPressA, now)
  {
  }

  /** A press is ignored, leaving every global as it was, exactly when it is not
      accepted: inside its button's debounce window, or from another pin. */
  lemma IgnoredIffNotAccepted(s: Shared, gpio: uint32, now: uint64)
    requires Valid(s)
    ensures OnPress(s, gpio, now) == s <==> !Accepted(s, gpio, now)
  {
  }

  /** Stepping forward and back (either order) returns to the same digit. */
  lemma IncrementDecrementInverse(d: int)
    requires IsDigit(d)
    ensures Decrement(Increment(d)) == d && Increment(Decrement(d)) == d
  {
  }

  /** An accepted A followed by an accepted B restores the digit. */
  lemma PressAThenB(s: Shared, t1: uint64, t2: uint64)
    requires Valid(s) && !Bounced(t1, s.lastPressA) && !Bounced(t2, s.lastPressB)
    ensures OnPress(OnPress(s, PinButtonA, t1), PinButtonB, t2).currentNumber == s.currentNumber
  {
    IncrementDecrementInverse(s.currentNumber);
  }

  /** One interrupt: the pin that signalled it and the clock reading when it ran. */
  datatype Press = Press(gpio: uint32, now: uint64)

  /** The globals after a series of interrupts, each handled atomically in turn. */
  function Replay(s: Shared, presses: seq<Press>): (t: Shared)
    decreases |presses|
  {
    if presses == [] then s
    else Replay(OnPress(s, presses[0].gpio, presses[0].now), presses[1..])
  }

  /** How many presses of A, and of B, the handler accepts along `presses`. */
  function AcceptedCount(s: Shared, presses: seq<Press>, button: uint32): (n: nat)
    decreases |presses|
  {
    if presses == [] then 0
    else
      var p := presses[0];
      (if p.gpio == button && Accepted(s, p.gpio, p.now) then 1 else 0)
      + AcceptedCount(OnPress(s, p.gpio, p.now), presses[1..], button)
  }

  /** Adding after reducing modulo 10 is adding before it. */
  lemma ModShift(a: int, k: int)
    ensures (a % 10 + k) % 10 == (a + k) % 10
  {
  }

  /** After any series of interrupts the digit is the start digit plus the accepted
      A presses minus the accepted B presses, modulo 10; and a redraw is requested
      exactly when one was already pending or some press was accepted. */
  lemma {:induction false} ReplayNet(s: Shared, presses: seq<Press>)
    requires Valid(s)
    ensures Valid(Replay(s, presses))
    ensures Replay(s, presses).currentNumber
            == (s.currentNumber + AcceptedCount(s, presses, PinButtonA)
                                - AcceptedCount(s, presses, PinButtonB)) % 10
    ensures Replay(s, presses).updateRequested
            == (s.updateRequested || AcceptedCount(s, presses, PinButtonA) + AcceptedCount(s, presses, PinButtonB) > 0)
    decreases |presses|
  {
    if presses != [] {
      var p := presses[0];
      var s' := OnPress(s, p.gpio, p.now);
      ReplayNet(s', presses[1..]);
      var up: int := AcceptedCount(s', presses[1..], PinButtonA);
      var down: int := AcceptedCount(s', presses[1..], PinButtonB);
      if p.gpio == PinButtonA && Accepted(s, p.gpio, p.now) {
        ModShift(s.currentNumber + 1, up - down);
      } else if p.gpio == PinButtonB && Accepted(s, p.gpio, p.now) {
        ModShift(s.currentNumber + 9, up - down);
        assert (s.currentNumber + 9 + up - down) % 10 == (s.currentNumber + up - (down + 1)) % 10;
      }
    }
  }

  /** Interrupt times that never go backwards. */
  predicate Chronological(presses: seq<Press>)
  {
    forall i, j :: 0 <= i < j < |presses| ==> presses[i].now <= presses[j].now
  }

  /** With a clock that never goes backwards, each button's last accepted press
      only moves forward and never passes the latest interrupt time. */
  lemma {:induction false} ReplayTimestampsMonotone(s: Shared, presses: seq<Press>)
    requires Chronological(presses)
    requires forall i :: 0 <= i < |presses| ==> s.lastPressA <= presses[i].now && s.lastPressB <= presses[i].now
    ensures s.lastPressA <= Replay(s, presses).lastPressA
    ensures s.lastPressB <= Replay(s, presses).lastPressB
    ensures presses != [] ==> Replay(s, presses).lastPressA <= presses[|presses| - 1].now
    ensures presses != [] ==> Replay(s, presses).lastPressB <= presses[|presses| - 1].now
    decreases |presses|
  {
    if presses != [] {
      var s' := OnPress(s, presses[0].gpio, presses[0].now);
      ReplayTimestampsMonotone(s', presses[1..]);
    }
  }

  /** Replaying two presses is handling the first, then the second. */
  lemma TwoPresses(s: Shared, p1: Press, p2: Press)
    ensures Replay(s, [p1, p2]) == OnPress(OnPress(s, p1.gpio, p1.now), p2.gpio, p2.now)
  {
    var s1 := OnPress(s, p1.gpio, p1.now);
    assert [p1, p2][1..] == [p2];
    assert Replay(s, [p1, p2]) == Replay(s1, [p2]);
    assert [p2][1..] == [];
    assert Replay(s1, [p2]) == Replay(OnPress(s1, p2.gpio, p2.now), []);
  }

  /** Two presses of A less than 150 ms apart advance the digit once; the second is ignored. */
  lemma DoublePressWithinWindow(s: Shared, t1: uint64, t2: uint64)
    requires Valid(s) && !Bounced(t1, s.lastPressA) && t1 <= t2 && t2 as int - t1 as int < 150
    ensures Replay(s, [Press(PinButtonA, t1), Press(PinButtonA, t2)]) == OnPress(s, PinButtonA, t1)
    ensures Replay(s, [Press(PinButtonA, t1), Press(PinButtonA, t2)]).currentNumber == (s.currentNumber + 1) % 10
  {
    var s1 := OnPress(s, PinButtonA, t1);
    TwoPresses(s, Press(PinButtonA, t1), Press(PinButtonA, t2));
  }

  /** Two presses of A at least 150 ms apart advance the digit twice. */
  lemma DoublePressApart(s: Shared, t1: uint64, t2: uint64)
    requires Valid(s) && !Bounced(t1, s.lastPressA) && t1 as int + 150 <= t2 as int
    ensures Replay(s, [Press(PinButtonA, t1), Press(PinButtonA, t2)]).currentNumber == (s.currentNumber + 2) % 10
  {
    var s1 := OnPress(s, PinButtonA, t1);
    TwoPresses(s, Press(PinButtonA, t1), Press(PinButtonA, t2));
  }

  /** From boot: A at 1 s shows 1; then B twice 100 ms apart steps back once, to 0. */
  lemma BootScenario()
    ensures OnPress(Boot, PinButtonA, 1000) == Shared(1, true, 1000, 0)
    ensures Replay(Boot, [Press(PinButtonA, 1000), Press(PinButtonB, 2000), Press(PinButtonB, 2100)])
            == Shared(0, true, 1000, 2000)
  {
    var s1 := OnPress(Boot, PinButtonA, 1000);
    assert s1 == Shared(1, true, 1000, 0);
    TwoPresses(s1, Press(PinButtonB, 2000), Press(PinButtonB, 2100));
    var ps := [Press(PinButtonA, 1000), Press(PinButtonB, 2000), Press(PinButtonB, 2100)];
    assert ps[1..] == [Press(PinButtonB, 2000), Press(PinButtonB, 2100)];
  }
}
