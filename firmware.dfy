/** `main`: the globals shared by the button interrupt and the polling loop, the
    loop's redraw step, and the program run as an interleaving of interrupts and
    loop iterations, each taken as one atomic step. */
module Firmware {
  import opened Widths
  import opened Glyphs
  import opened Matrix
  import opened Buttons

  /** One atomic step of the running program: a button interrupt, or one pass of
      the main loop's body. */
  datatype Event = Interrupt(gpio: uint32, events: uint32, now: uint64) | Poll

  /** The body of the main loop: redraw when asked to, then clear the request.
      Gives the new globals and the words sent to the chain. */
  function Redraw(s: Shared): (r: (Shared, seq<bv32>))
    requires Valid(s)
    ensures r.0 == s.(updateRequested := false)
    ensures |r.1| == if s.updateRequested then NumPixels else 0
    ensures s.updateRequested ==> r.1 == Frame(s.currentNumber)
  {
    FrameShape(s.currentNumber);
    if s.updateRequested then (s.(updateRequested := false), Frame(s.currentNumber))
    else (s, [])
  }

  /** `f` is the frame of some digit. */
  ghost predicate IsFrame(f: seq<bv32>)
  {
    exists d :: IsDigit(d) && f == Frame(d)
  }

  /** `out` is a series of whole frames, each showing some digit. */
  ghost predicate WholeFrames(out: seq<bv32>)
    decreases |out|
  {
    out == [] || (|out| >= NumPixels && IsFrame(out[..NumPixels]) && WholeFrames(out[NumPixels..]))
  }

  /** Sending whole frames after whole frames sends whole frames. */
  lemma {:induction false} WholeFramesAppend(a: seq<bv32>, b: seq<bv32>)
    requires WholeFrames(a) && WholeFrames(b)
    ensures WholeFrames(a + b)
    decreases |a|
  {
    if a == [] {
      assert a + b == b;
    } else {
      WholeFramesAppend(a[NumPixels..], b);
      assert (a + b)[..NumPixels] == a[..NumPixels];
      assert (a + b)[NumPixels..] == a[NumPixels..] + b;
    }
  }

  /** One atomic step: the interrupt handler, or the loop body. */
  function Step(s: Shared, e: Event): (r: (Shared, seq<bv32>))
    requires Valid(s)
    ensures Valid(r.0)
    ensures |r.1| % NumPixels == 0
    ensures WholeFrames(r.1)
  {
    match e
    case Interrupt(gpio, _, now) =>
      (OnPress(s, gpio, now), [])
    case Poll =>
      FrameShape(s.currentNumber);
      var f := Frame(s.currentNumber);
      assert f[..NumPixels] == f && f[NumPixels..] == [];
      assert IsFrame(f[..NumPixels]);
      Redraw(s)
  }

  /** The globals after a schedule of steps, and everything sent meanwhile; the
      digit stays in range and the chain only ever receives whole frames. */
  function Run(s: Shared, schedule: seq<Event>): (r: (Shared, seq<bv32>))
    requires Valid(s)
    ensures Valid(r.0)
    ensures |r.1| % NumPixels == 0
    ensures WholeFrames(r.1)
    decreases |schedule|
  {
    if schedule == [] then (s, [])
    else
      var (t, out) := Run(s, schedule[..|schedule| - 1]);
      var (t', more) := Step(t, schedule[|schedule| - 1]);
      WholeFramesAppend(out, more);
      (t', out + more)
  }

  /** Running one more step extends the run by that step. */
  lemma RunSnoc(s: Shared, schedule: seq<Event>, e: Event)
    requires Valid(s)
    ensures Run(s, schedule + [e]).0 == Step(Run(s, schedule).0, e).0
    ensures Run(s, schedule + [e]).1 == Run(s, schedule).1 + Step(Run(s, schedule).0, e).1
  {
    assert (schedule + [e])[..|schedule|] == schedule;
  }

  /** From power-on: the first loop pass sends digit 0; A at 1000 ms and a pass
      send digit 1; B at 2000 ms and again at 2100 ms (ignored) and a pass send
      digit 0. */
  lemma BootScenarioFrames()
    ensures Run(Boot, [Poll, Interrupt(PinButtonA, 0, 1000), Poll,
                       Interrupt(PinButtonB, 0, 2000), Interrupt(PinButtonB, 0, 2100), Poll]).1
            == Frame(0) + Frame(1) + Frame(0)
  {
    var a1, b1, b2 := Interrupt(PinButtonA, 0, 1000), Interrupt(PinButtonB, 0, 2000), Interrupt(PinButtonB, 0, 2100);
    var e1 := [Poll];
    var e2 := e1 + [a1];
    var e3 := e2 + [Poll];
    var e4 := e3 + [b1];
    var e5 := e4 + [b2];
    var e6 := e5 + [Poll];
    assert [] + [Poll] == e1;
    RunSnoc(Boot, [], Poll);
    assert Run(Boot, []) == (Boot, []);
    assert [] + Frame(0) == Frame(0);
    assert Run(Boot, e1) == (Shared(0, false, 0, 0), Frame(0));
    RunSnoc(Boot, e1, a1);
    assert Frame(0) + [] == Frame(0);
    assert !Bounced(1000, 0);
    assert Run(Boot, e2) == (Shared(1, true, 1000, 0), Frame(0));
    RunSnoc(Boot, e2, Poll);
    assert Run(Boot, e3) == (Shared(1, false, 1000, 0), Frame(0) + Frame(1));
    RunSnoc(Boot, e3, b1);
    assert Frame(0) + Frame(1) + [] == Frame(0) + Frame(1);
    assert !Bounced(2000, 0);
    assert Run(Boot, e4) == (Shared(0, true, 1000, 2000), Frame(0) + Frame(1));
    RunSnoc(Boot, e4, b2);
    assert Run(Boot, e5) == (Shared(0, true, 1000, 2000), Frame(0) + Frame(1));
    RunSnoc(Boot, e5, Poll);
    assert e6 == [Poll, a1, Poll, b1, b2, Poll];
  }

  /** The display is up to date: unless a redraw is pending, the last frame sent
      shows the current digit. */
  ghost predicate ShowsDigit(s: Shared, sent: seq<bv32>)
    requires Valid(s)
  {
    !s.updateRequested ==>
      |sent| >= NumPixels && sent[|sent| - NumPixels..] == Frame(s.currentNumber)
  }

  /** After a pass of the loop body no redraw is pending and the last frame on the
      chain shows the current digit; a second pass sends nothing. */
  lemma RedrawClears(s: Shared, sent: seq<bv32>)
    requires Valid(s) && ShowsDigit(s, sent)
    ensures !Redraw(s).0.updateRequested
    ensures Redraw(s).0.currentNumber == s.currentNumber
    ensures ShowsDigit(Redraw(s).0, sent + Redraw(s).1)
    ensures Redraw(Redraw(s).0).1 == []
  {
    if s.updateRequested {
      FrameShape(s.currentNumber);
      var out := sent + Frame(s.currentNumber);
      assert out[|out| - NumPixels..] == Frame(s.currentNumber);
    }
  }

  /** A single step keeps the display up to date or leaves a redraw pending. */
  lemma StepShowsDigit(s: Shared, sent: seq<bv32>, e: Event)
    requires Valid(s) && ShowsDigit(s, sent)
    ensures ShowsDigit(Step(s, e).0, sent + Step(s, e).1)
  {
    match e
    case Interrupt(gpio, _, now) =>
      assert sent + [] == sent;
    case Poll =>
      RedrawClears(s, sent);
  }

  /** No interleaving of interrupts and loop passes leaves a stale display without
      a redraw request pending. */
  lemma {:induction false} RunShowsDigit(s: Shared, sent: seq<bv32>, schedule: seq<Event>)
    requires Valid(s) && ShowsDigit(s, sent)
    ensures ShowsDigit(Run(s, schedule).0, sent + Run(s, schedule).1)
    decreases |schedule|
  {
    if schedule != [] {
      var init, e := schedule[..|schedule| - 1], schedule[|schedule| - 1];
      assert init + [e] == schedule;
      RunShowsDigit(s, sent, init);
      RunSnoc(s, init, e);
      var (t, out) := Run(s, init);
      StepShowsDigit(t, sent + out, e);
      assert sent + (out + Step(t, e).1) == (sent + out) + Step(t, e).1;
    }
  }

  /** At power-on the initial draw and the first loop pass (the request flag starts
      set) both send digit 0's frame, before any button is pressed. */
  lemma StartupDrawsZeroTwice()
    ensures Frame(Boot.currentNumber) + Run(Boot, [Poll]).1 == Frame(0) + Frame(0)
    ensures !Run(Boot, [Poll]).0.updateRequested
  {
    assert [Poll][..0] == [];
  }

  /** The globals of lines 43-47 and the transport the loop draws on. */
  class Controller {
    var currentNumber: int
    var updateRequested: bool
    var lastPressA: uint64
    var lastPressB: uint64
    const pio: PixelTransport

    /** The globals as one value. */
    function Globals(): Shared
      reads this
    {
      Shared(currentNumber, updateRequested, lastPressA, lastPressB)
    }

    /** The initial values of the globals. */
    constructor (pio: PixelTransport)
      ensures Globals() == Boot && this.pio == pio
    {
      currentNumber := 0;
      updateRequested := true;
      lastPressA := 0;
      lastPressB := 0;
      this.pio := pio;
    }

    /** `button_callback`, with the clock reading passed in as `now`. */
    method ButtonCallback(gpio: uint32, events: uint32, now: uint64)
      modifies this
      ensures Globals() == OnPress(old(Globals()), gpio, now)
    {
      var nowMs := now;
      if gpio == PinButtonA {
        if Sub64(nowMs, lastPressA) < DebounceMs {
          return;
        }
        lastPressA := nowMs;
        currentNumber := currentNumber + 1;
        if currentNumber > 9 {
          currentNumber := 0;
        }
        updateRequested := true;
      } else if gpio == PinButtonB {
        if Sub64(nowMs, lastPressB) < DebounceMs {
          return;
        }
        lastPressB := nowMs;
        currentNumber := currentNumber - 1;
        if currentNumber < 0 {
          currentNumber := 9;
        }
        updateRequested := true;
      }
    }

    /** `update_matrix(g_current_number)`. */
    method DrawCurrent()
      requires Valid(Globals())
      modifies pio
      ensures pio.Sent == old(pio.Sent) + Frame(currentNumber)
    {
      UpdateMatrix(pio, currentNumber);
    }

    /** One pass of the main loop's body (the sleep is left out). */
    method PollOnce()
      requires Valid(Globals())
      modifies this, pio
      ensures Globals() == Redraw(old(Globals())).0
      ensures pio.Sent == old(pio.Sent) + Redraw(old(Globals())).1
    {
      if updateRequested {
        DrawCurrent();
        updateRequested := false;
      }
    }

    /** Button interrupts that arrive during set-up, before the first draw: the
        globals change as the handler prescribes and nothing is sent. */
    method DeliverSetup(setup: seq<Event>)
      requires Valid(Globals())
      requires forall k :: 0 <= k < |setup| ==> setup[k].Interrupt?
      modifies this
      ensures Globals() == Run(old(Globals()), setup).0
      ensures Run(old(Globals()), setup).1 == []
    {
      ghost var start := Globals();
      for k := 0 to |setup|
        invariant Globals() == Run(start, setup[..k]).0
        invariant Run(start, setup[..k]).1 == []
      {
        assert setup[..k + 1][..k] == setup[..k];
        ButtonCallback(setup[k].gpio, setup[k].events, setup[k].now);
      }
      assert setup[..|setup|] == setup;
    }

    /** The `while (true)` loop with button interrupts between its passes, over a
        finite schedule: the globals and the output follow `Run`. */
    method RunSchedule(schedule: seq<Event>)
      requires Valid(Globals())
      modifies this, pio
      ensures Globals() == Run(old(Globals()), schedule).0
      ensures pio.Sent == old(pio.Sent) + Run(old(Globals()), schedule).1
    {
      ghost var start := Globals();
      for k := 0 to |schedule|
        invariant Globals() == Run(start, schedule[..k]).0
        invariant pio.Sent == old(pio.Sent) + Run(start, schedule[..k]).1
      {
        assert schedule[..k + 1][..k] == schedule[..k];
        match schedule[k]
        case Interrupt(gpio, events, now) =>
          ButtonCallback(gpio, events, now);
        case Poll =>
          PollOnce();
      }
      assert schedule[..|schedule|] == schedule;
    }
  }

  /** `main`: the globals start at their initial values; the button interrupt is
      enabled during set-up (line 153), so the interrupts in `setup` may arrive
      before the unconditional draw (line 162); then the schedule of interrupts
      and loop passes runs. What is sent is the frame of the digit at line 162
      followed by what the step semantics prescribes, and the display is never
      stale without a redraw pending. */
  method PowerOn(pio: PixelTransport, setup: seq<Event>, schedule: seq<Event>) returns (c: Controller)
    requires forall k :: 0 <= k < |setup| ==> setup[k].Interrupt?
    modifies pio
    ensures fresh(c) && c.pio == pio
    ensures Run(Boot, setup).1 == []
    ensures c.Globals() == Run(Run(Boot, setup).0, schedule).0
    ensures pio.Sent == old(pio.Sent) + Frame(Run(Boot, setup).0.currentNumber)
                        + Run(Run(Boot, setup).0, schedule).1
    ensures ShowsDigit(c.Globals(), pio.Sent)
  {
    c := new Controller(pio);
    c.DeliverSetup(setup);
    ghost var start := c.Globals();
    c.DrawCurrent();
    ghost var drawn := pio.Sent;
    c.RunSchedule(schedule);
    FrameShape(start.currentNumber);
    assert drawn[|drawn| - NumPixels..] == Frame(start.currentNumber);
    RunShowsDigit(start, drawn, schedule);
  }
}
