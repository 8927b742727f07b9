/** What one init or uninit call does to the board: which pins it gives to whom, when a failed call is
    clean, and when a call takes a pin from another driver. */
module PinCalls {
  import opened PinManager
  import opened PinClients
  import PinAnswers

  function Owner(r: Request): (c: Client)
  {
    match r
    case SpiInit(id, _, _, _, _, _, _, _, _) => Spi(id)
    case I2cInit(_, _) => I2c
    case UartInit(id, _, _, _, _, _, _) => Uart(id)
    case PwmInit(id, _, _) => Pwm(id)
    case AdcInit(channel, _, _, _) => Adc(channel)
    case GpioInit(pin, _) => Gpio(pin)
  }

  /** The pins a request names. */
  function Named(r: Request): (ps: seq<nat>)
  {
    match r
    case SpiInit(_, _, clk, cs, io0, io1, _, _, _) => [clk, cs, io0, io1]
    case I2cInit(sda, scl) => [sda, scl]
    case UartInit(_, tx, rx, flow, rts, cts, _) => if flow then [tx, rx] + [rts, cts] else [tx, rx]
    case PwmInit(_, pin, _) => [pin]
    case AdcInit(_, p, n, _) => [p, n]
    case GpioInit(pin, _) => [pin]
  }

  predicate IsDual(r: Request) { r.SpiInit? && r.mode == Dual }

  // ---- what a successful init gives ----------------------------------------------------------

  /** From `b` to `b'` exactly the pins `ps`, all of them free before, went to driver `c`, which is
      initialised and has them in its settings; no other pin and no other driver changed. */
  ghost predicate Granted(b: Board, b': Board, c: Client, ps: seq<nat>) {
    && (forall p: nat :: p < PIN_COUNT ==> b'.pins[p] == if p in ps then Tag(c) else b.pins[p])
    && (forall p: nat :: p < PIN_COUNT && p in ps ==> b.pins[p] == AVAILABLE)
    && (forall p: nat :: p < PIN_COUNT ==> (p in Saved(b', c).pins <==> p in ps))
    && b'.inited == b.inited + {c} && c in b'.saved && forall d :: d != c ==> Saved(b', d) == Saved(b, d)
  }

  lemma TakenGrants(b: Board, c: Client, ps: seq<nat>, named: seq<nat>, use: Use)
    requires AllFree(b.pins, ps) && use.pins == named
    requires forall p: nat :: p < PIN_COUNT ==> (p in named <==> p in ps)
    ensures Granted(b, Record(Claim(b, c, ps), c, use), c, named)
  {
    forall p: nat | p < PIN_COUNT
      ensures Claim(b, c, ps).pins[p] == if p in named then Tag(c) else b.pins[p]
    {
      ReserveAllAt(b.pins, ps, Tag(c), p);
    }
  }

  /** A successful init gives its driver exactly the pins it names. */
  lemma InitGrants(b: Board, r: Request)
    requires Init(b, r).0 == Done && !IsDual(r)
    ensures Granted(b, Init(b, r).1, Owner(r), Named(r))
  {
    hide CheckAll, ReserveAll, Granted, SpiPinsValid, UartPinsValid, FlowPinsValid, PwmPinValid;
    var c, ps := Owner(r), Named(r);
    match r
    case SpiInit(_, _, _, _, _, _, extra, _, _) =>
      CheckAllExact(b.pins, ps);
      TakenGrants(b, c, ps, ps, Use(ps, extra));
    case I2cInit(_, _) =>
      CheckAllExact(b.pins, ps);
      TakenGrants(b, c, ps, ps, Use(ps, []));
    case UartInit(_, tx, rx, flow, rts, cts, _) =>
      CheckAllExact(b.pins, [tx, rx]);
      if flow {
        FlowFree(b, c, [tx, rx], [rts, cts]);
      }
      TakenGrants(b, c, ps, ps, Use(ps, []));
    case PwmInit(_, _, _) =>
      CheckAllExact(b.pins, ps);
      TakenGrants(b, c, ps, ps, Use(ps, []));
    case AdcInit(_, p, n, _) =>
      TakenGrants(b, c, if n == NOT_SET then [p] else [p, n], ps, Use(ps, []));
    case GpioInit(_, _) =>
      CheckAllExact(b.pins, ps);
      TakenGrants(b, c, ps, ps, Use(ps, []));
  }

  // ---- what a failed init leaves -------------------------------------------------------------

  /** A UART init that has reserved TX and RX before it looks at its flow control pins. */
  predicate UartLate(b: Board, r: Request) {
    && r.UartInit? && r.id == 1 && r.flow && r.valid
    && UartPinsValid(1, r.tx, r.rx) && AllFree(b.pins, [r.tx, r.rx])
  }

  /** An SPI init that has reserved its pins before it looks at its DMA buffers. */
  predicate SpiLate(b: Board, r: Request) {
    && r.SpiInit? && r.id < 2 && Spi(r.id) !in b.inited && r.valid && r.mode == Normal
    && SpiPinsValid(r.id, r.clk, r.cs, r.io0, r.io1) && AllFree(b.pins, [r.clk, r.cs, r.io0, r.io1])
  }

  lemma ClaimChanges(b: Board, c: Client, ps: seq<nat>)
    requires ps != [] && AllFree(b.pins, ps)
    ensures Claim(b, c, ps) != b
  {
    assert ps[0] in ps;
    ReserveAllAt(b.pins, ps, Tag(c), ps[0]);
  }

  /** A failed init leaves the board as it was, for every driver, with exactly two exceptions. */
  lemma FailedInitExact(b: Board, r: Request)
    requires Init(b, r).0 != Done
    ensures Init(b, r).1 == b <==> !UartLate(b, r) && !SpiLate(b, r)
  {
    hide CheckAll, ReserveAll, AllFree, SpiPinsValid, UartPinsValid, FlowPinsValid, PwmPinValid;
    match r
    case SpiInit(_, _, _, _, _, _, _, _, _) =>
      CheckAllExact(b.pins, Named(r));
      if SpiLate(b, r) {
        ClaimChanges(b, Owner(r), Named(r));
      }
    case UartInit(id, tx, rx, _, _, _, _) =>
      CheckAllExact(b.pins, [tx, rx]);
      if UartLate(b, r) {
        ClaimChanges(b, Owner(r), [tx, rx]);
      }
      assert UartPinsValid(1, tx, rx) == UartPinsValid(id, tx, rx) || id != 1;
    case _ =>
  }

  /** The pins such an init holds on to. */
  function Leaked(r: Request): (ps: seq<nat>)
  {
    if r.UartInit? then [r.tx, r.rx] else Named(r)
  }

  /** In either case every pin stays reserved under the driver's tag although no driver owns it. */
  lemma FailedInitLeaks(b: Board, r: Request, p: nat)
    requires Sound(b) && Init(b, r).0 != Done && Init(b, r).1 != b && p in Leaked(r)
    ensures p < PIN_COUNT && Init(b, r).1.pins[p] == Tag(Owner(r)) && forall d :: !Owns(Init(b, r).1, d, p)
  {
    hide CheckAll, ReserveAll, SpiPinsValid, UartPinsValid, FlowPinsValid, PwmPinValid;
    FailedInitExact(b, r);
    ReserveAllAt(b.pins, Leaked(r), Tag(Owner(r)), p);
    forall d
      ensures !Owns(Init(b, r).1, d, p)
    {
      assert !Owns(b, d, p);
    }
  }

  /** Such a pin is lost: over every disciplined run that follows no driver can ever have it. */
  lemma {:induction false} LeakIsForever(b: Board, es: seq<Event>, p: nat)
    requires Sound(b) && Tidy(b) && DisciplinedRun(b, es)
    requires p < PIN_COUNT && b.pins[p] != AVAILABLE && forall d :: !Owns(b, d, p)
    ensures Run(b, es).pins[p] == b.pins[p] && forall d :: !Owns(Run(b, es), d, p)
  {
    if es != [] {
      hide Sound, Tidy, Step, Disciplined, Owns;
      var before, e := es[..|es| - 1], es[|es| - 1];
      assert forall i :: 0 <= i <= |before| ==> before[..i] == es[..i];
      LeakIsForever(b, before, p);
      RunKeeps(b, before);
      StepKeepsLeak(Run(b, before), e, p);
    }
  }

  lemma StepKeepsLeak(b: Board, e: Event, p: nat)
    requires Sound(b) && Tidy(b) && Disciplined(b, e)
    requires p < PIN_COUNT && b.pins[p] != AVAILABLE && forall d :: !Owns(b, d, p)
    ensures Step(b, e).pins[p] == b.pins[p] && forall d :: !Owns(Step(b, e), d, p)
  {
    match e
    case Initialize(r) => InitKeepsLeak(b, r, p);
    case Uninitialize(c) =>
      assert p !in Released(b, c) by {
        assert p in Released(b, c) ==> Owns(b, c, p);
      }
      ReleaseAllAt(b.pins, Released(b, c), p);
      forall d
        ensures !Owns(Uninit(b, c), d, p)
      {
        assert !Owns(b, d, p);
      }
  }

  lemma InitKeepsLeak(b: Board, r: Request, p: nat)
    requires !IsDual(r) && p < PIN_COUNT && b.pins[p] != AVAILABLE && forall d :: !Owns(b, d, p)
    ensures Init(b, r).1.pins[p] == b.pins[p] && forall d :: !Owns(Init(b, r).1, d, p)
  {
    hide Init;
    var b' := Init(b, r).1;
    if Init(b, r).0 == Done {
      InitGrants(b, r);
    } else {
      FailedInitPins(b, r, p);
    }
    forall d
      ensures !Owns(b', d, p)
    {
      assert !Owns(b, d, p);
    }
  }

  lemma FailedInitPins(b: Board, r: Request, p: nat)
    requires Init(b, r).0 != Done && p < PIN_COUNT
    ensures b.pins[p] != AVAILABLE ==> Init(b, r).1.pins[p] == b.pins[p]
    ensures Init(b, r).1.inited == b.inited && Init(b, r).1.saved == b.saved
  {
    hide CheckAll, ReserveAll, AllFree, SpiPinsValid, UartPinsValid, FlowPinsValid, PwmPinValid;
    ReserveAllAt(b.pins, Leaked(r), Tag(Owner(r)), p);
  }

  // ---- uninit --------------------------------------------------------------------------------

  /** From `b` to `b'` exactly the pins `ps` were freed, the missing ones excepted, and driver `c` is
      no longer initialised. */
  ghost predicate Freed(b: Board, b': Board, c: Client, ps: seq<nat>) {
    && (forall p: nat :: p < PIN_COUNT ==> b'.pins[p] == if p in ps && !Missing(p) then AVAILABLE else b.pins[p])
    && b'.inited == b.inited - {c} && b'.saved == b.saved
  }

  lemma UninitFrees(b: Board, c: Client)
    requires Shape(b.pins)
    ensures Freed(b, Uninit(b, c), c, Released(b, c))
  {
    forall p: nat | p < PIN_COUNT
      ensures Uninit(b, c).pins[p] == if p in Released(b, c) && !Missing(p) then AVAILABLE else b.pins[p]
    {
      ReleaseAllAt(b.pins, Released(b, c), p);
    }
  }

  /** A successful init undone by its uninit leaves the pin table as it was. */
  lemma InitUninit(b: Board, r: Request)
    requires Sound(b) && Init(b, r).0 == Done && !IsDual(r) && (r.SpiInit? ==> r.extra == [])
    ensures Uninit(Init(b, r).1, Owner(r)).pins == b.pins
  {
    var b', c := Init(b, r).1, Owner(r);
    InitGrants(b, r);
    InitKeeps(b, r);
    ReleasedAreNamed(b, r);
    hide Init;
    UninitFrees(b', c);
    assert forall p: nat :: p < PIN_COUNT && p in Named(r) ==> !Missing(p);
    assert forall p: nat :: p < PIN_COUNT ==> Uninit(b', c).pins[p] == b.pins[p];
  }

  lemma ReleasedAreNamed(b: Board, r: Request)
    requires Sound(b) && Init(b, r).0 == Done && !IsDual(r) && (r.SpiInit? ==> r.extra == [])
    ensures forall p: nat :: p < PIN_COUNT ==> (p in Released(Init(b, r).1, Owner(r)) <==> p in Named(r))
  {
    InitGrants(b, r);
    hide Init;
  }

  /** An SPI init in dual mode skips the pins but is not aborted; it keeps the invariant exactly when
      the pins it names happen to be marked for SPI already and belong to nobody else. */
  lemma DualModeExact(b: Board, r: Request)
    requires Sound(b) && r.SpiInit? && r.mode == Dual && Init(b, r).0 == Done
    ensures Sound(Init(b, r).1)
       <==> forall p: nat :: p in [r.clk, r.cs, r.io0, r.io1] && p < PIN_COUNT ==>
              b.pins[p] == SET_FOR_SPI && forall d :: !Owns(b, d, p)
  {
    var c, ps := Spi(r.id), [r.clk, r.cs, r.io0, r.io1];
    var b' := Init(b, r).1;
    forall d, p: nat
      ensures Owns(b', d, p) <==> if d == c then p in ps && p < PIN_COUNT else Owns(b, d, p)
    {
    }
    if forall p: nat :: p in ps && p < PIN_COUNT ==> b.pins[p] == SET_FOR_SPI && forall d :: !Owns(b, d, p) {
      RecordKeeps(b, c, Use(ps, r.extra));
    }
    if Sound(b') {
      forall p: nat | p in ps && p < PIN_COUNT
        ensures b.pins[p] == SET_FOR_SPI && forall d :: !Owns(b, d, p)
      {
        assert Owns(b', c, p);
        forall d
          ensures !Owns(b, d, p)
        {
          assert Owns(b, d, p) ==> d != c && Owns(b', d, p);
        }
      }
    }
  }

  /** Two requests that name a common pin cannot both succeed, whatever the drivers. */
  lemma SharedPinRefused(b: Board, r: Request, r': Request, p: nat)
    requires p < PIN_COUNT && p in Named(r) && p in Named(r') && !IsDual(r) && !IsDual(r')
    requires Init(b, r).0 == Done
    ensures Init(Init(b, r).1, r').0 != Done
  {
    InitGrants(b, r);
    if Init(Init(b, r).1, r').0 == Done {
      InitGrants(Init(b, r).1, r');
    }
  }

  // ---- the contract of every call ------------------------------------------------------------

  /** What a caller of an init may rely on. */
  ghost predicate InitContract(b: Board, r: Request, o: Outcome, b': Board) {
    && PinAnswers.InitAnswers(b, r, o)
    && (o == Done && !IsDual(r) ==> Granted(b, b', Owner(r), Named(r)))
    && (o != Done ==> (b' == b <==> !UartLate(b, r) && !SpiLate(b, r)))
    && (Sound(b) && !IsDual(r) ==> Sound(b'))
  }

  lemma InitMeetsContract(b: Board, r: Request)
    ensures InitContract(b, r, Init(b, r).0, Init(b, r).1)
  {
    hide Init, Sound, Granted, PinAnswers.InitAnswers;
    PinAnswers.InitAnswersSo(b, r);
    if Init(b, r).0 != Done {
      FailedInitExact(b, r);
    } else if !IsDual(r) {
      InitGrants(b, r);
    }
    if Sound(b) && !IsDual(r) {
      InitKeeps(b, r);
    }
  }

  /** None of the pins the call releases belongs to another initialised driver. */
  ghost predicate SparesOthers(b: Board, c: Client) {
    forall d, p: nat :: d != c && Owns(b, d, p) ==> p !in Released(b, c)
  }

  /** What a caller of an uninit may rely on. */
  ghost predicate UninitContract(b: Board, c: Client, b': Board) {
    && (Shape(b.pins) ==> Freed(b, b', c, Released(b, c)))
    && (Sound(b) ==> (Sound(b') <==> SparesOthers(b, c)))
  }

  lemma UninitMeetsContract(b: Board, c: Client)
    ensures UninitContract(b, c, Uninit(b, c))
  {
    hide Sound, Freed, Uninit;
    if Shape(b.pins) {
      UninitFrees(b, c);
    }
    if Sound(b) {
      UninitExact(b, c);
    }
  }

  // ---- boards that show the exceptions -------------------------------------------------------

  /** A UART init with a flow control pin it does not accept keeps pins 4 and 5. */
  lemma UartLeakExample()
    ensures var (o, b) := Init(RESET, UartInit(1, 4, 5, true, 0, 0, true));
            o == InvalidPins && b.inited == {} && b.pins[4] == b.pins[5] == SET_FOR_UART
  {
    CheckAllExact(RESET.pins, [4, 5]);
    ReserveAllAt(RESET.pins, [4, 5], SET_FOR_UART, 4);
    ReserveAllAt(RESET.pins, [4, 5], SET_FOR_UART, 5);
  }

  /** An SPI init without its DMA buffers keeps pins 6 to 9. */
  lemma SpiLeakExample()
    ensures var (o, b) := Init(RESET, SpiInit(0, Normal, 6, 7, 8, 9, [], true, false));
            o == InvalidSettings && b.inited == {} && b.pins[6] == b.pins[9] == SET_FOR_SPI
  {
    var ps := [6, 7, 8, 9];
    CheckAllExact(RESET.pins, ps);
    ReserveAllAt(RESET.pins, ps, SET_FOR_SPI, 6);
    ReserveAllAt(RESET.pins, ps, SET_FOR_SPI, 9);
  }

  /** A dual-mode SPI init after reset succeeds without reserving the pins it records. */
  lemma DualModeExample()
    ensures var (o, b) := Init(RESET, SpiInit(0, Dual, 6, 7, 8, 9, [], true, true));
            o == Done && Owns(b, Spi(0), 6) && b.pins[6] == AVAILABLE && !Sound(b)
  {
    var b := Init(RESET, SpiInit(0, Dual, 6, 7, 8, 9, [], true, true)).1;
    assert Owns(b, Spi(0), 6);
  }

  lemma InitAfterReset(r: Request)
    requires !IsDual(r) && Init(RESET, r).0 == Done
    ensures Sound(Init(RESET, r).1) && Granted(RESET, Init(RESET, r).1, Owner(r), Named(r))
  {
    hide Init;
    ResetSound();
    InitGrants(RESET, r);
    InitKeeps(RESET, r);
  }

  /** An uninit that releases a pin of another driver leaves it without the pin it still records. */
  lemma PinTakenAway(b: Board, c: Client, d: Client, p: nat)
    requires Shape(b.pins) && c != d && Owns(b, d, p) && p in Released(b, c) && !Missing(p)
    ensures var b' := Uninit(b, c);
            Owns(b', d, p) && b'.pins[p] == AVAILABLE && !Sound(b')
  {
    UninitFrees(b, c);
    hide Uninit;
    assert Owns(Uninit(b, c), d, p);
  }

  lemma OnePwm(b: Board)
    requires Shape(b.pins) && b.pins[20] == AVAILABLE && Pwm(0) !in b.inited
    ensures var b' := Init(b, PwmInit(0, 20, true)).1;
            && Shape(b'.pins) && Owns(b', Pwm(0), 20)
            && forall c :: c != Pwm(0) ==> Saved(b', c) == Saved(b, c) && (c in b.inited ==> c in b'.inited)
  {
    CheckAllExact(b.pins, [20]);
    InitGrants(b, PwmInit(0, 20, true));
    hide Init;
  }

  lemma RunThree(b: Board, e: Event, f: Event, g: Event)
    ensures Run(b, [e, f, g]) == Step(Step(Step(b, e), f), g)
  {
    hide Step;
    RunNext(b, [], e);
    RunNext(b, [e], f);
    RunNext(b, [e, f], g);
    assert [] + [e] == [e] && [e] + [f] == [e, f] && [e, f] + [g] == [e, f, g];
  }

  lemma RunFour(b: Board, e: Event, f: Event, g: Event, h: Event)
    ensures Run(b, [e, f, g, h]) == Step(Step(Step(Step(b, e), f), g), h)
  {
    hide Step;
    RunThree(b, e, f, g);
    RunNext(b, [e, f, g], h);
    assert [e, f, g] + [h] == [e, f, g, h];
  }

  lemma WireGiven(wire: Request)
    requires wire == I2cInit(21, 20)
    ensures var b := Init(RESET, wire).1;
            Shape(b.pins) && Pwm(0) !in b.inited && Saved(b, I2c).pins == [21, 20]
  {
    CheckAllExact(RESET.pins, [21, 20]);
    InitAfterReset(wire);
  }

  /** A second I2C uninit frees the pin that a PWM has been given in between. */
  lemma SecondUninitExample()
    ensures var b := Run(RESET, [Initialize(I2cInit(21, 20)), Uninitialize(I2c),
                                 Initialize(PwmInit(0, 20, true)), Uninitialize(I2c)]);
            Owns(b, Pwm(0), 20) && b.pins[20] == AVAILABLE && !Sound(b)
  {
    var wire, pulse := I2cInit(21, 20), PwmInit(0, 20, true);
    var b1 := Init(RESET, wire).1;
    var b2 := Uninit(b1, I2c);
    RunFour(RESET, Initialize(wire), Uninitialize(I2c), Initialize(pulse), Uninitialize(I2c));
    hide Init, Uninit, Run, Sound, Owns;
    WireGiven(wire);
    UninitFrees(b1, I2c);
    OnePwm(b2);
    PinTakenAway(Init(b2, pulse).1, I2c, Pwm(0), 20);
  }

  lemma SelectGiven(r: Request)
    requires r == SpiInit(0, Normal, 6, 7, 8, 9, [20], true, true)
    ensures var b := Init(RESET, r).1;
            && Shape(b.pins) && b.pins[20] == AVAILABLE && Pwm(0) !in b.inited && Spi(0) in b.inited
            && Saved(b, Spi(0)).extra == [20]
  {
    CheckAllExact(RESET.pins, [6, 7, 8, 9]);
    InitAfterReset(r);
  }

  /** An SPI uninit frees an extra chip select that another driver has been given meanwhile. */
  lemma ExtraSelectExample()
    ensures var r := SpiInit(0, Normal, 6, 7, 8, 9, [20], true, true);
            var b := Run(RESET, [Initialize(r), Initialize(PwmInit(0, 20, true)), Uninitialize(Spi(0))]);
            Owns(b, Pwm(0), 20) && b.pins[20] == AVAILABLE && !Sound(b)
  {
    var r, pulse := SpiInit(0, Normal, 6, 7, 8, 9, [20], true, true), PwmInit(0, 20, true);
    var b1 := Init(RESET, r).1;
    RunThree(RESET, Initialize(r), Initialize(pulse), Uninitialize(Spi(0)));
    hide Init, Uninit, Run, Sound, Owns;
    SelectGiven(r);
    OnePwm(b1);
    PinTakenAway(Init(b1, pulse).1, Spi(0), Pwm(0), 20);
  }
}
