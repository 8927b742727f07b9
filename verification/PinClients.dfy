/** The drivers that share the pins: what their init and uninit calls reserve, record and release. */
module PinClients {
  import opened Wrappers
  import opened PinManager

  datatype Client = Gpio(pin: nat) | Spi(id: nat) | I2c | Uart(id: nat) | Pwm(id: nat) | Adc(channel: nat)

  function Tag(c: Client): (tag: nat)
    ensures IsTag(tag)
  {
    match c
    case Gpio(_) => SET_FOR_GPIO
    case Spi(_) => SET_FOR_SPI
    case I2c => SET_FOR_I2C
    case Uart(_) => SET_FOR_UART
    case Pwm(_) => SET_FOR_PWM
    case Adc(_) => SET_FOR_ADC
  }

  /** The pins a driver's saved settings name, and the extra chip selects that only SPI's uninit
      looks at. */
  datatype Use = Use(pins: seq<nat>, extra: seq<nat>)

  /** The pin table, the drivers' init flags and their saved settings. */
  datatype Board = Board(pins: Pins, inited: set<Client>, saved: map<Client, Use>)

  const RESET := Board(Initial(), {}, map[])

  datatype Outcome =
    | Done | Refused(s: Status) | InvalidId | InvalidPins | InvalidSettings | UnsupportedMode
    | AlreadyInitialized | NotInitialized

  datatype SpiMode = Normal | Dual | Quad

  const NOT_SET: nat := 255

  // ---- which pins each driver accepts --------------------------------------------------------

  predicate SpiPinsValid(id: nat, clk: nat, cs: nat, io0: nat, io1: nat) {
    if id == 0 then
      (clk == 6 || clk == 28) && (cs == 7 || cs == 29) && (io0 == 8 || io0 == 30) && (io1 == 9 || io1 == 31)
    else id == 1 && clk == 28 && cs == 29 && io0 == 30 && io1 == 31
  }

  predicate I2cPinsValid(sda: nat, scl: nat) {
    (sda == 21 || sda == 23) && (scl == 20 || scl == 22)
  }

  predicate UartPinsValid(id: nat, tx: nat, rx: nat) {
    if id == 0 then tx == 17 && rx == 16
    else if id == 1 then (tx == 4 || tx == 28) && (rx == 5 || rx == 29)
    else id == 2 && (tx == 6 || tx == 30) && (rx == 7 || rx == 31)
  }

  predicate FlowPinsValid(rts: nat, cts: nat) {
    (rts == 14 || rts == 20) && (cts == 15 || cts == 21)
  }

  predicate PwmPinValid(id: nat, pin: nat) {
    || 20 <= pin <= 23
    || (id == 0 && pin == 8) || (id == 1 && pin == 9) || (id == 2 && pin == 14) || (id == 3 && pin == 15)
  }

  predicate AdcPinValid(pin: nat) { 28 <= pin <= 31 }

  // ---- init ----------------------------------------------------------------------------------

  /** The first refusal when pins are checked in turn. */
  function CheckAll(pins: Pins, ps: seq<nat>): (s: Status)
    requires |pins| == PIN_COUNT
  {
    if ps == [] then Success
    else if Check(pins, ps[0]) != Success then Check(pins, ps[0])
    else CheckAll(pins, ps[1..])
  }

  function Claim(b: Board, c: Client, ps: seq<nat>): (b': Board)
  {
    b.(pins := ReserveAll(b.pins, ps, Tag(c)))
  }

  function Record(b: Board, c: Client, use: Use): (b': Board)
  {
    b.(inited := b.inited + {c}, saved := b.saved[c := use])
  }

  /** Requests; the flags stand for the checks that do not concern pins, `dmaOk` for the one SPI
      makes after it has reserved its pins. */
  datatype Request =
    | SpiInit(id: nat, mode: SpiMode, clk: nat, cs: nat, io0: nat, io1: nat, extra: seq<nat>, valid: bool, dmaOk: bool)
    | I2cInit(sda: nat, scl: nat)
    | UartInit(id: nat, tx: nat, rx: nat, flow: bool, rts: nat, cts: nat, valid: bool)
    | PwmInit(id: nat, pin: nat, valid: bool)
    | AdcInit(channel: nat, p: nat, n: nat, valid: bool)
    | GpioInit(pin: nat, valid: bool)

  /** What most drivers do once a request is acceptable: check, reserve, save. */
  function Take(b: Board, c: Client, ps: seq<nat>, valid: bool): (r: (Outcome, Board))
  {
    if CheckAll(b.pins, ps) != Success then (Refused(CheckAll(b.pins, ps)), b)
    else if !valid then (InvalidSettings, b)
    else (Done, Record(Claim(b, c, ps), c, Use(ps, [])))
  }

  function InitSpi(b: Board, r: Request): (o: (Outcome, Board))
    requires r.SpiInit?
  {
    var c, ps := Spi(r.id), [r.clk, r.cs, r.io0, r.io1];
    if r.id >= 2 then (InvalidId, b)
    else if c in b.inited then (AlreadyInitialized, b)
    else if !r.valid then (InvalidSettings, b)
    else if r.mode == Quad then (UnsupportedMode, b)
    else if r.mode == Normal && !SpiPinsValid(r.id, r.clk, r.cs, r.io0, r.io1) then (InvalidPins, b)
    else if r.mode == Normal && CheckAll(b.pins, ps) != Success then (Refused(CheckAll(b.pins, ps)), b)
    else
      var b1 := if r.mode == Normal then Claim(b, c, ps) else b;
      if !r.dmaOk then (InvalidSettings, b1) else (Done, Record(b1, c, Use(ps, r.extra)))
  }

  function InitI2c(b: Board, r: Request): (o: (Outcome, Board))
    requires r.I2cInit?
  {
    if !I2cPinsValid(r.sda, r.scl) then (InvalidPins, b) else Take(b, I2c, [r.sda, r.scl], true)
  }

  function InitUart(b: Board, r: Request): (o: (Outcome, Board))
    requires r.UartInit?
  {
    var c, ps, flow := Uart(r.id), [r.tx, r.rx], [r.rts, r.cts];
    if r.id >= 3 then (InvalidId, b)
    else if !UartPinsValid(r.id, r.tx, r.rx) then (InvalidPins, b)
    else if CheckAll(b.pins, ps) != Success then (Refused(CheckAll(b.pins, ps)), b)
    else if !r.valid || (r.flow && r.id != 1) then (InvalidSettings, b)
    else
      var b1 := Claim(b, c, ps);
      if !r.flow then (Done, Record(b1, c, Use(ps, [])))
      else if !FlowPinsValid(r.rts, r.cts) then (InvalidPins, b1)
      else if CheckAll(b1.pins, flow) != Success then (Refused(CheckAll(b1.pins, flow)), b1)
      else (Done, Record(Claim(b1, c, flow), c, Use(ps + flow, [])))
  }

  function InitPwm(b: Board, r: Request): (o: (Outcome, Board))
    requires r.PwmInit?
  {
    if r.id > 4 then (InvalidId, b)
    else if Pwm(r.id) in b.inited then (AlreadyInitialized, b)
    else if !PwmPinValid(r.id, r.pin) then (InvalidPins, b)
    else Take(b, Pwm(r.id), [r.pin], r.valid)
  }

  /** The N pin is optional; the same pin may serve as both. */
  function InitAdc(b: Board, r: Request): (o: (Outcome, Board))
    requires r.AdcInit?
  {
    var c := Adc(r.channel);
    if r.channel > 3 then (InvalidId, b)
    else if c in b.inited then (AlreadyInitialized, b)
    else if !AdcPinValid(r.p) then (InvalidPins, b)
    else if Check(b.pins, r.p) != Success then (Refused(Check(b.pins, r.p)), b)
    else if r.n != NOT_SET && !AdcPinValid(r.n) then (InvalidPins, b)
    else if r.n != NOT_SET && Check(b.pins, r.n) != Success then (Refused(Check(b.pins, r.n)), b)
    else if !r.valid then (InvalidSettings, b)
    else (Done, Record(Claim(b, c, if r.n == NOT_SET then [r.p] else [r.p, r.n]), c, Use([r.p, r.n], [])))
  }

  function InitGpio(b: Board, r: Request): (o: (Outcome, Board))
    requires r.GpioInit?
  {
    Take(b, Gpio(r.pin), [r.pin], r.valid)
  }

  function Init(b: Board, r: Request): (o: (Outcome, Board))
  {
    match r
    case SpiInit(_, _, _, _, _, _, _, _, _) => InitSpi(b, r)
    case I2cInit(_, _) => InitI2c(b, r)
    case UartInit(_, _, _, _, _, _, _) => InitUart(b, r)
    case PwmInit(_, _, _) => InitPwm(b, r)
    case AdcInit(_, _, _, _) => InitAdc(b, r)
    case GpioInit(_, _) => InitGpio(b, r)
  }

  // ---- uninit --------------------------------------------------------------------------------

  /** The saved settings, or the zeros they are before the first init. */
  function Saved(b: Board, c: Client): (use: Use)
  {
    if c in b.saved then b.saved[c] else Use([0, 0], [])
  }

  /** The pins an uninit call releases.  SPI, PWM and ADC look at their init flag first; I2C and the
      three UARTs release whatever their settings name, and plain GPIO the pin it is given. */
  function Released(b: Board, c: Client): (ps: seq<nat>)
  {
    match c
    case Gpio(pin) => if pin < PIN_COUNT && !Missing(pin) then [pin] else []
    case I2c => Saved(b, c).pins
    case Uart(id) => if id < 3 then Saved(b, c).pins else []
    case _ => if c in b.inited then Saved(b, c).pins + Saved(b, c).extra else []
  }

  function Uninit(b: Board, c: Client): (b': Board)
  {
    b.(pins := ReleaseAll(b.pins, Released(b, c)), inited := b.inited - {c})
  }

  // ---- the invariant -------------------------------------------------------------------------

  ghost predicate Owns(b: Board, c: Client, p: nat) {
    c in b.inited && p < PIN_COUNT && p in Saved(b, c).pins
  }

  /** The pins of every initialised driver are reserved for it, and no two drivers share one. */
  ghost predicate Sound(b: Board) {
    && Shape(b.pins)
    && (forall c, p: nat :: Owns(b, c, p) ==> b.pins[p] == Tag(c))
    && (forall c, d, p: nat :: Owns(b, c, p) && Owns(b, d, p) ==> c == d)
  }

  lemma ResetSound()
    ensures Sound(RESET)
  {
  }

  lemma ClaimKeeps(b: Board, c: Client, ps: seq<nat>)
    requires Sound(b)
    ensures Sound(Claim(b, c, ps))
  {
    var b' := Claim(b, c, ps);
    ReserveAllShape(b.pins, ps, Tag(c));
    forall d, p: nat | Owns(b', d, p)
      ensures Owns(b, d, p) && b'.pins[p] == Tag(d)
    {
      assert Owns(b, d, p);
      ReserveAllAt(b.pins, ps, Tag(c), p);
    }
  }

  lemma RecordKeeps(b: Board, c: Client, use: Use)
    requires Sound(b)
    requires forall p: nat :: p in use.pins && p < PIN_COUNT ==> b.pins[p] == Tag(c)
    requires forall d, p: nat :: p in use.pins && Owns(b, d, p) ==> d == c
    ensures Sound(Record(b, c, use))
  {
    var b' := Record(b, c, use);
    forall d, p: nat | Owns(b', d, p)
      ensures if d == c then p in use.pins else Owns(b, d, p)
    {
    }
  }

  /** The pins of the list can all be had. */
  predicate AllFree(pins: Pins, ps: seq<nat>) {
    forall p: nat :: p in ps ==> p < PIN_COUNT && pins[p] == AVAILABLE
  }

  lemma {:induction false} CheckAllExact(pins: Pins, ps: seq<nat>)
    ensures CheckAll(pins, ps) == Success <==> AllFree(pins, ps)
  {
    if ps != [] {
      CheckAllExact(pins, ps[1..]);
      assert ps == [ps[0]] + ps[1..];
      assert ps[0] in ps && forall p: nat :: p in ps[1..] ==> p in ps;
      assert forall p: nat :: p in ps && p != ps[0] ==> p in ps[1..];
    }
  }

  /** Reserving free pins and saving them keeps the invariant, whoever does it. */
  lemma TakenKeeps(b: Board, c: Client, ps: seq<nat>, use: Use)
    requires Sound(b)
    requires forall p: nat :: p in ps && p < PIN_COUNT ==> b.pins[p] == AVAILABLE
    requires forall p: nat :: p in use.pins && p < PIN_COUNT ==> p in ps
    ensures Sound(Record(Claim(b, c, ps), c, use))
  {
    var b1 := Claim(b, c, ps);
    ClaimKeeps(b, c, ps);
    forall p: nat | p in use.pins && p < PIN_COUNT
      ensures b1.pins[p] == Tag(c) && forall d :: !Owns(b1, d, p)
    {
      ReserveAllAt(b.pins, ps, Tag(c), p);
      forall d
        ensures !Owns(b1, d, p)
      {
        assert Owns(b1, d, p) ==> Owns(b, d, p);
      }
    }
    RecordKeeps(b1, c, use);
  }

  lemma TakeKeeps(b: Board, c: Client, ps: seq<nat>, valid: bool)
    requires Sound(b)
    ensures Sound(Take(b, c, ps, valid).1)
  {
    CheckAllExact(b.pins, ps);
    if AllFree(b.pins, ps) {
      TakenKeeps(b, c, ps, Use(ps, []));
    }
  }

  lemma SpiKeeps(b: Board, r: Request)
    requires Sound(b) && r.SpiInit? && r.mode != Dual
    ensures Sound(InitSpi(b, r).1)
  {
    var c, ps := Spi(r.id), [r.clk, r.cs, r.io0, r.io1];
    CheckAllExact(b.pins, ps);
    if AllFree(b.pins, ps) {
      ClaimKeeps(b, c, ps);
      TakenKeeps(b, c, ps, Use(ps, r.extra));
    }
  }

  lemma UartKeeps(b: Board, r: Request)
    requires Sound(b) && r.UartInit?
    ensures Sound(InitUart(b, r).1)
  {
    var c, ps, flow := Uart(r.id), [r.tx, r.rx], [r.rts, r.cts];
    CheckAllExact(b.pins, ps);
    if AllFree(b.pins, ps) {
      ClaimKeeps(b, c, ps);
      TakenKeeps(b, c, ps, Use(ps, []));
      if CheckAll(Claim(b, c, ps).pins, flow) == Success {
        FlowFree(b, c, ps, flow);
        TakenKeeps(b, c, ps + flow, Use(ps + flow, []));
      }
    }
  }

  /** Reserving in two steps is reserving at once, and what is free after the first step was free. */
  lemma FlowFree(b: Board, c: Client, ps: seq<nat>, flow: seq<nat>)
    requires AllFree(b.pins, ps) && CheckAll(Claim(b, c, ps).pins, flow) == Success
    ensures AllFree(b.pins, ps + flow) && Claim(Claim(b, c, ps), c, flow) == Claim(b, c, ps + flow)
  {
    ReserveAllAppend(b.pins, ps, flow, Tag(c));
    CheckAllExact(Claim(b, c, ps).pins, flow);
    forall p: nat | p in flow
      ensures p < PIN_COUNT && b.pins[p] == AVAILABLE
    {
      ReserveAllAt(b.pins, ps, Tag(c), p);
    }
  }

  lemma AdcKeeps(b: Board, r: Request)
    requires Sound(b) && r.AdcInit?
    ensures Sound(InitAdc(b, r).1)
  {
    if InitAdc(b, r).0 == Done {
      TakenKeeps(b, Adc(r.channel), if r.n == NOT_SET then [r.p] else [r.p, r.n], Use([r.p, r.n], []));
    }
  }

  /** Every init call keeps the invariant, whether it succeeds or fails and in whatever state the
      other drivers are, except SPI's in dual mode. */
  lemma InitKeeps(b: Board, r: Request)
    requires Sound(b) && !(r.SpiInit? && r.mode == Dual)
    ensures Sound(Init(b, r).1)
  {
    match r
    case SpiInit(_, _, _, _, _, _, _, _, _) => SpiKeeps(b, r);
    case I2cInit(sda, scl) => TakeKeeps(b, I2c, [sda, scl], true);
    case UartInit(_, _, _, _, _, _, _) => UartKeeps(b, r);
    case PwmInit(id, pin, valid) => TakeKeeps(b, Pwm(id), [pin], valid);
    case AdcInit(_, _, _, _) => AdcKeeps(b, r);
    case GpioInit(pin, valid) => TakeKeeps(b, Gpio(pin), [pin], valid);
  }

  /** An uninit call keeps the invariant exactly when it releases no pin of another initialised
      driver. */
  lemma UninitExact(b: Board, c: Client)
    requires Sound(b)
    ensures Sound(Uninit(b, c)) <==> forall d, p: nat :: d != c && Owns(b, d, p) ==> p !in Released(b, c)
  {
    var ps, b' := Released(b, c), Uninit(b, c);
    ReleaseAllShape(b.pins, ps);
    forall d, p: nat
      ensures Owns(b', d, p) <==> d != c && Owns(b, d, p)
    {
    }
    forall d, p: nat | Owns(b', d, p)
      ensures b'.pins[p] == Tag(d) <==> p !in ps
    {
      ReleaseAllAt(b.pins, ps, p);
      assert b.pins[p] == Tag(d);
    }
  }

  // ---- runs ----------------------------------------------------------------------------------

  datatype Event = Initialize(r: Request) | Uninitialize(c: Client)

  function Step(b: Board, e: Event): (b': Board)
  {
    match e
    case Initialize(r) => Init(b, r).1
    case Uninitialize(c) => Uninit(b, c)
  }

  /** The discipline a program must keep: every uninit follows that driver's own successful init,
      and SPI runs in normal mode with one chip select. */
  predicate Disciplined(b: Board, e: Event) {
    match e
    case Initialize(r) => (r.SpiInit? ==> r.mode != Dual && r.extra == [])
    case Uninitialize(c) => c in b.inited
  }

  /** What that discipline buys beyond the invariant. */
  ghost predicate Tidy(b: Board) {
    forall c :: c in b.inited ==>
      && c in b.saved && b.saved[c].extra == []
      && (c.Gpio? ==> b.saved[c].pins == [c.pin]) && (c.Uart? ==> c.id < 3)
  }

  lemma StepKeeps(b: Board, e: Event)
    requires Sound(b) && Tidy(b) && Disciplined(b, e)
    ensures Sound(Step(b, e)) && Tidy(Step(b, e))
  {
    hide Init;
    match e
    case Initialize(r) =>
      InitKeeps(b, r);
      InitKeepsTidy(b, r);
    case Uninitialize(c) =>
      UninitExact(b, c);
      forall d, p: nat | d != c && Owns(b, d, p)
        ensures p !in Released(b, c)
      {
        assert p in Released(b, c) ==> Owns(b, c, p);
      }
  }

  lemma InitKeepsTidy(b: Board, r: Request)
    requires Tidy(b) && (r.SpiInit? ==> r.extra == [])
    ensures Tidy(Init(b, r).1)
  {
    hide CheckAll, ReserveAll, SpiPinsValid, I2cPinsValid, UartPinsValid, FlowPinsValid, PwmPinValid, AdcPinValid;
  }

  function Run(b: Board, es: seq<Event>): (b': Board)
  {
    if es == [] then b else Step(Run(b, es[..|es| - 1]), es[|es| - 1])
  }

  /** Every event of the run keeps the discipline on the board it meets. */
  ghost predicate DisciplinedRun(b: Board, es: seq<Event>) {
    forall i :: 0 <= i < |es| ==> Disciplined(Run(b, es[..i]), es[i])
  }

  lemma RunNext(b: Board, es: seq<Event>, e: Event)
    ensures Run(b, es + [e]) == Step(Run(b, es), e)
  {
    assert (es + [e])[..|es + [e]| - 1] == es;
  }

  lemma {:induction false} RunKeeps(b: Board, es: seq<Event>)
    requires Sound(b) && Tidy(b) && DisciplinedRun(b, es)
    ensures Sound(Run(b, es)) && Tidy(Run(b, es))
  {
    if es != [] {
      hide Sound, Tidy, Step, Disciplined;
      var before := es[..|es| - 1];
      assert forall i :: 0 <= i <= |before| ==> before[..i] == es[..i];
      RunKeeps(b, before);
      StepKeeps(Run(b, before), es[|es| - 1]);
    }
  }

  /** Over every disciplined run from reset: no pin is in the settings of two initialised drivers,
      each such pin is marked with its driver's tag, and the missing pins were never given out. */
  lemma PinsOwnedOnce(es: seq<Event>)
    requires DisciplinedRun(RESET, es)
    ensures var b := Run(RESET, es);
            && (forall c, d, p: nat :: Owns(b, c, p) && Owns(b, d, p) ==> c == d)
            && (forall c, p: nat :: Owns(b, c, p) ==> b.pins[p] == Tag(c) && !Missing(p))
            && (forall p: nat :: Missing(p) ==> Check(b.pins, p) == InUse(UNAVAILABLE))
  {
    ResetSound();
    RunKeeps(RESET, es);
  }
}
