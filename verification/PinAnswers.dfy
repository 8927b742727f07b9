/** What every init call answers: the pins each driver takes, by number, and the order in which the
    checks decide. */
module PinAnswers {
  import opened PinManager
  import opened PinClients

  lemma TagsAre(pin: nat, id: nat, channel: nat)
    ensures Tag(Gpio(pin)) == 170 && Tag(Adc(channel)) == 171 && Tag(I2c) == 174
    ensures Tag(Pwm(id)) == 175 && Tag(Spi(id)) == 176 && Tag(Uart(id)) == 177
    ensures UNAVAILABLE == 180 && AVAILABLE == 0 && PIN_COUNT == 32
  {
  }

  // ---- pins ----------------------------------------------------------------------------------

  predicate SpiPins(id: nat, clk: nat, cs: nat, io0: nat, io1: nat) {
    || (id == 0 && clk in {6, 28} && cs in {7, 29} && io0 in {8, 30} && io1 in {9, 31})
    || (id == 1 && [clk, cs, io0, io1] == [28, 29, 30, 31])
  }

  predicate I2cPins(sda: nat, scl: nat) { sda in {21, 23} && scl in {20, 22} }

  predicate UartPins(id: nat, tx: nat, rx: nat) {
    || (id == 0 && tx == 17 && rx == 16)
    || (id == 1 && tx in {4, 28} && rx in {5, 29})
    || (id == 2 && tx in {6, 30} && rx in {7, 31})
  }

  predicate FlowPins(rts: nat, cts: nat) { rts in {14, 20} && cts in {15, 21} }

  predicate PwmPin(id: nat, pin: nat) {
    pin in {20, 21, 22, 23} || (id < 4 && pin == [8, 9, 14, 15][id])
  }

  predicate AdcPin(pin: nat) { pin in {28, 29, 30, 31} }

  predicate Free(b: Board, pin: nat) { pin < 32 && b.pins[pin] == 0 }

  predicate AllOf(b: Board, ps: seq<nat>) { forall p :: p in ps ==> Free(b, p) }

  /** The verdict on a pin that is not free. */
  function Obstacle(b: Board, pin: nat): (s: Status)
  {
    if pin > 32 then PinNotAvailable else if pin == 32 then OutOfBounds else InUse(b.pins[pin])
  }

  /** The outcome tells of the first pin of the list that is not free. */
  ghost predicate RefusedFor(b: Board, ps: seq<nat>, o: Outcome) {
    exists i :: 0 <= i < |ps| && !Free(b, ps[i]) && AllOf(b, ps[..i]) && o == Refused(Obstacle(b, ps[i]))
  }

  lemma AllOfCons(b: Board, p: nat, rest: seq<nat>)
    ensures AllOf(b, [p] + rest) <==> Free(b, p) && AllOf(b, rest)
  {
    assert forall q :: q in [p] + rest <==> q == p || q in rest;
  }

  lemma RefusedCons(b: Board, p: nat, rest: seq<nat>, o: Outcome)
    requires Free(b, p) && RefusedFor(b, rest, o)
    ensures RefusedFor(b, [p] + rest, o)
  {
    hide AllOf, Obstacle, Free;
    var ps := [p] + rest;
    var i :| 0 <= i < |rest| && !Free(b, rest[i]) && AllOf(b, rest[..i]) && o == Refused(Obstacle(b, rest[i]));
    AllOfCons(b, p, rest[..i]);
    assert ps[i + 1] == rest[i] && ps[..i + 1] == [p] + rest[..i];
  }

  lemma RefusedFirst(b: Board, p: nat, rest: seq<nat>)
    requires !Free(b, p)
    ensures RefusedFor(b, [p] + rest, Refused(Obstacle(b, p)))
  {
    hide Free, Obstacle;
    var ps := [p] + rest;
    assert ps[0] == p && AllOf(b, ps[..0]);
  }

  lemma {:induction false} CheckAllAnswers(b: Board, ps: seq<nat>)
    ensures CheckAll(b.pins, ps) == Success <==> AllOf(b, ps)
    ensures !AllOf(b, ps) ==> RefusedFor(b, ps, Refused(CheckAll(b.pins, ps)))
  {
    if ps != [] {
      hide AllOf, RefusedFor;
      var rest := ps[1..];
      assert ps == [ps[0]] + rest;
      AllOfCons(b, ps[0], rest);
      CheckAllAnswers(b, rest);
      if !Free(b, ps[0]) {
        RefusedFirst(b, ps[0], rest);
      } else if !AllOf(b, rest) {
        RefusedCons(b, ps[0], rest, Refused(CheckAll(b.pins, rest)));
      }
    }
  }

  // ---- answers -------------------------------------------------------------------------------

  ghost predicate SpiAnswers(b: Board, r: Request, o: Outcome)
    requires r.SpiInit?
  {
    var ps := [r.clk, r.cs, r.io0, r.io1];
    if r.id > 1 then o == InvalidId
    else if Spi(r.id) in b.inited then o == AlreadyInitialized
    else if !r.valid then o == InvalidSettings
    else if r.mode == Quad then o == UnsupportedMode
    else if r.mode == Normal && !SpiPins(r.id, r.clk, r.cs, r.io0, r.io1) then o == InvalidPins
    else if r.mode == Normal && !AllOf(b, ps) then RefusedFor(b, ps, o)
    else o == if r.dmaOk then Done else InvalidSettings
  }

  ghost predicate I2cAnswers(b: Board, r: Request, o: Outcome)
    requires r.I2cInit?
  {
    if !I2cPins(r.sda, r.scl) then o == InvalidPins
    else if !AllOf(b, [r.sda, r.scl]) then RefusedFor(b, [r.sda, r.scl], o)
    else o == Done
  }

  ghost predicate UartAnswers(b: Board, r: Request, o: Outcome)
    requires r.UartInit?
  {
    if r.id > 2 then o == InvalidId
    else if !UartPins(r.id, r.tx, r.rx) then o == InvalidPins
    else if !AllOf(b, [r.tx, r.rx]) then RefusedFor(b, [r.tx, r.rx], o)
    else if !r.valid || (r.flow && r.id != 1) then o == InvalidSettings
    else if !r.flow then o == Done
    else if !FlowPins(r.rts, r.cts) then o == InvalidPins
    else if !AllOf(b, [r.rts, r.cts]) then RefusedFor(b, [r.rts, r.cts], o)
    else o == Done
  }

  ghost predicate PwmAnswers(b: Board, r: Request, o: Outcome)
    requires r.PwmInit?
  {
    if r.id > 4 then o == InvalidId
    else if Pwm(r.id) in b.inited then o == AlreadyInitialized
    else if !PwmPin(r.id, r.pin) then o == InvalidPins
    else if !Free(b, r.pin) then o == Refused(Obstacle(b, r.pin))
    else o == if r.valid then Done else InvalidSettings
  }

  ghost predicate AdcAnswers(b: Board, r: Request, o: Outcome)
    requires r.AdcInit?
  {
    var both := r.n != 255;
    if r.channel > 3 then o == InvalidId
    else if Adc(r.channel) in b.inited then o == AlreadyInitialized
    else if !AdcPin(r.p) then o == InvalidPins
    else if !Free(b, r.p) then o == Refused(Obstacle(b, r.p))
    else if both && !AdcPin(r.n) then o == InvalidPins
    else if both && !Free(b, r.n) then o == Refused(Obstacle(b, r.n))
    else o == if r.valid then Done else InvalidSettings
  }

  ghost predicate GpioAnswers(b: Board, r: Request, o: Outcome)
    requires r.GpioInit?
  {
    if !Free(b, r.pin) then o == Refused(Obstacle(b, r.pin)) else o == if r.valid then Done else InvalidSettings
  }

  ghost predicate InitAnswers(b: Board, r: Request, o: Outcome) {
    match r
    case SpiInit(_, _, _, _, _, _, _, _, _) => SpiAnswers(b, r, o)
    case I2cInit(_, _) => I2cAnswers(b, r, o)
    case UartInit(_, _, _, _, _, _, _) => UartAnswers(b, r, o)
    case PwmInit(_, _, _) => PwmAnswers(b, r, o)
    case AdcInit(_, _, _, _) => AdcAnswers(b, r, o)
    case GpioInit(_, _) => GpioAnswers(b, r, o)
  }

  lemma SpiAnswersSo(b: Board, r: Request)
    requires r.SpiInit?
    ensures SpiAnswers(b, r, InitSpi(b, r).0)
  {
    CheckAllAnswers(b, [r.clk, r.cs, r.io0, r.io1]);
    hide CheckAll, AllOf, RefusedFor, Claim;
  }

  lemma I2cAnswersSo(b: Board, r: Request)
    requires r.I2cInit?
    ensures I2cAnswers(b, r, InitI2c(b, r).0)
  {
    CheckAllAnswers(b, [r.sda, r.scl]);
    hide CheckAll, AllOf, RefusedFor, Claim;
  }

  lemma CheckAllOfTwo(pins: Pins, p: nat, q: nat)
    ensures CheckAll(pins, [p, q]) == if Check(pins, p) != Success then Check(pins, p) else Check(pins, q)
  {
    assert [p, q][1..] == [q] && [q][1..] == [];
    assert CheckAll(pins, [q]) == Check(pins, q);
  }

  /** TX and RX are no flow control pins, so reserving them changes nothing about those. */
  lemma FlowApart(b: Board, r: Request)
    requires r.UartInit? && UartPins(r.id, r.tx, r.rx) && FlowPins(r.rts, r.cts)
    ensures CheckAll(Claim(b, Uart(r.id), [r.tx, r.rx]).pins, [r.rts, r.cts]) == CheckAll(b.pins, [r.rts, r.cts])
  {
    ReserveAllAt(b.pins, [r.tx, r.rx], Tag(Uart(r.id)), r.rts);
    ReserveAllAt(b.pins, [r.tx, r.rx], Tag(Uart(r.id)), r.cts);
    hide ReserveAll;
    var pins := Claim(b, Uart(r.id), [r.tx, r.rx]).pins;
    assert Check(pins, r.rts) == Check(b.pins, r.rts) && Check(pins, r.cts) == Check(b.pins, r.cts);
    hide Claim, Check, CheckAll;
    CheckAllOfTwo(pins, r.rts, r.cts);
    CheckAllOfTwo(b.pins, r.rts, r.cts);
  }

  lemma UartAnswersSo(b: Board, r: Request)
    requires r.UartInit?
    ensures UartAnswers(b, r, InitUart(b, r).0)
  {
    CheckAllAnswers(b, [r.tx, r.rx]);
    CheckAllAnswers(b, [r.rts, r.cts]);
    if UartPins(r.id, r.tx, r.rx) && FlowPins(r.rts, r.cts) {
      FlowApart(b, r);
    }
    hide CheckAll, AllOf, RefusedFor, Claim;
  }

  lemma OneAnswers(b: Board, pin: nat)
    ensures CheckAll(b.pins, [pin]) == if Free(b, pin) then Success else Obstacle(b, pin)
  {
    assert [pin][1..] == [];
  }

  /** Every init call answers by these tables, whatever the board. */
  lemma InitAnswersSo(b: Board, r: Request)
    ensures InitAnswers(b, r, Init(b, r).0)
  {
    hide CheckAll, Claim, SpiAnswers, I2cAnswers, UartAnswers, InitSpi, InitI2c, InitUart;
    match r
    case SpiInit(_, _, _, _, _, _, _, _, _) => SpiAnswersSo(b, r);
    case I2cInit(_, _) => I2cAnswersSo(b, r);
    case UartInit(_, _, _, _, _, _, _) => UartAnswersSo(b, r);
    case PwmInit(_, pin, _) => OneAnswers(b, pin);
    case AdcInit(_, _, _, _) =>
    case GpioInit(pin, _) => OneAnswers(b, pin);
  }
}
