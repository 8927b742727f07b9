/** The drivers' init and uninit calls as they run: one pin manager, one init flag and one copy of
    the settings for each driver. */
module PinDrivers {
  import opened PinManager
  import opened PinClients
  import opened PinCalls

  /** The settings structure of each driver: how many pins it names. */
  predicate Fits(c: Client, use: Use) {
    && (c.Spi? || use.extra == [])
    && match c
       case Gpio(_) => |use.pins| == 1
       case Spi(_) => |use.pins| == 4
       case I2c => |use.pins| == 2
       case Uart(_) => |use.pins| == 2 || |use.pins| == 4
       case Pwm(_) => |use.pins| == 1
       case Adc(_) => |use.pins| == 2
  }

  class Drivers {
    const manager: Manager
    var inited: set<Client>
    var saved: map<Client, Use>

    /** The parts fit together. */
    ghost predicate Wired()
      reads this, manager
    {
      && manager.Valid()
      && (forall c :: c in saved ==> Fits(c, saved[c]))
      && (forall c :: c in inited ==> c in saved)
    }

    function Settings(c: Client): (use: Use)
      reads this
    {
      if c in saved then saved[c] else Use([0, 0], [])
    }

    ghost function View(): (b: Board)
      requires Wired()
      reads this, manager, manager.settings
    {
      Board(manager.View(), inited, saved)
    }

    /** Every initialised driver has its pins to itself. */
    ghost predicate Valid()
      reads this, manager, manager.settings
    {
      Wired() && Sound(View())
    }

    constructor ()
      ensures Valid() && fresh(manager) && fresh(manager.settings) && View() == RESET
    {
      ResetSound();
      manager := new Manager();
      inited, saved := {}, map[];
    }

    /** The checks `init` calls make before they touch a pin, for two pins. */
    method CheckTwo(a: nat, b: nat) returns (s: Status)
      requires Wired()
      modifies manager`initialized, manager.settings
      ensures Wired() && s == CheckAll(old(View()).pins, [a, b]) && View() == old(View())
    {
      CheckAllTwo(View().pins, a, b);
      s := manager.CheckGpio(a);
      if s != Success {
        return;
      }
      s := manager.CheckGpio(b);
    }

    method ReserveTwo(a: nat, b: nat, c: Client)
      requires Wired()
      modifies manager`initialized, manager.settings
      ensures Wired() && View() == Claim(old(View()), c, [a, b])
    {
      ReserveAllTwo(View().pins, a, b, Tag(c));
      var s := manager.ReserveGpio(a, Tag(c));
      s := manager.ReserveGpio(b, Tag(c));
    }

    method ReleaseTwo(a: nat, b: nat)
      requires Wired()
      modifies manager`initialized, manager.settings
      ensures Wired() && View() == old(View()).(pins := ReleaseAll(old(View()).pins, [a, b]))
    {
      ReleaseAllTwo(View().pins, a, b);
      var s := manager.ReleaseGpio(a);
      s := manager.ReleaseGpio(b);
    }

    /** The settings are copied and the init flag set. */
    method Save(c: Client, use: Use)
      requires Wired() && Fits(c, use)
      modifies this
      ensures Wired() && View() == Record(old(View()), c, use)
    {
      inited, saved := inited + {c}, saved[c := use];
    }

    /** `set_standard_pins`. */
    method SetStandardPins(id: nat, clk: nat, cs: nat, io0: nat, io1: nat) returns (o: Outcome)
      requires Wired()
      modifies manager`initialized, manager.settings
      ensures var b, ps := old(View()), [clk, cs, io0, io1];
              && Wired()
              && o == (if !SpiPinsValid(id, clk, cs, io0, io1) then InvalidPins
                       else if CheckAll(b.pins, ps) != Success then Refused(CheckAll(b.pins, ps))
                       else Done)
              && View() == if o == Done then Claim(b, Spi(id), ps) else b
    {
      hide CheckAll, ReserveAll;
      if !SpiPinsValid(id, clk, cs, io0, io1) {
        return InvalidPins;
      }
      CheckAllFour(View().pins, clk, cs, io0, io1);
      var s := CheckTwo(clk, cs);
      if s != Success {
        return Refused(s);
      }
      s := CheckTwo(io0, io1);
      if s != Success {
        return Refused(s);
      }
      ReserveAllFour(View().pins, clk, cs, io0, io1, SET_FOR_SPI);
      ReserveTwo(clk, cs, Spi(id));
      ReserveTwo(io0, io1, Spi(id));
      return Done;
    }

    method SpiInit(r: Request) returns (o: Outcome)
      requires Wired() && r.SpiInit?
      modifies this, manager`initialized, manager.settings
      ensures Wired() && (o, View()) == InitSpi(old(View()), r)
      ensures InitContract(old(View()), r, o, View())
      ensures old(Valid()) && r.mode != Dual ==> Valid()
    {
      InitMeetsContract(View(), r);
      hide CheckAll, ReserveAll, SpiPinsValid;
      if r.id >= 2 {
        return InvalidId;
      }
      if Spi(r.id) in inited {
        return AlreadyInitialized;
      }
      if !r.valid {
        return InvalidSettings;
      }
      if r.mode == Quad {
        return UnsupportedMode;
      }
      if r.mode == Normal {
        o := SetStandardPins(r.id, r.clk, r.cs, r.io0, r.io1);
        if o != Done {
          return;
        }
      }
      if !r.dmaOk {
        return InvalidSettings;
      }
      Save(Spi(r.id), Use([r.clk, r.cs, r.io0, r.io1], r.extra));
      return Done;
    }

    /** The four pins, then one extra chip select after the other. */
    method SpiUninit(id: nat) returns (o: Outcome)
      requires Wired()
      modifies this, manager`initialized, manager.settings
      ensures Wired()
      ensures o == if id >= 2 then InvalidId else if Spi(id) !in old(inited) then NotInitialized else Done
      ensures View() == if o == Done then Uninit(old(View()), Spi(id)) else old(View())
      ensures o == Done ==> UninitContract(old(View()), Spi(id), View())
      ensures o == Done ==> old(Valid()) ==> (Valid() <==> old(SparesOthers(View(), Spi(id))))
    {
      UninitMeetsContract(View(), Spi(id));
      hide Sound, SparesOthers, Freed, ReleaseAll;
      if id >= 2 {
        return InvalidId;
      }
      if Spi(id) !in inited {
        return NotInitialized;
      }
      ghost var b := View();
      var use := Settings(Spi(id));
      ReleaseAllSix(View().pins, use.pins, use.extra);
      ReleaseTwo(use.pins[0], use.pins[1]);
      ReleaseTwo(use.pins[2], use.pins[3]);
      for i := 0 to |use.extra|
        invariant Wired() && inited == b.inited && saved == b.saved
        invariant View().pins == ReleaseAll(b.pins, use.pins + use.extra[..i])
      {
        ReleaseNext(b.pins, use.pins, use.extra, i);
        var s := manager.ReleaseGpio(use.extra[i]);
      }
      assert use.extra[..|use.extra|] == use.extra;
      inited := inited - {Spi(id)};
      return Done;
    }

    method I2cInit(r: Request) returns (o: Outcome)
      requires Wired() && r.I2cInit?
      modifies this, manager`initialized, manager.settings
      ensures Wired() && (o, View()) == InitI2c(old(View()), r)
      ensures InitContract(old(View()), r, o, View())
      ensures old(Valid()) ==> Valid()
    {
      InitMeetsContract(View(), r);
      hide CheckAll, ReserveAll;
      if !I2cPinsValid(r.sda, r.scl) {
        return InvalidPins;
      }
      var s := CheckTwo(r.sda, r.scl);
      if s != Success {
        return Refused(s);
      }
      ReserveTwo(r.sda, r.scl, I2c);
      Save(I2c, Use([r.sda, r.scl], []));
      return Done;
    }

    /** No look at the init flag: whatever the settings name is released. */
    method I2cUninit()
      requires Wired()
      modifies this, manager`initialized, manager.settings
      ensures Wired() && View() == Uninit(old(View()), I2c)
      ensures UninitContract(old(View()), I2c, View())
      ensures old(Valid()) ==> (Valid() <==> old(SparesOthers(View(), I2c)))
    {
      UninitMeetsContract(View(), I2c);
      var ps := Settings(I2c).pins;
      assert ps == [ps[0], ps[1]];
      ReleaseTwo(ps[0], ps[1]);
      inited := inited - {I2c};
    }

    method UartInit(r: Request) returns (o: Outcome)
      requires Wired() && r.UartInit?
      modifies this, manager`initialized, manager.settings
      ensures Wired() && (o, View()) == InitUart(old(View()), r)
      ensures InitContract(old(View()), r, o, View())
      ensures old(Valid()) ==> Valid()
    {
      InitMeetsContract(View(), r);
      hide CheckAll, ReserveAll, UartPinsValid, FlowPinsValid;
      if r.id >= 3 {
        return InvalidId;
      }
      if !UartPinsValid(r.id, r.tx, r.rx) {
        return InvalidPins;
      }
      var s := CheckTwo(r.tx, r.rx);
      if s != Success {
        return Refused(s);
      }
      if !r.valid || (r.flow && r.id != 1) {
        return InvalidSettings;
      }
      ReserveTwo(r.tx, r.rx, Uart(r.id));
      if r.flow {
        if !FlowPinsValid(r.rts, r.cts) {
          return InvalidPins;
        }
        s := CheckTwo(r.rts, r.cts);
        if s != Success {
          return Refused(s);
        }
        ReserveTwo(r.rts, r.cts, Uart(r.id));
      }
      Save(Uart(r.id), Use(if r.flow then [r.tx, r.rx] + [r.rts, r.cts] else [r.tx, r.rx], []));
      return Done;
    }

    /** The status complains about a UART that is not initialised; the pins are released anyway.  An id
        behind the last UART reaches past the settings. */
    method UartUninit(id: nat) returns (o: Outcome)
      requires Wired()
      modifies this, manager`initialized, manager.settings
      ensures Wired() && o == if id >= 3 then Refused(OutOfBounds) else if Uart(id) in old(inited) then Done
                              else NotInitialized
      ensures View() == if id < 3 then Uninit(old(View()), Uart(id)) else old(View())
      ensures id < 3 ==> UninitContract(old(View()), Uart(id), View())
      ensures id < 3 ==> old(Valid()) ==> (Valid() <==> old(SparesOthers(View(), Uart(id))))
    {
      UninitMeetsContract(View(), Uart(id));
      hide Sound, SparesOthers, Freed, ReleaseAll;
      if id >= 3 {
        return Refused(OutOfBounds);
      }
      o := if Uart(id) in inited then Done else NotInitialized;
      var ps := Settings(Uart(id)).pins;
      ghost var b := View();
      if |ps| == 4 {
        ReleaseAllSix(b.pins, ps, []);
      } else {
        assert ps == [ps[0], ps[1]];
      }
      ReleaseTwo(ps[0], ps[1]);
      if |ps| == 4 {
        ReleaseTwo(ps[2], ps[3]);
      }
      inited := inited - {Uart(id)};
    }

    method PwmInit(r: Request) returns (o: Outcome)
      requires Wired() && r.PwmInit?
      modifies this, manager`initialized, manager.settings
      ensures Wired() && (o, View()) == InitPwm(old(View()), r)
      ensures InitContract(old(View()), r, o, View())
      ensures old(Valid()) ==> Valid()
    {
      InitMeetsContract(View(), r);
      if r.id > 4 {
        return InvalidId;
      }
      if Pwm(r.id) in inited {
        return AlreadyInitialized;
      }
      if !PwmPinValid(r.id, r.pin) {
        return InvalidPins;
      }
      o := TakeOne(Pwm(r.id), r.pin, r.valid);
    }

    method GpioInit(r: Request) returns (o: Outcome)
      requires Wired() && r.GpioInit?
      modifies this, manager`initialized, manager.settings
      ensures Wired() && (o, View()) == InitGpio(old(View()), r)
      ensures InitContract(old(View()), r, o, View())
      ensures old(Valid()) ==> Valid()
    {
      InitMeetsContract(View(), r);
      o := TakeOne(Gpio(r.pin), r.pin, r.valid);
    }

    /** Check one pin, look at the other settings, reserve and save. */
    method TakeOne(c: Client, pin: nat, valid: bool) returns (o: Outcome)
      requires Wired() && (c.Gpio? || c.Pwm?)
      modifies this, manager`initialized, manager.settings
      ensures Wired() && (o, View()) == Take(old(View()), c, [pin], valid)
    {
      OnePin(View().pins, pin, Tag(c));
      hide CheckAll, ReserveAll;
      var s := manager.CheckGpio(pin);
      if s != Success {
        return Refused(s);
      }
      if !valid {
        return InvalidSettings;
      }
      s := manager.ReserveGpio(pin, Tag(c));
      Save(c, Use([pin], []));
      return Done;
    }

    /** An id behind the last PWM reaches past the flags. */
    method PwmUninit(id: nat) returns (o: Outcome)
      requires Wired()
      modifies this, manager`initialized, manager.settings
      ensures Wired() && o == if id > 4 then Refused(OutOfBounds) else if Pwm(id) in old(inited) then Done
                              else NotInitialized
      ensures View() == if id <= 4 then Uninit(old(View()), Pwm(id)) else old(View())
      ensures id <= 4 ==> UninitContract(old(View()), Pwm(id), View())
      ensures id <= 4 ==> old(Valid()) ==> (Valid() <==> old(SparesOthers(View(), Pwm(id))))
    {
      UninitMeetsContract(View(), Pwm(id));
      if id > 4 {
        return Refused(OutOfBounds);
      }
      if Pwm(id) !in inited {
        assert View().inited - {Pwm(id)} == View().inited;
        return NotInitialized;
      }
      var ps := Settings(Pwm(id)).pins;
      assert ps + [] == [ps[0]];
      ReleaseOne(View().pins, ps[0]);
      var s := manager.ReleaseGpio(ps[0]);
      inited := inited - {Pwm(id)};
      return Done;
    }

    method GpioUninit(pin: nat) returns (o: Outcome)
      requires Wired()
      modifies this, manager`initialized, manager.settings
      ensures Wired()
      ensures o == if pin >= PIN_COUNT || Missing(pin) then Refused(PinNotAvailable) else Done
      ensures View().pins == Uninit(old(View()), Gpio(pin)).pins
      ensures o == Done ==> View() == Uninit(old(View()), Gpio(pin))
      ensures o == Done ==> UninitContract(old(View()), Gpio(pin), View())
      ensures o == Done ==> old(Valid()) ==> (Valid() <==> old(SparesOthers(View(), Gpio(pin))))
    {
      UninitMeetsContract(View(), Gpio(pin));
      if pin >= PIN_COUNT || Missing(pin) {
        return Refused(PinNotAvailable);
      }
      ReleaseOne(View().pins, pin);
      var s := manager.ReleaseGpio(pin);
      inited := inited - {Gpio(pin)};
      return Done;
    }

    method AdcInit(r: Request) returns (o: Outcome)
      requires Wired() && r.AdcInit?
      modifies this, manager`initialized, manager.settings
      ensures Wired() && (o, View()) == InitAdc(old(View()), r)
      ensures InitContract(old(View()), r, o, View())
      ensures old(Valid()) ==> Valid()
    {
      InitMeetsContract(View(), r);
      if r.channel > 3 {
        return InvalidId;
      }
      if Adc(r.channel) in inited {
        return AlreadyInitialized;
      }
      if !AdcPinValid(r.p) {
        return InvalidPins;
      }
      var s := manager.CheckGpio(r.p);
      if s != Success {
        return Refused(s);
      }
      if r.n != NOT_SET && !AdcPinValid(r.n) {
        return InvalidPins;
      }
      if r.n != NOT_SET {
        s := manager.CheckGpio(r.n);
        if s != Success {
          return Refused(s);
        }
      }
      if !r.valid {
        return InvalidSettings;
      }
      ReserveAdc(r);
      return Done;
    }

    method ReserveAdc(r: Request)
      requires Wired() && r.AdcInit?
      modifies this, manager`initialized, manager.settings
      ensures Wired()
      ensures var c := Adc(r.channel);
              var ps := if r.n == NOT_SET then [r.p] else [r.p, r.n];
              View() == Record(Claim(old(View()), c, ps), c, Use([r.p, r.n], []))
    {
      OnePin(View().pins, r.p, SET_FOR_ADC);
      ReserveAllTwo(View().pins, r.p, r.n, SET_FOR_ADC);
      hide ReserveAll;
      Save(Adc(r.channel), Use([r.p, r.n], []));
      var s := manager.ReserveGpio(r.p, SET_FOR_ADC);
      if r.n != NOT_SET {
        s := manager.ReserveGpio(r.n, SET_FOR_ADC);
      }
    }

    method AdcUninit(channel: nat) returns (o: Outcome)
      requires Wired()
      modifies this, manager`initialized, manager.settings
      ensures Wired()
      ensures o == if channel > 3 then InvalidId else if Adc(channel) in old(inited) then Done else NotInitialized
      ensures View() == if o == Done then Uninit(old(View()), Adc(channel)) else old(View())
      ensures o == Done ==> UninitContract(old(View()), Adc(channel), View())
      ensures o == Done ==> old(Valid()) ==> (Valid() <==> old(SparesOthers(View(), Adc(channel))))
    {
      UninitMeetsContract(View(), Adc(channel));
      if channel > 3 {
        return InvalidId;
      }
      if Adc(channel) !in inited {
        return NotInitialized;
      }
      var ps := Settings(Adc(channel)).pins;
      assert ps + [] == [ps[0], ps[1]];
      inited := inited - {Adc(channel)};
      ReleaseTwo(ps[0], ps[1]);
      return Done;
    }
  }

  // ---- short pin lists -----------------------------------------------------------------------

  lemma OnePin(pins: Pins, a: nat, tag: nat)
    ensures CheckAll(pins, [a]) == Check(pins, a) && ReserveAll(pins, [a], tag) == Reserve(pins, a, tag)
  {
    assert [a][..0] == [] && [a][1..] == [];
  }

  lemma CheckAllTwo(pins: Pins, a: nat, b: nat)
    ensures CheckAll(pins, [a, b]) == if Check(pins, a) != Success then Check(pins, a) else Check(pins, b)
  {
    assert [a, b][1..] == [b];
    OnePin(pins, b, 0);
  }

  lemma CheckAllFour(pins: Pins, a: nat, b: nat, c: nat, d: nat)
    ensures CheckAll(pins, [a, b, c, d])
         == if CheckAll(pins, [a, b]) != Success then CheckAll(pins, [a, b]) else CheckAll(pins, [c, d])
  {
    assert [a, b, c, d][1..] == [b, c, d] && [b, c, d][1..] == [c, d];
    CheckAllTwo(pins, a, b);
  }

  lemma ReserveAllTwo(pins: Pins, a: nat, b: nat, tag: nat)
    ensures ReserveAll(pins, [a, b], tag) == Reserve(Reserve(pins, a, tag), b, tag)
  {
    assert [a, b][..1] == [a];
    OnePin(pins, a, tag);
  }

  lemma ReserveAllFour(pins: Pins, a: nat, b: nat, c: nat, d: nat, tag: nat)
    ensures ReserveAll(pins, [a, b, c, d], tag) == ReserveAll(ReserveAll(pins, [a, b], tag), [c, d], tag)
  {
    assert [a, b, c, d][..3] == [a, b, c] && [a, b, c][..2] == [a, b];
    ReserveAllTwo(ReserveAll(pins, [a, b], tag), c, d, tag);
  }

  lemma ReleaseAllTwo(pins: Pins, a: nat, b: nat)
    ensures ReleaseAll(pins, [a, b]) == Release(Release(pins, a), b)
  {
    assert [a, b][..1] == [a];
    ReleaseOne(pins, a);
  }

  lemma ReleaseOne(pins: Pins, a: nat)
    ensures ReleaseAll(pins, [a]) == Release(pins, a)
  {
    assert [a][..0] == [];
  }

  lemma ReleaseNext(pins: Pins, ps: seq<nat>, extra: seq<nat>, i: nat)
    requires i < |extra|
    ensures ReleaseAll(pins, ps + extra[..i + 1]) == Release(ReleaseAll(pins, ps + extra[..i]), extra[i])
  {
    var all := ps + extra[..i + 1];
    assert all[..|all| - 1] == ps + extra[..i] && all[|all| - 1] == extra[i];
  }

  lemma ReleaseAllSix(pins: Pins, ps: seq<nat>, extra: seq<nat>)
    requires |ps| == 4
    ensures ReleaseAll(pins, ps) == ReleaseAll(ReleaseAll(pins, [ps[0], ps[1]]), [ps[2], ps[3]])
    ensures ps + extra[..0] == ps
  {
    assert forall p :: p in ps ==> p in ps + extra;
    assert ps[..3] == ps[..2] + [ps[2]] && ps[..3][..2] == [ps[0], ps[1]];
    ReleaseAllTwo(ReleaseAll(pins, [ps[0], ps[1]]), ps[2], ps[3]);
  }
}
