/** The GPIO manager: which peripheral each of the 32 pins is reserved for. */
module PinManager {

  const PIN_COUNT: nat := 32
  const AVAILABLE: nat := 0
  const SET_FOR_GPIO: nat := 170
  const SET_FOR_ADC: nat := 171
  const SET_FOR_I2C: nat := 174
  const SET_FOR_PWM: nat := 175
  const SET_FOR_SPI: nat := 176
  const SET_FOR_UART: nat := 177
  const UNAVAILABLE: nat := 180

  /** The manager's verdicts; a pin in use answers with the tag it is in use for.  `OutOfBounds` stands
      for the access one past the table that the bound test lets through. */
  datatype Status = Success | PinNotAvailable | InvalidParam | InUse(tag: nat) | OutOfBounds

  /** The pins the chip does not bring out: 10 to 13, 18, 19 and 24 to 27. */
  predicate Missing(pin: nat) {
    10 <= pin <= 13 || 18 <= pin <= 19 || 24 <= pin <= 27
  }

  /** The table: one tag for each pin. */
  type Pins = pins: seq<nat> | |pins| == PIN_COUNT witness seq(PIN_COUNT, p => AVAILABLE)

  predicate Shape(pins: Pins) {
    forall p :: 0 <= p < PIN_COUNT ==> (pins[p] == UNAVAILABLE <==> Missing(p))
  }

  function Initial(): (pins: Pins)
    ensures Shape(pins)
  {
    seq(PIN_COUNT, p requires 0 <= p < PIN_COUNT => if Missing(p) then UNAVAILABLE else AVAILABLE)
  }

  function Check(pins: Pins, pin: nat): (s: Status)
  {
    if pin > PIN_COUNT then PinNotAvailable
    else if pin == PIN_COUNT then OutOfBounds
    else if pins[pin] == AVAILABLE then Success
    else InUse(pins[pin])
  }

  /** Before anything is reserved exactly the pins that are brought out can be had. */
  lemma InitialExact(pin: nat)
    ensures Check(Initial(), pin) == Success <==>
              pin in {0, 1, 2, 3, 4, 5, 6, 7, 8, 9, 14, 15, 16, 17, 20, 21, 22, 23, 28, 29, 30, 31}
  {
  }

  function ReserveStatus(pins: Pins, pin: nat, tag: nat): (s: Status)
  {
    if pin > PIN_COUNT then PinNotAvailable
    else if tag < SET_FOR_GPIO || tag > UNAVAILABLE then InvalidParam
    else Check(pins, pin)
  }

  function Reserve(pins: Pins, pin: nat, tag: nat): (pins': Pins)
  {
    if ReserveStatus(pins, pin, tag) == Success then pins[pin := tag] else pins
  }

  function ReleaseStatus(pins: Pins, pin: nat): (s: Status)
  {
    if pin > PIN_COUNT then PinNotAvailable
    else if pin == PIN_COUNT then OutOfBounds
    else if pins[pin] == UNAVAILABLE then PinNotAvailable
    else Success
  }

  function Release(pins: Pins, pin: nat): (pins': Pins)
  {
    if ReleaseStatus(pins, pin) == Success then pins[pin := AVAILABLE] else pins
  }

  /** Of all pins exactly the one behind the last gets past the bound tests and out of the table:
      checked, released, and reserved with any tag the manager takes. */
  lemma PastTableExactly(pins: Pins, pin: nat, tag: nat)
    ensures Check(pins, pin) == OutOfBounds <==> pin == PIN_COUNT
    ensures ReleaseStatus(pins, pin) == OutOfBounds <==> pin == PIN_COUNT
    ensures ReserveStatus(pins, pin, tag) == OutOfBounds <==> pin == PIN_COUNT && SET_FOR_GPIO <= tag <= UNAVAILABLE
  {
  }

  /** The table is filled on first use, whichever operation comes first; until then the view is what
      that first use will make of it. */
  class Manager {
    const settings: array<nat>
    var initialized: bool

    ghost predicate Valid()
      reads this
    {
      settings.Length == PIN_COUNT
    }

    ghost function View(): (pins: Pins)
      requires Valid()
      reads this, settings
    {
      if initialized then settings[..] else Initial()
    }

    constructor ()
      ensures Valid() && fresh(settings) && View() == Initial()
    {
      settings, initialized := new nat[PIN_COUNT], false;
    }

    method Init()
      requires Valid()
      modifies this`initialized, settings
      ensures Valid() && initialized && View() == old(View())
    {
      if initialized {
        return;
      }
      for pin := 0 to PIN_COUNT
        invariant forall p :: 0 <= p < pin ==> settings[p] == Initial()[p]
      {
        if 10 <= pin <= 13 || 18 <= pin <= 19 || 24 <= pin <= 27 {
          settings[pin] := UNAVAILABLE;
        } else {
          settings[pin] := AVAILABLE;
        }
      }
      initialized := true;
      assert settings[..] == Initial();
    }

    method ReserveGpio(pin: nat, tag: nat) returns (s: Status)
      requires Valid()
      modifies this`initialized, settings
      ensures Valid() && s == ReserveStatus(old(View()), pin, tag)
      ensures View() == Reserve(old(View()), pin, tag)
      ensures s == (if pin > 32 then PinNotAvailable
                    else if tag < 170 || tag > 180 then InvalidParam
                    else if pin == 32 then OutOfBounds
                    else if old(View())[pin] == 0 then Success else InUse(old(View())[pin]))
      ensures forall p :: 0 <= p < 32 ==> View()[p] == if p == pin && s == Success then tag else old(View())[p]
      ensures old(Shape(View())) ==> (Shape(View()) <==> s != Success || tag != UNAVAILABLE)
    {
      Init();
      if pin > PIN_COUNT {
        return PinNotAvailable;
      }
      if tag < SET_FOR_GPIO || tag > UNAVAILABLE {
        return InvalidParam;
      }
      if pin == PIN_COUNT {
        return OutOfBounds;
      }
      if settings[pin] != AVAILABLE {
        return InUse(settings[pin]);
      }
      settings[pin] := tag;
      return Success;
    }

    method ReleaseGpio(pin: nat) returns (s: Status)
      requires Valid()
      modifies this`initialized, settings
      ensures Valid() && s == ReleaseStatus(old(View()), pin)
      ensures View() == Release(old(View()), pin)
      ensures s == (if pin > 32 then PinNotAvailable
                    else if pin == 32 then OutOfBounds
                    else if old(View())[pin] == 180 then PinNotAvailable else Success)
      ensures forall p :: 0 <= p < 32 ==> View()[p] == if p == pin && s == Success then 0 else old(View())[p]
      ensures old(Shape(View())) ==> Shape(View()) && (s == Success <==> pin < PIN_COUNT && !Missing(pin))
    {
      Init();
      if pin > PIN_COUNT {
        return PinNotAvailable;
      }
      if pin == PIN_COUNT {
        return OutOfBounds;
      }
      if settings[pin] == UNAVAILABLE {
        return PinNotAvailable;
      }
      settings[pin] := AVAILABLE;
      return Success;
    }

    method CheckGpio(pin: nat) returns (s: Status)
      requires Valid()
      modifies this`initialized, settings
      ensures Valid() && s == Check(old(View()), pin) && View() == old(View())
      ensures s == (if pin > 32 then PinNotAvailable
                    else if pin == 32 then OutOfBounds
                    else if View()[pin] == 0 then Success else InUse(View()[pin]))
    {
      Init();
      if pin > PIN_COUNT {
        return PinNotAvailable;
      }
      if pin == PIN_COUNT {
        return OutOfBounds;
      }
      return if settings[pin] == AVAILABLE then Success else InUse(settings[pin]);
    }
  }

  // ---- several pins --------------------------------------------------------------------------

  /** Reserve one after the other; a refusal is ignored, as the drivers do. */
  function ReserveAll(pins: Pins, ps: seq<nat>, tag: nat): (pins': Pins)
  {
    if ps == [] then pins else Reserve(ReserveAll(pins, ps[..|ps| - 1], tag), ps[|ps| - 1], tag)
  }

  function ReleaseAll(pins: Pins, ps: seq<nat>): (pins': Pins)
  {
    if ps == [] then pins else Release(ReleaseAll(pins, ps[..|ps| - 1]), ps[|ps| - 1])
  }

  predicate IsTag(tag: nat) {
    SET_FOR_GPIO <= tag < UNAVAILABLE
  }

  lemma {:induction false} ReserveAllAt(pins: Pins, ps: seq<nat>, tag: nat, p: nat)
    requires IsTag(tag) && p < PIN_COUNT
    ensures ReserveAll(pins, ps, tag)[p] == if p in ps && pins[p] == AVAILABLE then tag else pins[p]
  {
    if ps != [] {
      var q := ps[|ps| - 1];
      ReserveAllAt(pins, ps[..|ps| - 1], tag, p);
      assert p in ps <==> p in ps[..|ps| - 1] || p == q;
    }
  }

  lemma {:induction false} ReleaseAllAt(pins: Pins, ps: seq<nat>, p: nat)
    requires p < PIN_COUNT
    ensures ReleaseAll(pins, ps)[p] == if p in ps && pins[p] != UNAVAILABLE then AVAILABLE else pins[p]
  {
    if ps != [] {
      var q := ps[|ps| - 1];
      ReleaseAllAt(pins, ps[..|ps| - 1], p);
      assert p in ps <==> p in ps[..|ps| - 1] || p == q;
    }
  }

  lemma {:induction false} ReserveAllAppend(pins: Pins, ps: seq<nat>, qs: seq<nat>, tag: nat)
    ensures ReserveAll(pins, ps + qs, tag) == ReserveAll(ReserveAll(pins, ps, tag), qs, tag)
  {
    if qs == [] {
      assert ps + qs == ps;
    } else {
      assert (ps + qs)[..|ps + qs| - 1] == ps + qs[..|qs| - 1];
      ReserveAllAppend(pins, ps, qs[..|qs| - 1], tag);
    }
  }

  /** Whatever is reserved and released, the missing pins stay unavailable and no other pin ever
      becomes so. */
  lemma ReserveAllShape(pins: Pins, ps: seq<nat>, tag: nat)
    requires Shape(pins) && IsTag(tag)
    ensures Shape(ReserveAll(pins, ps, tag))
  {
    forall p | 0 <= p < PIN_COUNT
      ensures ReserveAll(pins, ps, tag)[p] == UNAVAILABLE <==> Missing(p)
    {
      ReserveAllAt(pins, ps, tag, p);
    }
  }

  lemma ReleaseAllShape(pins: Pins, ps: seq<nat>)
    requires Shape(pins)
    ensures Shape(ReleaseAll(pins, ps))
  {
    forall p | 0 <= p < PIN_COUNT
      ensures ReleaseAll(pins, ps)[p] == UNAVAILABLE <==> Missing(p)
    {
      ReleaseAllAt(pins, ps, p);
    }
  }

  /** Releasing what was reserved while free gives the table back. */
  lemma ReleaseReserved(pins: Pins, ps: seq<nat>, tag: nat)
    requires IsTag(tag)
    requires forall p :: p in ps && p < PIN_COUNT ==> pins[p] == AVAILABLE
    ensures ReleaseAll(ReserveAll(pins, ps, tag), ps) == pins
  {
    forall p: nat | p < PIN_COUNT
      ensures ReleaseAll(ReserveAll(pins, ps, tag), ps)[p] == pins[p]
    {
      ReserveAllAt(pins, ps, tag, p);
      ReleaseAllAt(ReserveAll(pins, ps, tag), ps, p);
    }
  }
}
