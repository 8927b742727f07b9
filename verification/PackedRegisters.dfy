/** Per-pin settings packed into shared registers: pin function and pull four bits a pin, drive
    strength two bits a pin, and one bit a pin in each of the two wake registers. */
module PackedRegisters {
  import opened Wrappers
  import opened PinManager

  type Registers = seq<bv32>

  // The bit operations are named so that proofs can use their laws and nothing else.

  function Keep(register: bv32, mask: bv32): (r: bv32) { register & mask }

  function Clear(register: bv32, mask: bv32): (r: bv32) { register & !mask }

  function Merge(register: bv32, value: bv32): (r: bv32) { register | value }

  // ---- one field of one register -------------------------------------------------------------

  /** Four-bit fields have eight places in a register, two-bit fields sixteen. */
  predicate IsWidth(bits: nat) { bits == 4 || bits == 2 }

  function Places(bits: nat): (n: nat) { if bits == 4 then 8 else 16 }

  function FieldMask(bits: nat): (m: bv32) { if bits == 4 then 0x0F else 0x03 }

  function Up(v: bv32, bits: nat, place: nat): (r: bv32)
    requires IsWidth(bits) && place < Places(bits)
  {
    v << (place * bits)
  }

  function Down(v: bv32, bits: nat, place: nat): (r: bv32)
    requires IsWidth(bits) && place < Places(bits)
  {
    v >> (place * bits)
  }

  function PlaceMask(bits: nat, place: nat): (m: bv32)
    requires IsWidth(bits) && place < Places(bits)
  {
    Up(FieldMask(bits), bits, place)
  }

  function GetPlace(register: bv32, bits: nat, place: nat): (v: bv32)
    requires IsWidth(bits) && place < Places(bits)
  {
    Down(Keep(register, PlaceMask(bits, place)), bits, place)
  }

  function PutPlace(register: bv32, bits: nat, place: nat, v: bv32): (r: bv32)
    requires IsWidth(bits) && place < Places(bits)
  {
    Merge(Clear(register, PlaceMask(bits, place)), Up(v, bits, place))
  }

  lemma UpFits(v: bv32, bits: nat, place: nat)
    requires IsWidth(bits) && place < Places(bits) && Keep(v, FieldMask(bits)) == v
    ensures Keep(Up(v, bits, place), PlaceMask(bits, place)) == Up(v, bits, place)
    ensures Down(Up(v, bits, place), bits, place) == v
  {
  }

  lemma FourBitsApart(i: nat, j: nat)
    requires i < 8 && j < 8 && i != j
    ensures Keep(Up(0x0F, 4, i), Up(0x0F, 4, j)) == 0
  {
  }

  lemma TwoBitsApart(i: nat, j: nat)
    requires i < 16 && j < 16 && i != j
    ensures Keep(Up(0x03, 2, i), Up(0x03, 2, j)) == 0
  {
  }

  lemma PlacesApart(bits: nat, i: nat, j: nat)
    requires IsWidth(bits) && i < Places(bits) && j < Places(bits) && i != j
    ensures Keep(PlaceMask(bits, i), PlaceMask(bits, j)) == 0
  {
    hide Keep, Up;
    if bits == 4 {
      FourBitsApart(i, j);
    } else {
      TwoBitsApart(i, j);
    }
  }

  lemma MaskedSame(register: bv32, value: bv32, mask: bv32)
    requires Keep(value, mask) == value
    ensures Keep(Merge(Clear(register, mask), value), mask) == value
  {
  }

  lemma MaskedOther(register: bv32, value: bv32, mask: bv32, other: bv32)
    requires Keep(value, mask) == value && Keep(mask, other) == 0
    ensures Keep(Merge(Clear(register, mask), value), other) == Keep(register, other)
  {
  }

  lemma PutGet(register: bv32, bits: nat, place: nat, v: bv32)
    requires IsWidth(bits) && place < Places(bits) && Keep(v, FieldMask(bits)) == v
    ensures GetPlace(PutPlace(register, bits, place, v), bits, place) == v
  {
    hide Keep, Clear, Merge, Up, Down, PlaceMask, FieldMask;
    UpFits(v, bits, place);
    MaskedSame(register, Up(v, bits, place), PlaceMask(bits, place));
  }

  lemma PutGetOther(register: bv32, bits: nat, i: nat, j: nat, v: bv32)
    requires IsWidth(bits) && i < Places(bits) && j < Places(bits) && i != j && Keep(v, FieldMask(bits)) == v
    ensures GetPlace(PutPlace(register, bits, i, v), bits, j) == GetPlace(register, bits, j)
  {
    hide Keep, Clear, Merge, Up, Down, PlaceMask, FieldMask;
    UpFits(v, bits, i);
    PlacesApart(bits, i, j);
    MaskedOther(register, Up(v, bits, i), PlaceMask(bits, i), PlaceMask(bits, j));
  }

  /** The bits of each place in a register. */
  const FOUR_BITS: seq<bv32> := [0xF, 0xF0, 0xF00, 0xF000, 0xF_0000, 0xF0_0000, 0xF00_0000, 0xF000_0000]
  const LOW_TWO_BITS: seq<bv32> := [0x3, 0xC, 0x30, 0xC0, 0x300, 0xC00, 0x3000, 0xC000]
  const HIGH_TWO_BITS: seq<bv32> :=
    [0x3_0000, 0xC_0000, 0x30_0000, 0xC0_0000, 0x300_0000, 0xC00_0000, 0x3000_0000, 0xC000_0000]

  function TwoBits(place: nat): (bits: bv32)
    requires place < 16
  {
    if place < 8 then LOW_TWO_BITS[place] else HIGH_TWO_BITS[place - 8]
  }

  lemma FourBitsAre(place: nat)
    requires place < 8
    ensures PlaceMask(4, place) == FOUR_BITS[place]
  {
  }

  lemma TwoBitsAre(place: nat)
    requires place < 16
    ensures PlaceMask(2, place) == TwoBits(place)
  {
  }

  /** A value put at a place stands in that place's bits. */
  lemma PutStands(register: bv32, bits: nat, place: nat, v: bv32)
    requires IsWidth(bits) && place < Places(bits) && Keep(v, FieldMask(bits)) == v
    ensures Keep(PutPlace(register, bits, place, v), PlaceMask(bits, place)) == Up(v, bits, place)
  {
    hide Keep, Clear, Merge, Up, PlaceMask, FieldMask;
    UpFits(v, bits, place);
    MaskedSame(register, Up(v, bits, place), PlaceMask(bits, place));
  }

  lemma UpIs(v: bv32, bits: nat, place: nat)
    requires IsWidth(bits) && place < Places(bits)
    ensures Up(v, bits, place) == v << (place * bits)
  {
  }

  // ---- a bank of registers -------------------------------------------------------------------

  /** Enough registers for 32 pins. */
  predicate IsBank(bank: Registers, bits: nat) {
    IsWidth(bits) && |bank| * Places(bits) == PIN_COUNT
  }

  function GetPin(bank: Registers, bits: nat, pin: nat): (v: bv32)
    requires IsBank(bank, bits) && pin < PIN_COUNT
  {
    GetPlace(bank[pin / Places(bits)], bits, pin % Places(bits))
  }

  function PutPin(bank: Registers, bits: nat, pin: nat, v: bv32): (bank': Registers)
    requires IsBank(bank, bits) && pin < PIN_COUNT
    ensures IsBank(bank', bits)
  {
    bank[pin / Places(bits) := PutPlace(bank[pin / Places(bits)], bits, pin % Places(bits), v)]
  }

  /** A packed write is an update of a map from pins to values. */
  lemma PutPinIsUpdate(bank: Registers, bits: nat, pin: nat, v: bv32, other: nat)
    requires IsBank(bank, bits) && pin < PIN_COUNT && other < PIN_COUNT && Keep(v, FieldMask(bits)) == v
    ensures GetPin(PutPin(bank, bits, pin, v), bits, other) == if other == pin then v else GetPin(bank, bits, other)
  {
    hide GetPlace, PutPlace, FieldMask, Keep;
    var n := Places(bits);
    if other == pin {
      PutGet(bank[pin / n], bits, pin % n, v);
    } else if other / n == pin / n {
      assert other % n != pin % n;
      PutGetOther(bank[pin / n], bits, pin % n, other % n, v);
    }
  }

  /** The four bits of a pin in a bank of eight pins to a register hold the value. */
  predicate FourAt(bank: Registers, pin: nat, v: bv32) {
    pin < 32 && |bank| == 4 && Keep(bank[pin / 8], FOUR_BITS[pin % 8]) == Up(v, 4, pin % 8)
  }

  predicate TwoAt(bank: Registers, pin: nat, v: bv32) {
    pin < 32 && |bank| == 2 && Keep(bank[pin / 16], TwoBits(pin % 16)) == Up(v, 2, pin % 16)
  }

  /** Where a written value stands: eight pins to a register and four bits to a pin, the lowest pin in the
      lowest bits. */
  lemma FourStands(bank: Registers, pin: nat, v: bv32)
    requires IsBank(bank, 4) && pin < 32 && Keep(v, FieldMask(4)) == v
    ensures FourAt(PutPin(bank, 4, pin, v), pin, v)
  {
    hide PutPlace, PlaceMask, FieldMask, Keep, Up;
    PutStands(bank[pin / 8], 4, pin % 8, v);
    FourBitsAre(pin % 8);
  }

  /** Or sixteen pins and two bits. */
  lemma TwoStands(bank: Registers, pin: nat, v: bv32)
    requires IsBank(bank, 2) && pin < 32 && Keep(v, FieldMask(2)) == v
    ensures TwoAt(PutPin(bank, 2, pin, v), pin, v)
  {
    hide PutPlace, PlaceMask, FieldMask, TwoBits, Keep, Up;
    PutStands(bank[pin / 16], 2, pin % 16, v);
    TwoBitsAre(pin % 16);
  }

  lemma FieldsAfterPut(bank: Registers, bits: nat, pin: nat, v: bv32)
    requires IsBank(bank, bits) && pin < PIN_COUNT
    ensures Keep(v, FieldMask(bits)) == v ==>
              forall other: nat :: other < PIN_COUNT ==>
                GetPin(PutPin(bank, bits, pin, v), bits, other) == if other == pin then v else GetPin(bank, bits, other)
  {
    hide GetPin, PutPin, Keep, FieldMask;
    if Keep(v, FieldMask(bits)) == v {
      forall other: nat | other < PIN_COUNT
        ensures GetPin(PutPin(bank, bits, pin, v), bits, other) == if other == pin then v else GetPin(bank, bits, other)
      {
        PutPinIsUpdate(bank, bits, pin, v, other);
      }
    }
  }

  // ---- the chip's registers ------------------------------------------------------------------

  datatype Chip = Chip(modes: Registers, pull: Registers, drive: Registers, wakeHigh: bv32, wakeLow: bv32)

  predicate IsChip(c: Chip) {
    IsBank(c.modes, 4) && IsBank(c.pull, 4) && IsBank(c.drive, 2)
  }

  predicate PinUsable(pin: nat) {
    pin < PIN_COUNT && !Missing(pin)
  }

  /** What can be set for one pin; the values are those of the enumerations. */
  datatype Setting = Mode(mode: bv32) | Pull(pull: bv32) | Drive(strength: bv32) | Wake(wake: nat)

  const WAKE_NONE: nat := 0
  const WAKE_LOW: nat := 1
  const WAKE_HIGH: nat := 2

  function PinBit(pin: nat): (b: bv32)
    requires pin < PIN_COUNT
  {
    1 << pin
  }

  predicate Accepts(pin: nat, s: Setting) {
    PinUsable(pin) &&
    match s
    case Mode(m) => m <= 7
    case Pull(p) => p <= 7
    case Drive(d) => d <= 3
    case Wake(_) => true
  }

  function SetWake(c: Chip, pin: nat, wake: nat): (c': Chip)
    requires pin < PIN_COUNT
  {
    var bit := PinBit(pin);
    if wake == WAKE_NONE then c.(wakeHigh := Clear(c.wakeHigh, bit), wakeLow := Clear(c.wakeLow, bit))
    else if wake == WAKE_LOW then c.(wakeHigh := Clear(c.wakeHigh, bit), wakeLow := Merge(c.wakeLow, bit))
    else if wake == WAKE_HIGH then c.(wakeHigh := Merge(c.wakeHigh, bit), wakeLow := Clear(c.wakeLow, bit))
    else c
  }

  /** A set call; refused requests change nothing. */
  function Set(c: Chip, pin: nat, s: Setting): (c': Chip)
    requires IsChip(c)
    ensures IsChip(c')
  {
    if !Accepts(pin, s) then c
    else
      match s
      case Mode(m) => c.(modes := PutPin(c.modes, 4, pin, m))
      case Pull(p) => c.(pull := PutPin(c.pull, 4, pin, p))
      case Drive(d) => c.(drive := PutPin(c.drive, 2, pin, d))
      case Wake(w) => SetWake(c, pin, w)
  }

  function GetWake(c: Chip, pin: nat): (wake: nat)
    requires pin < PIN_COUNT
  {
    if Keep(PinBit(pin), c.wakeHigh) > 0 then WAKE_HIGH
    else if Keep(PinBit(pin), c.wakeLow) > 0 then WAKE_LOW
    else WAKE_NONE
  }

  // ---- the same settings as one record a pin -------------------------------------------------

  datatype PinState = PinState(mode: bv32, pull: bv32, drive: bv32, wake: nat)

  /** What the four getters answer for a pin. */
  function Read(c: Chip, pin: nat): (p: PinState)
    requires IsChip(c) && pin < PIN_COUNT
  {
    PinState(GetPin(c.modes, 4, pin), GetPin(c.pull, 4, pin), GetPin(c.drive, 2, pin), GetWake(c, pin))
  }

  function Updated(p: PinState, s: Setting): (p': PinState)
  {
    match s
    case Mode(m) => p.(mode := m)
    case Pull(u) => p.(pull := u)
    case Drive(d) => p.(drive := d)
    case Wake(w) => if w <= WAKE_HIGH then p.(wake := w) else p
  }

  lemma NarrowValues(v: bv32)
    ensures v <= 7 ==> Keep(v, FieldMask(4)) == v
    ensures v <= 3 ==> Keep(v, FieldMask(2)) == v
  {
  }

  lemma OtherBitMerged(register: bv32, bit: bv32, other: bv32)
    requires Keep(bit, other) == 0
    ensures Keep(other, Merge(register, bit)) == Keep(other, register)
  {
  }

  lemma OtherBitCleared(register: bv32, bit: bv32, other: bv32)
    requires Keep(bit, other) == 0
    ensures Keep(other, Clear(register, bit)) == Keep(other, register)
  {
  }

  lemma OwnBit(register: bv32, bit: bv32)
    ensures Keep(bit, Merge(register, bit)) == bit && Keep(bit, Clear(register, bit)) == 0
  {
  }

  lemma BitsApart(i: nat, j: nat)
    requires i < PIN_COUNT && j < PIN_COUNT
    ensures PinBit(i) > 0 && (i != j ==> Keep(PinBit(i), PinBit(j)) == 0)
  {
  }

  lemma SetWakeReads(c: Chip, pin: nat, wake: nat, other: nat)
    requires pin < PIN_COUNT && other < PIN_COUNT
    ensures GetWake(SetWake(c, pin, wake), other)
         == if other == pin && wake <= WAKE_HIGH then wake else GetWake(c, other)
  {
    hide PinBit, Keep, Clear, Merge;
    BitsApart(pin, other);
    if other == pin {
      OwnBit(c.wakeHigh, PinBit(pin));
      OwnBit(c.wakeLow, PinBit(pin));
    } else {
      OtherBitMerged(c.wakeHigh, PinBit(pin), PinBit(other));
      OtherBitCleared(c.wakeHigh, PinBit(pin), PinBit(other));
      OtherBitMerged(c.wakeLow, PinBit(pin), PinBit(other));
      OtherBitCleared(c.wakeLow, PinBit(pin), PinBit(other));
    }
  }

  /** A set call changes the named setting of the named pin and nothing that any getter shows of any
      pin besides. */
  lemma SetRefines(c: Chip, pin: nat, s: Setting, other: nat)
    requires IsChip(c) && other < PIN_COUNT
    ensures Read(Set(c, pin, s), other)
         == if other == pin && Accepts(pin, s) then Updated(Read(c, other), s) else Read(c, other)
  {
    hide GetPin, PutPin, FieldMask, Keep, Clear, Merge, PinBit;
    if Accepts(pin, s) {
      match s
      case Mode(m) => NarrowValues(m); PutPinIsUpdate(c.modes, 4, pin, m, other);
      case Pull(u) => NarrowValues(u); PutPinIsUpdate(c.pull, 4, pin, u, other);
      case Drive(d) => NarrowValues(d); PutPinIsUpdate(c.drive, 2, pin, d, other);
      case Wake(w) => SetWakeReads(c, pin, w, other);
    }
  }

  // ---- runs ----------------------------------------------------------------------------------

  datatype Call = Call(pin: nat, setting: Setting)

  function Run(c: Chip, calls: seq<Call>): (c': Chip)
    requires IsChip(c)
    ensures IsChip(c')
  {
    if calls == [] then c
    else Set(Run(c, calls[..|calls| - 1]), calls[|calls| - 1].pin, calls[|calls| - 1].setting)
  }

  /** One pin's own history: the accepted calls that name it. */
  function History(p: PinState, calls: seq<Call>, pin: nat): (p': PinState)
  {
    if calls == [] then p
    else
      var before, call := History(p, calls[..|calls| - 1], pin), calls[|calls| - 1];
      if call.pin == pin && Accepts(pin, call.setting) then Updated(before, call.setting) else before
  }

  /** Over every sequence of calls the packed registers read as 32 independent pins. */
  lemma {:induction false} RunRefines(c: Chip, calls: seq<Call>, pin: nat)
    requires IsChip(c) && pin < PIN_COUNT
    ensures Read(Run(c, calls), pin) == History(Read(c, pin), calls, pin)
  {
    if calls != [] {
      hide IsChip, Read, Set, Accepts;
      var before, call := calls[..|calls| - 1], calls[|calls| - 1];
      RunRefines(c, before, pin);
      SetRefines(Run(c, before), call.pin, call.setting, pin);
    }
  }

  /** No pin is in both wake registers. */
  predicate WakeApart(c: Chip) { Keep(c.wakeHigh, c.wakeLow) == 0 }

  lemma BothCleared(high: bv32, low: bv32, bit: bv32)
    requires Keep(high, low) == 0
    ensures Keep(Clear(high, bit), Clear(low, bit)) == 0
  {
  }

  lemma OneMerged(a: bv32, b: bv32, bit: bv32)
    requires Keep(a, b) == 0
    ensures Keep(Clear(a, bit), Merge(b, bit)) == 0
  {
  }

  lemma KeepSwaps(a: bv32, b: bv32)
    ensures Keep(a, b) == Keep(b, a)
  {
  }

  lemma SetKeepsApart(c: Chip, pin: nat, s: Setting)
    requires IsChip(c) && WakeApart(c)
    ensures WakeApart(Set(c, pin, s))
  {
    hide PinBit, Keep, Clear, Merge, PutPin, IsBank;
    if Accepts(pin, s) && s.Wake? {
      BothCleared(c.wakeHigh, c.wakeLow, PinBit(pin));
      OneMerged(c.wakeHigh, c.wakeLow, PinBit(pin));
      KeepSwaps(c.wakeHigh, c.wakeLow);
      OneMerged(c.wakeLow, c.wakeHigh, PinBit(pin));
      KeepSwaps(Merge(c.wakeHigh, PinBit(pin)), Clear(c.wakeLow, PinBit(pin)));
    }
  }

  /** Once the two wake registers share no pin, they never do again. */
  lemma {:induction false} WakeExclusive(c: Chip, calls: seq<Call>)
    requires IsChip(c) && WakeApart(c)
    ensures WakeApart(Run(c, calls))
  {
    if calls != [] {
      hide Set, WakeApart, IsChip;
      WakeExclusive(c, calls[..|calls| - 1]);
      SetKeepsApart(Run(c, calls[..|calls| - 1]), calls[|calls| - 1].pin, calls[|calls| - 1].setting);
    }
  }

  /** In terms of one pin: the getter that finds it in the high register would not find it in the
      low one. */
  lemma NeverBoth(c: Chip, calls: seq<Call>, pin: nat)
    requires IsChip(c) && WakeApart(c) && pin < PIN_COUNT
    ensures Keep(PinBit(pin), Run(c, calls).wakeHigh) == 0 || Keep(PinBit(pin), Run(c, calls).wakeLow) == 0
  {
    hide Run;
    WakeExclusive(c, calls);
    SharedBit(Run(c, calls).wakeHigh, Run(c, calls).wakeLow, PinBit(pin));
  }

  lemma SharedBit(high: bv32, low: bv32, bit: bv32)
    requires Keep(high, low) == 0
    ensures Keep(Keep(bit, high), Keep(bit, low)) == 0
  {
  }

  // ---- the calls -----------------------------------------------------------------------------

  datatype Verdict = Accepted | PinMissing | BadValue

  function SetVerdict(pin: nat, s: Setting): (r: Verdict)
  {
    if !PinUsable(pin) then PinMissing else if !Accepts(pin, s) then BadValue else Accepted
  }

  /** From `c` to `c'` the getters show the new setting of the pin, if it was accepted, and nothing
      else that differs. */
  ghost predicate OnlySets(c: Chip, c': Chip, pin: nat, s: Setting, r: Verdict)
    requires IsChip(c) && IsChip(c')
  {
    forall other: nat :: other < PIN_COUNT ==>
      Read(c', other) == if other == pin && r == Accepted then Updated(Read(c, other), s) else Read(c, other)
  }

  lemma SetOnlySets(c: Chip, pin: nat, s: Setting)
    requires IsChip(c)
    ensures OnlySets(c, Set(c, pin, s), pin, s, SetVerdict(pin, s))
  {
    forall other: nat | other < PIN_COUNT
      ensures Read(Set(c, pin, s), other)
           == if other == pin && SetVerdict(pin, s) == Accepted then Updated(Read(c, other), s) else Read(c, other)
    {
      hide Read, Set;
      SetRefines(c, pin, s, other);
    }
  }

  /** The pins that are brought out. */
  predicate IsPin(pin: nat) {
    pin in {0, 1, 2, 3, 4, 5, 6, 7, 8, 9, 14, 15, 16, 17, 20, 21, 22, 23, 28, 29, 30, 31}
  }

  /** The pin decides first, then the value. */
  lemma ModeVerdict(pin: nat, mode: bv32)
    ensures SetVerdict(pin, Mode(mode)) == if !IsPin(pin) then PinMissing else if mode <= 7 then Accepted else BadValue
  {
  }

  lemma PullVerdict(pin: nat, pull: bv32)
    ensures SetVerdict(pin, Pull(pull)) == if !IsPin(pin) then PinMissing else if pull <= 7 then Accepted else BadValue
  {
  }

  lemma DriveVerdict(pin: nat, strength: bv32)
    ensures SetVerdict(pin, Drive(strength))
         == if !IsPin(pin) then PinMissing else if strength <= 3 then Accepted else BadValue
  {
  }

  lemma WakeVerdict(pin: nat, wake: nat)
    ensures SetVerdict(pin, Wake(wake)) == if IsPin(pin) then Accepted else PinMissing
  {
  }

  lemma PinsAre(pin: nat)
    ensures PinUsable(pin) <==> IsPin(pin)
  {
  }

  lemma ModeChanges(c: Chip, pin: nat, mode: bv32)
    requires IsChip(c)
    ensures var c', r := Set(c, pin, Mode(mode)), SetVerdict(pin, Mode(mode));
            if r == Accepted then pin < 32 && c' == c.(modes := PutPin(c.modes, 4, pin, mode)) else c' == c
  {
    hide PutPin, Missing;
  }

  lemma PullChanges(c: Chip, pin: nat, pull: bv32)
    requires IsChip(c)
    ensures var c', r := Set(c, pin, Pull(pull)), SetVerdict(pin, Pull(pull));
            if r == Accepted then pin < 32 && c' == c.(pull := PutPin(c.pull, 4, pin, pull)) else c' == c
  {
    hide PutPin, Missing;
  }

  lemma DriveChanges(c: Chip, pin: nat, strength: bv32)
    requires IsChip(c)
    ensures var c', r := Set(c, pin, Drive(strength)), SetVerdict(pin, Drive(strength));
            if r == Accepted then pin < 32 && c' == c.(drive := PutPin(c.drive, 2, pin, strength)) else c' == c
  {
    hide PutPin, Missing;
  }

  lemma ModeStands(c: Chip, pin: nat, mode: bv32)
    requires IsChip(c)
    ensures SetVerdict(pin, Mode(mode)) == Accepted ==>
              FourAt(Set(c, pin, Mode(mode)).modes, pin, mode)
  {
    hide GetPin, PutPin, Keep, FieldMask, FourAt;
    if Accepts(pin, Mode(mode)) {
      NarrowValues(mode);
      FourStands(c.modes, pin, mode);
    }
  }

  lemma PullStands(c: Chip, pin: nat, pull: bv32)
    requires IsChip(c)
    ensures SetVerdict(pin, Pull(pull)) == Accepted ==>
              FourAt(Set(c, pin, Pull(pull)).pull, pin, pull)
  {
    hide GetPin, PutPin, Keep, FieldMask, FourAt;
    if Accepts(pin, Pull(pull)) {
      NarrowValues(pull);
      FourStands(c.pull, pin, pull);
    }
  }

  lemma DriveStands(c: Chip, pin: nat, strength: bv32)
    requires IsChip(c)
    ensures SetVerdict(pin, Drive(strength)) == Accepted ==>
              TwoAt(Set(c, pin, Drive(strength)).drive, pin, strength)
  {
    hide GetPin, PutPin, Keep, FieldMask, TwoAt;
    if Accepts(pin, Drive(strength)) {
      NarrowValues(strength);
      TwoStands(c.drive, pin, strength);
    }
  }

  lemma ModeMeets(c: Chip, pin: nat, mode: bv32)
    requires IsChip(c)
    ensures PinUsable(pin) <==> IsPin(pin)
    ensures var asked, r, c' := Mode(mode), SetVerdict(pin, Mode(mode)), Set(c, pin, Mode(mode));
            && r == (if !IsPin(pin) then PinMissing else if mode <= 7 then Accepted else BadValue)
            && OnlySets(c, c', pin, asked, r)
            && (if r == Accepted then pin < 32 && c' == c.(modes := PutPin(c.modes, 4, pin, mode)) else c' == c)
            && (r == Accepted ==> FourAt(c'.modes, pin, mode))
  {
    hide OnlySets, PutPin, FourAt, Set, SetVerdict, PinUsable, IsPin, IsBank;
    SetOnlySets(c, pin, Mode(mode));
    PinsAre(pin);
    ModeVerdict(pin, mode);
    ModeChanges(c, pin, mode);
    ModeStands(c, pin, mode);
  }

  lemma PullMeets(c: Chip, pin: nat, pull: bv32)
    requires IsChip(c)
    ensures PinUsable(pin) <==> IsPin(pin)
    ensures var asked, r, c' := Pull(pull), SetVerdict(pin, Pull(pull)), Set(c, pin, Pull(pull));
            && r == (if !IsPin(pin) then PinMissing else if pull <= 7 then Accepted else BadValue)
            && OnlySets(c, c', pin, asked, r)
            && (if r == Accepted then pin < 32 && c' == c.(pull := PutPin(c.pull, 4, pin, pull)) else c' == c)
            && (r == Accepted ==> FourAt(c'.pull, pin, pull))
  {
    hide OnlySets, PutPin, FourAt, Set, SetVerdict, PinUsable, IsPin, IsBank;
    SetOnlySets(c, pin, Pull(pull));
    PinsAre(pin);
    PullVerdict(pin, pull);
    PullChanges(c, pin, pull);
    PullStands(c, pin, pull);
  }

  lemma DriveMeets(c: Chip, pin: nat, strength: bv32)
    requires IsChip(c)
    ensures PinUsable(pin) <==> IsPin(pin)
    ensures var asked, r, c' := Drive(strength), SetVerdict(pin, Drive(strength)), Set(c, pin, Drive(strength));
            && r == (if !IsPin(pin) then PinMissing else if strength <= 3 then Accepted else BadValue)
            && OnlySets(c, c', pin, asked, r)
            && (if r == Accepted then pin < 32 && c' == c.(drive := PutPin(c.drive, 2, pin, strength)) else c' == c)
            && (r == Accepted ==> TwoAt(c'.drive, pin, strength))
  {
    hide OnlySets, PutPin, TwoAt, Set, SetVerdict, PinUsable, IsPin, IsBank;
    SetOnlySets(c, pin, Drive(strength));
    PinsAre(pin);
    DriveVerdict(pin, strength);
    DriveChanges(c, pin, strength);
    DriveStands(c, pin, strength);
  }

  /** The pin's bit in the two wake registers, by the mode that was set; no other bit changes. */
  predicate WakeShows(c: Chip, c': Chip, bit: bv32, wake: nat) {
    && Keep(bit, c'.wakeHigh) == (if wake == 2 then bit else if wake < 2 then 0 else Keep(bit, c.wakeHigh))
    && Keep(bit, c'.wakeLow) == (if wake == 1 then bit else if wake <= 2 then 0 else Keep(bit, c.wakeLow))
    && Clear(c'.wakeHigh, bit) == Clear(c.wakeHigh, bit) && Clear(c'.wakeLow, bit) == Clear(c.wakeLow, bit)
  }

  lemma OthersMerged(register: bv32, bit: bv32)
    ensures Clear(Merge(register, bit), bit) == Clear(register, bit)
  {
    assert (register | bit) & !bit == register & !bit;
  }

  lemma OthersCleared(register: bv32, bit: bv32)
    ensures Clear(Clear(register, bit), bit) == Clear(register, bit)
  {
  }

  lemma SetWakeShows(c: Chip, pin: nat, wake: nat)
    requires pin < 32
    ensures WakeShows(c, SetWake(c, pin, wake), PinBit(pin), wake)
  {
    hide Keep, Clear, Merge, PinBit;
    var bit := PinBit(pin);
    OwnBit(c.wakeHigh, bit);
    OwnBit(c.wakeLow, bit);
    OthersMerged(c.wakeHigh, bit);
    OthersMerged(c.wakeLow, bit);
    OthersCleared(c.wakeHigh, bit);
    OthersCleared(c.wakeLow, bit);
  }

  lemma PinBitIs(pin: nat)
    requires pin < 32
    ensures PinBit(pin) == 1 << pin
  {
  }

  class SystemControl {
    const pinMap: array<bv32>
    const pullControl: array<bv32>
    const driveControl: array<bv32>
    var wakeHigh: bv32
    var wakeLow: bv32

    ghost predicate Valid() {
      && pinMap.Length == 4 && pullControl.Length == 4 && driveControl.Length == 2
      && pinMap != pullControl && pinMap != driveControl && pullControl != driveControl
    }

    ghost function View(): (c: Chip)
      requires Valid()
      reads this, pinMap, pullControl, driveControl
      ensures IsChip(c)
    {
      Chip(pinMap[..], pullControl[..], driveControl[..], wakeHigh, wakeLow)
    }

    method SetMode(pin: nat, mode: bv32) returns (r: Verdict)
      requires Valid()
      modifies pinMap
      ensures r == SetVerdict(pin, Mode(mode)) && View() == Set(old(View()), pin, Mode(mode))
      ensures OnlySets(old(View()), View(), pin, Mode(mode), r)
      ensures r == if !IsPin(pin) then PinMissing else if mode <= 7 then Accepted else BadValue
      ensures r == Accepted ==> FourAt(pinMap[..], pin, mode)
    {
      ModeMeets(View(), pin, mode);
      hide Set, SetVerdict, PinUsable, IsPin, OnlySets, PutPin, GetPin, Keep, FieldMask, FourAt;
      if !PinUsable(pin) {
        return PinMissing;
      }
      if mode > 7 {
        return BadValue;
      }
      SetFour(pinMap, pin, mode);
      return Accepted;
    }

    method SetPullMode(pin: nat, mode: bv32) returns (r: Verdict)
      requires Valid()
      modifies pullControl
      ensures r == SetVerdict(pin, Pull(mode)) && View() == Set(old(View()), pin, Pull(mode))
      ensures OnlySets(old(View()), View(), pin, Pull(mode), r)
      ensures r == if !IsPin(pin) then PinMissing else if mode <= 7 then Accepted else BadValue
      ensures r == Accepted ==> FourAt(pullControl[..], pin, mode)
    {
      PullMeets(View(), pin, mode);
      hide Set, SetVerdict, PinUsable, IsPin, OnlySets, PutPin, GetPin, Keep, FieldMask, FourAt;
      if !PinUsable(pin) {
        return PinMissing;
      }
      if mode > 7 {
        return BadValue;
      }
      SetFour(pullControl, pin, mode);
      return Accepted;
    }

    /** Read the register, clear the pin's four bits, put the new value there, write it back. */
    static method SetFour(registers: array<bv32>, pin: nat, value: bv32)
      requires registers.Length == 4 && pin < PIN_COUNT
      modifies registers
      ensures registers[..] == PutPin(old(registers[..]), 4, pin, value)
      ensures Keep(value, FieldMask(4)) == value ==>
                forall other: nat :: other < PIN_COUNT ==>
                  GetPin(registers[..], 4, other)
                  == if other == pin then value else old(GetPin(registers[..], 4, other))
    {
      FieldsAfterPut(registers[..], 4, pin, value);
      hide Clear, Merge, Up, PlaceMask, Keep, FieldMask, GetPlace;
      var index, offset := pin / 8, pin % 8;
      var mask := PlaceMask(4, offset);
      var register := registers[index];
      register := Clear(register, mask);
      register := Merge(register, Up(value, 4, offset));
      registers[index] := register;
    }

    method SetDriveStrength(pin: nat, strength: bv32) returns (r: Verdict)
      requires Valid()
      modifies driveControl
      ensures r == SetVerdict(pin, Drive(strength)) && View() == Set(old(View()), pin, Drive(strength))
      ensures OnlySets(old(View()), View(), pin, Drive(strength), r)
      ensures r == if !IsPin(pin) then PinMissing else if strength <= 3 then Accepted else BadValue
      ensures r == Accepted ==> TwoAt(driveControl[..], pin, strength)
    {
      DriveMeets(View(), pin, strength);
      hide Set, SetVerdict, PinUsable, IsPin, OnlySets, PutPin, GetPin, Keep, FieldMask, TwoAt;
      if !PinUsable(pin) {
        return PinMissing;
      }
      if strength > 3 {
        return BadValue;
      }
      SetTwo(driveControl, pin, strength);
      return Accepted;
    }

    static method SetTwo(registers: array<bv32>, pin: nat, value: bv32)
      requires registers.Length == 2 && pin < PIN_COUNT
      modifies registers
      ensures registers[..] == PutPin(old(registers[..]), 2, pin, value)
      ensures Keep(value, FieldMask(2)) == value ==>
                forall other: nat :: other < PIN_COUNT ==>
                  GetPin(registers[..], 2, other)
                  == if other == pin then value else old(GetPin(registers[..], 2, other))
    {
      FieldsAfterPut(registers[..], 2, pin, value);
      hide Clear, Merge, Up, PlaceMask, Keep, FieldMask, GetPlace;
      var index, offset := pin / 16, pin % 16;
      var mask := PlaceMask(2, offset);
      var register := registers[index];
      register := Clear(register, mask);
      register := Merge(register, Up(value, 2, offset));
      registers[index] := register;
    }

    method SetWakeMode(pin: nat, wake: nat) returns (r: Verdict)
      requires Valid()
      modifies this
      ensures r == SetVerdict(pin, Wake(wake)) && View() == Set(old(View()), pin, Wake(wake))
      ensures OnlySets(old(View()), View(), pin, Wake(wake), r)
      ensures old(WakeApart(View())) ==> WakeApart(View())
      ensures r == if IsPin(pin) then Accepted else PinMissing
      ensures r == Accepted ==> WakeShows(old(View()), View(), PinBit(pin), wake)
    {
      SetOnlySets(View(), pin, Wake(wake));
      PinsAre(pin);
      WakeVerdict(pin, wake);
      if pin < PIN_COUNT {
        SetWakeShows(View(), pin, wake);
      }
      hide IsPin, WakeShows;
      if WakeApart(View()) {
        SetKeepsApart(View(), pin, Wake(wake));
      }
      hide OnlySets, WakeApart, PutPin;
      if !PinUsable(pin) {
        return PinMissing;
      }
      hide Clear, Merge, PinBit;
      var bit := PinBit(pin);
      if wake == WAKE_NONE {
        wakeHigh, wakeLow := Clear(wakeHigh, bit), Clear(wakeLow, bit);
      } else if wake == WAKE_LOW {
        wakeHigh, wakeLow := Clear(wakeHigh, bit), Merge(wakeLow, bit);
      } else if wake == WAKE_HIGH {
        wakeHigh, wakeLow := Merge(wakeHigh, bit), Clear(wakeLow, bit);
      }
      return Accepted;
    }
  }
}
