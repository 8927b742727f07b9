/** The period of the CRC register, and with it exactly which pairs of wrong bits the remainder
    detects.  The register's shift is multiplication by x modulo the polynomial, so `Power(n)` is the
    n-th power of x. */
module Crc16Period {
  import opened Crc16

  const PERIOD: nat := 32767

  function Power(n: nat): (p: bv16)
  {
    ShiftTimes(1, n)
  }

  // ---- shifting is linear --------------------------------------------------------------------

  lemma ShiftLinear(a: bv16, b: bv16)
    ensures Shift(Xor(a, b)) == Xor(Shift(a), Shift(b))
  {
    hide Xor, Double, HasTop;
    TopXor(a, b);
    DoubleXor(a, b);
    XorBoth(Double(a), Double(b), POLYNOMIAL);
    XorSwap(Double(a), Double(b), POLYNOMIAL);
    XorAssoc(Double(a), Double(b), POLYNOMIAL);
  }

  lemma {:induction false} ShiftTimesNext(c: bv16, n: nat)
    ensures ShiftTimes(c, n + 1) == Shift(ShiftTimes(c, n))
    decreases n
  {
    hide Shift;
    if n > 0 {
      ShiftTimesNext(Shift(c), n - 1);
    }
  }

  lemma {:induction false} ShiftTimesAdd(c: bv16, n: nat, k: nat)
    ensures ShiftTimes(c, n + k) == ShiftTimes(ShiftTimes(c, n), k)
    decreases k
  {
    hide Shift;
    if k > 0 {
      ShiftTimesAdd(c, n, k - 1);
      ShiftTimesNext(c, n + k - 1);
      ShiftTimesNext(ShiftTimes(c, n), k - 1);
    }
  }

  lemma {:induction false} ShiftTimesLinear(a: bv16, b: bv16, n: nat)
    ensures ShiftTimes(Xor(a, b), n) == Xor(ShiftTimes(a, n), ShiftTimes(b, n))
    decreases n
  {
    hide Shift, Xor;
    if n > 0 {
      ShiftLinear(a, b);
      ShiftTimesLinear(Shift(a), Shift(b), n - 1);
    }
  }

  lemma ZeroShifts()
    ensures Shift(0) == 0
  {
  }

  lemma {:induction false} ShiftTimesZero(n: nat)
    ensures ShiftTimes(0, n) == 0
  {
    hide Shift;
    if n > 0 {
      ZeroShifts();
      ShiftTimesZero(n - 1);
    }
  }

  lemma {:induction false} ShiftTimesInjective(a: bv16, b: bv16, n: nat)
    requires ShiftTimes(a, n) == ShiftTimes(b, n)
    ensures a == b
    decreases n
  {
    hide Shift;
    if n > 0 {
      ShiftTimesInjective(Shift(a), Shift(b), n - 1);
      ShiftInjective(a, b);
    }
  }

  // ---- products ------------------------------------------------------------------------------

  /** One step of a product: multiply by x, and add `a` for a set bit. */
  function Step(r: bv16, a: bv16, bit: bool): (s: bv16)
  {
    Xor(Shift(r), if bit then a else 0)
  }

  function FourSteps(r: bv16, a: bv16, c: bv16): (s: bv16)
  {
    Step(Step(Step(Step(r, a, HasTop(c)), a, HasTop(Double(c))), a, HasTop(c << 2)), a, HasTop(c << 3))
  }

  /** `a` times the polynomial that `c` spells. */
  function Product(a: bv16, c: bv16): (p: bv16)
  {
    FourSteps(FourSteps(FourSteps(FourSteps(0, a, c), a, c << 4), a, c << 8), a, c << 12)
  }

  lemma {:induction false} StepShifts(r: bv16, a: bv16, bit: bool, n: nat)
    ensures ShiftTimes(Step(r, a, bit), n) == Step(ShiftTimes(r, n), ShiftTimes(a, n), bit)
  {
    hide Shift, Xor;
    ShiftTimesLinear(Shift(r), if bit then a else 0, n);
    ShiftTimesNext(r, n);
    ShiftTimesZero(n);
    assert ShiftTimes(Shift(r), n) == ShiftTimes(r, n + 1);
  }

  lemma {:induction false} FourStepsShift(r: bv16, a: bv16, c: bv16, n: nat)
    ensures ShiftTimes(FourSteps(r, a, c), n) == FourSteps(ShiftTimes(r, n), ShiftTimes(a, n), c)
  {
    hide Step, HasTop, Double, ShiftTimes;
    var r1 := Step(r, a, HasTop(c));
    var r2 := Step(r1, a, HasTop(Double(c)));
    var r3 := Step(r2, a, HasTop(c << 2));
    StepShifts(r, a, HasTop(c), n);
    StepShifts(r1, a, HasTop(Double(c)), n);
    StepShifts(r2, a, HasTop(c << 2), n);
    StepShifts(r3, a, HasTop(c << 3), n);
  }

  lemma ProductShifts(a: bv16, c: bv16, n: nat)
    ensures ShiftTimes(Product(a, c), n) == Product(ShiftTimes(a, n), c)
  {
    hide FourSteps, ShiftTimes;
    var r1 := FourSteps(0, a, c);
    var r2 := FourSteps(r1, a, c << 4);
    var r3 := FourSteps(r2, a, c << 8);
    ShiftTimesZero(n);
    FourStepsShift(0, a, c, n);
    FourStepsShift(r1, a, c << 4, n);
    FourStepsShift(r2, a, c << 8, n);
    FourStepsShift(r3, a, c << 12, n);
  }

  /** Bits that move into an empty top. */
  function Join(r: bv16, c: bv16): (s: bv16)
  {
    (r << 4) | (c >> 12)
  }

  function Push(r: bv16, bit: bool): (s: bv16)
  {
    (r << 1) | (if bit then 1 else 0)
  }

  lemma StepOfOne(r: bv16, bit: bool)
    requires !HasTop(r)
    ensures Step(r, 1, bit) == Push(r, bit)
  {
  }

  predicate TopEmpty(r: bv16) { r & 0xF000 == 0 }

  lemma PushedBits(r: bv16, c: bv16)
    requires TopEmpty(r)
    ensures var r1 := Push(r, HasTop(c));
            var r2 := Push(r1, HasTop(Double(c)));
            var r3 := Push(r2, HasTop(c << 2));
            && !HasTop(r) && !HasTop(r1) && !HasTop(r2) && !HasTop(r3)
            && Push(r3, HasTop(c << 3)) == Join(r, c)
  {
  }

  lemma FourStepsOfOne(r: bv16, c: bv16)
    requires TopEmpty(r)
    ensures FourSteps(r, 1, c) == Join(r, c)
  {
    hide Step, HasTop, Double, Join, Push, TopEmpty;
    PushedBits(r, c);
    var r1 := Push(r, HasTop(c));
    var r2 := Push(r1, HasTop(Double(c)));
    var r3 := Push(r2, HasTop(c << 2));
    StepOfOne(r, HasTop(c));
    StepOfOne(r1, HasTop(Double(c)));
    StepOfOne(r2, HasTop(c << 2));
    StepOfOne(r3, HasTop(c << 3));
  }

  lemma Rebuilt(c: bv16)
    ensures Join(0, c) == c >> 12 && Join(c >> 12, c << 4) == c >> 8
    ensures Join(c >> 8, c << 8) == c >> 4 && Join(c >> 4, c << 12) == c
    ensures TopEmpty(0) && TopEmpty(c >> 12) && TopEmpty(c >> 8) && TopEmpty(c >> 4)
  {
  }

  lemma ProductOfOne(c: bv16)
    ensures Product(1, c) == c
  {
    hide FourSteps, Join, TopEmpty;
    Rebuilt(c);
    FourStepsOfOne(0, c);
    FourStepsOfOne(c >> 12, c << 4);
    FourStepsOfOne(c >> 8, c << 8);
    FourStepsOfOne(c >> 4, c << 12);
  }

  /** Powers add up in products. */
  lemma PowerAdd(n: nat, k: nat)
    ensures Power(n + k) == Product(Power(n), Power(k))
  {
    hide Product, ShiftTimes;
    ShiftTimesAdd(1, k, n);
    ProductOfOne(Power(k));
    ProductShifts(1, Power(k), n);
  }

  // ---- the period ----------------------------------------------------------------------------

  lemma SumOfPowers(n: nat, p: bv16, k: nat, q: bv16)
    requires Power(n) == p && Power(k) == q
    ensures Power(n + k) == Product(p, q)
  {
    PowerAdd(n, k);
  }

  lemma Squares()
    ensures Product(0x0002, 0x0002) == 0x0004
    ensures Product(0x0004, 0x0004) == 0x0010
    ensures Product(0x0010, 0x0010) == 0x0100
    ensures Product(0x0100, 0x0100) == 0x1021
    ensures Product(0x1021, 0x1021) == 0x3730
    ensures Product(0x3730, 0x3730) == 0xB861
    ensures Product(0xB861, 0xB861) == 0xAEFC
    ensures Product(0xAEFC, 0xAEFC) == 0x8E29
    ensures Product(0x8E29, 0x8E29) == 0x13FC
    ensures Product(0x13FC, 0x13FC) == 0x36C4
    ensures Product(0x36C4, 0x36C4) == 0xFD50
    ensures Product(0xFD50, 0xFD50) == 0xAA9E
    ensures Product(0xAA9E, 0xAA9E) == 0x881C
    ensures Product(0x881C, 0x881C) == 0x4458
    ensures Product(0x4458, 0x4458) == 0x0002
  {
  }

  lemma PowerOfOne()
    ensures Power(1) == 0x0002
  {
    assert ShiftTimes(1, 1) == ShiftTimes(Shift(1), 0);
  }

  /** x to the powers of two; the last one is x again. */
  lemma PowersOfTwo()
    ensures Power(1) == 0x0002 && Power(2) == 0x0004 && Power(4) == 0x0010 && Power(8) == 0x0100
    ensures Power(16) == 0x1021 && Power(32) == 0x3730 && Power(64) == 0xB861 && Power(128) == 0xAEFC
    ensures Power(256) == 0x8E29 && Power(512) == 0x13FC && Power(1024) == 0x36C4 && Power(2048) == 0xFD50
    ensures Power(4096) == 0xAA9E && Power(8192) == 0x881C && Power(16384) == 0x4458 && Power(32768) == 0x0002
  {
    hide Product, Power;
    PowerOfOne();
    Squares();
    SumOfPowers(1, 0x0002, 1, 0x0002);
    SumOfPowers(2, 0x0004, 2, 0x0004);
    SumOfPowers(4, 0x0010, 4, 0x0010);
    SumOfPowers(8, 0x0100, 8, 0x0100);
    SumOfPowers(16, 0x1021, 16, 0x1021);
    SumOfPowers(32, 0x3730, 32, 0x3730);
    SumOfPowers(64, 0xB861, 64, 0xB861);
    SumOfPowers(128, 0xAEFC, 128, 0xAEFC);
    SumOfPowers(256, 0x8E29, 256, 0x8E29);
    SumOfPowers(512, 0x13FC, 512, 0x13FC);
    SumOfPowers(1024, 0x36C4, 1024, 0x36C4);
    SumOfPowers(2048, 0xFD50, 2048, 0xFD50);
    SumOfPowers(4096, 0xAA9E, 4096, 0xAA9E);
    SumOfPowers(8192, 0x881C, 8192, 0x881C);
    SumOfPowers(16384, 0x4458, 16384, 0x4458);
  }

  lemma OtherProducts()
    ensures Product(0x0106, 0x0100) == 0x1621
    ensures Product(0x1621, 0x0002) == 0x2C42
    ensures Product(0x36C4, 0x3730) == 0xF147
    ensures Product(0x45B4, 0x0100) == 0xAC61
    ensures Product(0x54A0, 0xB861) == 0x0106
    ensures Product(0x650B, 0x1021) == 0x45B4
    ensures Product(0xAA9E, 0x13FC) == 0x54A0
    ensures Product(0xAC61, 0x0002) == 0x48E3
    ensures Product(0xAEFC, 0xB861) == 0x650B
    ensures Product(0xF147, 0x0002) == 0xF2AF
  {
  }

  /** None of the three largest proper divisors of the period is one already. */
  lemma NotSooner()
    ensures Power(217) != 1 && Power(1057) != 1 && Power(4681) != 1
  {
    hide Product, Power;
    PowersOfTwo();
    OtherProducts();
    SumOfPowers(128, 0xAEFC, 64, 0xB861);
    SumOfPowers(192, 0x650B, 16, 0x1021);
    SumOfPowers(208, 0x45B4, 8, 0x0100);
    SumOfPowers(216, 0xAC61, 1, 0x0002);
    SumOfPowers(1024, 0x36C4, 32, 0x3730);
    SumOfPowers(1056, 0xF147, 1, 0x0002);
    SumOfPowers(4096, 0xAA9E, 512, 0x13FC);
    SumOfPowers(4608, 0x54A0, 64, 0xB861);
    SumOfPowers(4672, 0x0106, 8, 0x0100);
    SumOfPowers(4680, 0x1621, 1, 0x0002);
  }

  lemma PeriodIsOne()
    ensures Power(PERIOD) == 1
  {
    hide ShiftTimes;
    PowersOfTwo();
    ShiftTimesNext(1, PERIOD);
    ShiftInjective(Power(PERIOD), 1);
  }

  lemma DifferenceIsOne(n: nat, k: nat)
    requires Power(n) == 1 && Power(n + k) == 1
    ensures Power(k) == 1
  {
    hide ShiftTimes;
    ShiftTimesAdd(1, n, k);
  }

  lemma {:induction false} MultipleIsOne(n: nat, k: nat)
    requires Power(n) == 1
    ensures Power(k * n) == 1
  {
    if k == 0 {
      assert k * n == 0;
    } else {
      hide ShiftTimes;
      MultipleIsOne(n, k - 1);
      assert k * n == (k - 1) * n + n;
      ShiftTimesAdd(1, (k - 1) * n, n);
    }
  }

  /** Two powers that are one have a common divisor whose power is one. */
  lemma {:induction false} CommonDivisor(a: nat, b: nat) returns (g: nat, i: nat, j: nat)
    requires a > 0 && b > 0 && Power(a) == 1 && Power(b) == 1
    ensures g > 0 && a == i * g && b == j * g && Power(g) == 1
    decreases a + b
  {
    hide Power;
    if a == b {
      g, i, j := a, 1, 1;
    } else if a > b {
      DifferenceIsOne(b, a - b);
      g, i, j := CommonDivisor(a - b, b);
      i := i + j;
    } else {
      DifferenceIsOne(a, b - a);
      g, i, j := CommonDivisor(a, b - a);
      j := i + j;
    }
  }

  /** 32767 is 7 times 31 times 151. */
  lemma SmallDivisor(m: nat, q: nat)
    requires m * q == PERIOD && m <= 181
    ensures m == 1 || m == 7 || m == 31 || m == 151
  {
  }

  lemma OneIsSmall(i: nat, g: nat)
    requires i * g == PERIOD
    ensures i <= 181 || g <= 181
  {
    if i > 181 && g > 181 {
      TooLarge(i, g);
    }
  }

  lemma TooLarge(i: nat, g: nat)
    requires i > 181 && g > 181
    ensures i * g > PERIOD
  {
    assert i * g >= 182 * g;
  }

  /** A proper divisor of the period divides one of its three largest. */
  lemma ProperDivisor(i: nat, g: nat) returns (k: nat)
    requires i * g == PERIOD && i >= 2
    ensures k * g == 217 || k * g == 1057 || k * g == 4681
  {
    OneIsSmall(i, g);
    if i <= 181 {
      SmallDivisor(i, g);
      k := 1;
    } else {
      SmallDivisor(g, i);
      k := if g == 1 then 217 else if g == 7 then 31 else if g == 31 then 7 else 7;
    }
  }

  /** The powers return to one at the multiples of 32767, and nowhere else. */
  lemma PeriodExact(n: nat)
    ensures Power(n) == 1 <==> n % PERIOD == 0
  {
    hide Power;
    var q, r := n / PERIOD, n % PERIOD;
    PeriodIsOne();
    MultipleIsOne(PERIOD, q);
    assert n == q * PERIOD + r;
    if r == 0 {
    } else if Power(n) == 1 {
      DifferenceIsOne(q * PERIOD, r);
      RemainderIsNotOne(r);
    }
  }

  lemma AtLeastTwo(i: nat, j: nat, g: nat)
    requires 0 < j * g < i * g
    ensures i >= 2
  {
    assert j >= 1;
    assert j * g >= g;
  }

  lemma RemainderIsNotOne(r: nat)
    requires 0 < r < PERIOD
    ensures Power(r) != 1
  {
    hide Power;
    if Power(r) == 1 {
      PeriodIsOne();
      var g, i, j := CommonDivisor(PERIOD, r);
      AtLeastTwo(i, j, g);
      var k := ProperDivisor(i, g);
      MultipleIsOne(g, k);
      NotSooner();
    }
  }

  // ---- two wrong bits ------------------------------------------------------------------------

  lemma TopIsPower()
    ensures Power(15) == TOP
  {
    hide Power, Product;
    PowersOfTwo();
    LowProducts();
    SumOfPowers(8, 0x0100, 4, 0x0010);
    SumOfPowers(12, 0x1000, 2, 0x0004);
    SumOfPowers(14, 0x4000, 1, 0x0002);
  }

  lemma LowProducts()
    ensures Product(0x0100, 0x0010) == 0x1000 && Product(0x1000, 0x0004) == 0x4000 && Product(0x4000, 0x0002) == TOP
  {
  }

  /** The top bit is back in its place, and alone, after the multiples of the period. */
  lemma TopReturnsExactly(d: nat)
    ensures ShiftTimes(TOP, d) == TOP <==> d % PERIOD == 0
  {
    hide ShiftTimes;
    TopIsPower();
    ShiftTimesAdd(1, 15, d);
    ShiftTimesAdd(1, d, 15);
    PeriodExact(d);
    if ShiftTimes(Power(d), 15) == ShiftTimes(1, 15) {
      ShiftTimesInjective(Power(d), 1, 15);
    }
  }

  lemma WithDifference(c: bv16, d: bv16, a: bool, b: bool)
    ensures Xor(With(c, a), With(d, b)) == if a == b then Xor(c, d) else Xor(Xor(c, d), TOP)
  {
    hide Xor;
    XorBoth(c, d, TOP);
    XorSwap(c, TOP, d);
    XorAssoc(c, d, TOP);
  }

  lemma FeedDifference(c: bv16, d: bv16, a: bool, b: bool)
    ensures Xor(FeedBit(c, a), FeedBit(d, b)) == Shift(if a == b then Xor(c, d) else Xor(Xor(c, d), TOP))
  {
    hide Shift, Xor, With;
    ShiftLinear(With(c, a), With(d, b));
    WithDifference(c, d, a, b);
  }

  /** Equal bits shift a difference and do nothing else to it. */
  lemma {:induction false} EqualBitsShift(c: bv16, d: bv16, bits: seq<bool>)
    ensures Xor(FeedBits(c, bits), FeedBits(d, bits)) == ShiftTimes(Xor(c, d), |bits|)
    decreases bits
  {
    hide FeedBit, Shift, Xor;
    if bits != [] {
      FeedDifference(c, d, bits[0], bits[0]);
      EqualBitsShift(FeedBit(c, bits[0]), FeedBit(d, bits[0]), bits[1..]);
    }
  }

  /** The bit strings differ at exactly the places `i` and `j`. */
  predicate DifferAtTwo(a: seq<bool>, b: seq<bool>, i: nat, j: nat) {
    && |a| == |b| && i < j < |a|
    && forall k :: 0 <= k < |a| ==> (a[k] != b[k] <==> k == i || k == j)
  }

  lemma TwoWrongBits(c: bv16, x: bool, y: bool, between: seq<bool>)
    ensures FeedBits(c, [x] + between + [y]) == FeedBits(c, [!x] + between + [!y])
       <==> (|between| + 1) % PERIOD == 0
  {
    hide FeedBit, FeedBits, Xor, Shift, ShiftTimes;
    var n := |between|;
    var c1, d1 := FeedBit(c, x), FeedBit(c, !x);
    var c2, d2 := FeedBits(c1, between), FeedBits(d1, between);
    FeedAround(c, x, between, y);
    FeedAround(c, !x, between, !y);
    FeedDifference(c, c, x, !x);
    XorSame(c, c);
    ZeroXor(TOP);
    EqualBitsShift(c1, d1, between);
    FeedDifference(c2, d2, y, !y);
    ShiftTimesStart(TOP, n);
    var e := ShiftTimes(TOP, n + 1);
    assert Xor(FeedBit(c2, y), FeedBit(d2, !y)) == Shift(Xor(e, TOP));
    XorSame(FeedBit(c2, y), FeedBit(d2, !y));
    ShiftZeroExactly(Xor(e, TOP));
    XorSame(e, TOP);
    TopReturnsExactly(n + 1);
  }

  lemma FeedAround(c: bv16, x: bool, between: seq<bool>, y: bool)
    ensures FeedBits(c, [x] + between + [y]) == FeedBit(FeedBits(FeedBit(c, x), between), y)
  {
    hide FeedBit;
    FeedBitsAppend(c, [x] + between, [y]);
    FeedBitsAppend(c, [x], between);
    assert [x][1..] == [] && [y][1..] == [];
  }

  lemma ShiftTimesStart(c: bv16, n: nat)
    ensures ShiftTimes(Shift(c), n) == ShiftTimes(c, n + 1)
  {
  }

  lemma ShiftZeroExactly(c: bv16)
    ensures Shift(c) == 0 <==> c == 0
  {
    hide Shift;
    ZeroShifts();
    if Shift(c) == 0 {
      ShiftInjective(c, 0);
    }
  }

  /** Two wrong bits go unnoticed exactly when their distance is a multiple of 32767. */
  lemma TwoBitsExact(c: bv16, a: seq<bool>, b: seq<bool>, i: nat, j: nat)
    requires DifferAtTwo(a, b, i, j)
    ensures FeedBits(c, a) == FeedBits(c, b) <==> (j - i) % PERIOD == 0
  {
    hide FeedBits;
    var before, between, rest := a[..i], a[i + 1..j], a[j + 1..];
    var u, v := [a[i]] + between + [a[j]], [b[i]] + between + [b[j]];
    Around(a, i, j);
    Around(b, i, j);
    assert b[..i] == before && b[i + 1..j] == between && b[j + 1..] == rest;
    FeedBitsAppend(c, before + u, rest);
    FeedBitsAppend(c, before + v, rest);
    FeedBitsAppend(c, before, u);
    FeedBitsAppend(c, before, v);
    var at := FeedBits(c, before);
    TwoWrongBits(at, a[i], a[j], between);
    if FeedBits(at, u) != FeedBits(at, v) {
      FeedBitsInjective(FeedBits(at, u), FeedBits(at, v), rest);
    }
  }

  lemma Around<T>(a: seq<T>, i: nat, j: nat)
    requires i < j < |a|
    ensures a == a[..i] + ([a[i]] + a[i + 1..j] + [a[j]]) + a[j + 1..]
  {
  }

  /** For messages of bytes, in particular: two wrong bits are detected in every message of at most
      4095 bytes. */
  lemma TwoBitsDetected(a: seq<bv8>, b: seq<bv8>, i: nat, j: nat)
    requires |a| == |b| && DifferAtTwo(MessageBits(a), MessageBits(b), i, j)
    ensures Crc(a) == Crc(b) <==> (j - i) % PERIOD == 0
    ensures |a| <= 4095 ==> Crc(a) != Crc(b)
  {
    hide MessageBits, FeedBits, FeedBytes;
    FeedBytesIsBits(INITIAL, a);
    FeedBytesIsBits(INITIAL, b);
    TwoBitsExact(INITIAL, MessageBits(a), MessageBits(b), i, j);
  }
}
