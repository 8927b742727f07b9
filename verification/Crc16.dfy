/** CRC-16/CCITT-FALSE: the byte-wise loops, the bit-wise register they refine, and which errors
    the remainder detects. */
module Crc16 {
  import opened Wrappers

  const INITIAL: bv16 := 0xFFFF
  const POLYNOMIAL: bv16 := 0x1021
  const TOP: bv16 := 0x8000

  // The register operations are named so that proofs can use their laws and nothing else.

  function Xor(a: bv16, b: bv16): (r: bv16) { a ^ b }

  function Double(c: bv16): (r: bv16) { c << 1 }

  predicate HasTop(c: bv16) { c & 0x8000 != 0 }

  /** One turn of the inner loop. */
  function Shift(c: bv16): (r: bv16)
  {
    if HasTop(c) then Xor(Double(c), POLYNOMIAL) else Double(c)
  }

  function ShiftTimes(c: bv16, n: nat): (r: bv16)
    decreases n
  {
    if n == 0 then c else ShiftTimes(Shift(c), n - 1)
  }

  /** An octet, held in sixteen bits, added at the top of the register. */
  function Mix(c: bv16, octet: bv16): (r: bv16)
  {
    Xor(c, octet << 8)
  }

  /** One turn of the outer loop. */
  function FeedByte(c: bv16, b: bv8): (r: bv16)
  {
    ShiftTimes(Mix(c, b as bv16), 8)
  }

  function FeedBytes(c: bv16, data: seq<bv8>): (r: bv16)
  {
    if data == [] then c else FeedByte(FeedBytes(c, data[..|data| - 1]), data[|data| - 1])
  }

  function Crc(data: seq<bv8>): (r: bv16)
  {
    FeedBytes(INITIAL, data)
  }

  method CalculateCrc16(data: seq<bv8>) returns (crc: bv16)
    ensures crc == Crc(data)
  {
    crc := INITIAL;
    for i := 0 to |data|
      invariant crc == FeedBytes(INITIAL, data[..i])
    {
      hide Mix, Xor, Double, HasTop;
      ghost var next := FeedByte(crc, data[i]);
      crc := Mix(crc, data[i] as bv16);
      for j := 0 to 8
        invariant ShiftTimes(crc, 8 - j) == next
      {
        assert ShiftTimes(crc, 8 - j) == ShiftTimes(Shift(crc), 7 - j);
        if HasTop(crc) {
          crc := Xor(Double(crc), POLYNOMIAL);
        } else {
          crc := Double(crc);
        }
      }
      assert data[..i + 1][..i] == data[..i];
    }
    assert data[..|data|] == data;
  }

  lemma {:induction false} FeedBytesAppend(c: bv16, a: seq<bv8>, b: seq<bv8>)
    ensures FeedBytes(c, a + b) == FeedBytes(FeedBytes(c, a), b)
  {
    if b == [] {
      assert a + b == a;
    } else {
      hide FeedByte;
      assert (a + b)[..|a + b| - 1] == a + b[..|b| - 1];
      FeedBytesAppend(c, a, b[..|b| - 1]);
    }
  }

  // ---- laws of the register operations -------------------------------------------------------

  lemma XorSwap(a: bv16, b: bv16, c: bv16)
    ensures Xor(Xor(a, b), c) == Xor(Xor(a, c), b)
  {
  }

  lemma XorAssoc(a: bv16, b: bv16, c: bv16)
    ensures Xor(a, Xor(b, c)) == Xor(Xor(a, b), c)
  {
  }

  lemma XorZero(a: bv16)
    ensures Xor(a, 0) == a
  {
  }

  lemma ZeroXor(a: bv16)
    ensures Xor(0, a) == a && Xor(a, a) == 0
  {
  }

  lemma XorTwice(a: bv16, k: bv16)
    ensures Xor(Xor(a, k), k) == a
  {
  }

  lemma XorSame(a: bv16, b: bv16)
    ensures Xor(a, b) == 0 <==> a == b
  {
    hide Xor;
    ZeroXor(b);
    XorTwice(a, b);
  }

  lemma XorBoth(a: bv16, b: bv16, k: bv16)
    ensures Xor(Xor(a, k), Xor(b, k)) == Xor(a, b)
  {
    hide Xor;
    XorSwap(a, k, Xor(b, k));
    XorAssoc(a, b, k);
    XorTwice(Xor(a, b), k);
  }

  lemma DoubleXor(a: bv16, b: bv16)
    ensures Double(Xor(a, b)) == Xor(Double(a), Double(b))
  {
  }

  lemma DoubleZero(a: bv16)
    requires Double(a) == 0 && !HasTop(a)
    ensures a == 0
  {
  }

  lemma TopXor(a: bv16, b: bv16)
    ensures HasTop(Xor(a, b)) == (HasTop(a) != HasTop(b))
  {
  }

  lemma ShiftOdd(c: bv16)
    ensures Shift(c) & 1 != 0 <==> HasTop(c)
  {
  }

  lemma OddXor(a: bv16, b: bv16)
    ensures Xor(a, b) & 1 != 0 <==> (a & 1 != 0) != (b & 1 != 0)
  {
  }

  // ---- the bit-wise register -----------------------------------------------------------------

  /** One message bit added at the top of the register. */
  function With(c: bv16, b: bool): (r: bv16)
  {
    if b then Xor(c, TOP) else c
  }

  function FeedBit(c: bv16, b: bool): (r: bv16)
  {
    Shift(With(c, b))
  }

  function FeedBits(c: bv16, bits: seq<bool>): (r: bv16)
    decreases bits
  {
    if bits == [] then c else FeedBits(FeedBit(c, bits[0]), bits[1..])
  }

  /** An octet, held in sixteen bits, moved one place up. */
  function Left(r: bv16): (s: bv16)
  {
    (r << 1) & 0xFF
  }

  function LeftTimes(r: bv16, n: nat): (s: bv16)
    decreases n
  {
    if n == 0 then r else LeftTimes(Left(r), n - 1)
  }

  /** The top `n` bits of an octet, most significant first. */
  function TopBits(r: bv16, n: nat): (bits: seq<bool>)
    ensures |bits| == n
    decreases n
  {
    if n == 0 then [] else [r & 0x80 != 0] + TopBits(Left(r), n - 1)
  }

  function ByteBits(b: bv8): (bits: seq<bool>)
    ensures |bits| == 8
  {
    TopBits(b as bv16, 8)
  }

  function MessageBits(data: seq<bv8>): (bits: seq<bool>)
    ensures |bits| == 8 * |data|
  {
    if data == [] then [] else MessageBits(data[..|data| - 1]) + ByteBits(data[|data| - 1])
  }

  lemma ShiftXor(x: bv16, y: bv16)
    requires !HasTop(y)
    ensures Shift(Xor(x, y)) == Xor(Shift(x), Double(y))
  {
    hide Xor, Double, HasTop;
    TopXor(x, y);
    DoubleXor(x, y);
    XorSwap(Double(x), Double(y), POLYNOMIAL);
  }

  lemma OctetSplits(r: bv16)
    requires r & 0xFF00 == 0
    ensures r << 8 == With((r & 0x7F) << 8, r & 0x80 != 0)
    ensures !HasTop((r & 0x7F) << 8) && Double((r & 0x7F) << 8) == Left(r) << 8
  {
  }

  lemma ShiftWithOctet(c: bv16, r: bv16)
    requires r & 0xFF00 == 0
    ensures Shift(Mix(c, r)) == Mix(FeedBit(c, r & 0x80 != 0), Left(r))
  {
    hide Xor, Double, HasTop, Shift, Left;
    var rest := (r & 0x7F) << 8;
    OctetSplits(r);
    XorAssoc(c, rest, TOP);
    XorSwap(c, rest, TOP);
    ShiftXor(With(c, r & 0x80 != 0), rest);
  }

  lemma LeftIsOctet(r: bv16)
    ensures Left(r) & 0xFF00 == 0
  {
  }

  lemma {:induction false} ShiftTimesFeeds(c: bv16, r: bv16, n: nat)
    requires r & 0xFF00 == 0
    ensures ShiftTimes(Mix(c, r), n) == Mix(FeedBits(c, TopBits(r, n)), LeftTimes(r, n))
    decreases n
  {
    hide Mix, Shift, FeedBit, Left;
    if n != 0 {
      ShiftWithOctet(c, r);
      LeftIsOctet(r);
      ShiftTimesFeeds(FeedBit(c, r & 0x80 != 0), Left(r), n - 1);
      assert TopBits(r, n)[1..] == TopBits(Left(r), n - 1);
    }
  }

  lemma AllShiftedOut(r: bv16)
    ensures LeftTimes(r, 8) == 0
  {
    var r4 := Left(Left(Left(Left(r))));
    assert LeftTimes(r, 8) == LeftTimes(Left(r), 7) == LeftTimes(Left(Left(r)), 6)
        == LeftTimes(Left(Left(Left(r))), 5) == LeftTimes(r4, 4);
    assert LeftTimes(r4, 4) == LeftTimes(Left(r4), 3) == LeftTimes(Left(Left(r4)), 2)
        == LeftTimes(Left(Left(Left(r4))), 1) == Left(Left(Left(Left(r4))));
    FourLeft(r);
    FourLeft(r4);
  }

  lemma FourLeft(r: bv16)
    ensures Left(Left(Left(Left(r)))) == (r << 4) & 0xF0
  {
  }

  lemma FeedByteIsBits(c: bv16, b: bv8)
    ensures FeedByte(c, b) == FeedBits(c, ByteBits(b))
  {
    hide FeedBits, ShiftTimes, LeftTimes, TopBits, Xor;
    OctetWidened(b);
    ShiftTimesFeeds(c, b as bv16, 8);
    AllShiftedOut(b as bv16);
    XorZero(FeedBits(c, ByteBits(b)));
  }

  lemma OctetWidened(b: bv8)
    ensures (b as bv16) & 0xFF00 == 0
  {
  }

  lemma {:induction false} FeedBitsAppend(c: bv16, a: seq<bool>, b: seq<bool>)
    ensures FeedBits(c, a + b) == FeedBits(FeedBits(c, a), b)
    decreases a
  {
    hide FeedBit;
    if a == [] {
      assert a + b == b;
    } else {
      assert (a + b)[1..] == a[1..] + b;
      FeedBitsAppend(FeedBit(c, a[0]), a[1..], b);
    }
  }

  /** Feeding bytes is feeding their bits, most significant first. */
  lemma {:induction false} FeedBytesIsBits(c: bv16, data: seq<bv8>)
    ensures FeedBytes(c, data) == FeedBits(c, MessageBits(data))
  {
    hide FeedByte, ByteBits, FeedBit;
    if data != [] {
      var before, last := data[..|data| - 1], data[|data| - 1];
      FeedBytesIsBits(c, before);
      FeedByteIsBits(FeedBytes(c, before), last);
      FeedBitsAppend(c, MessageBits(before), ByteBits(last));
    }
  }

  // ---- the register never forgets a difference -----------------------------------------------

  /** Registers whose shifts have the same lowest bit had the same top bit, and then the difference
      is shifted without reduction. */
  lemma ShiftDifference(x: bv16, y: bv16)
    requires Xor(Shift(x), Shift(y)) & 1 == 0
    ensures HasTop(x) == HasTop(y) && !HasTop(Xor(x, y))
    ensures Xor(Shift(x), Shift(y)) == Double(Xor(x, y))
  {
    OddXor(Shift(x), Shift(y));
    ShiftOdd(x);
    ShiftOdd(y);
    hide Xor, Double, HasTop;
    TopXor(x, y);
    DoubleXor(x, y);
    XorBoth(Double(x), Double(y), POLYNOMIAL);
  }

  lemma ShiftInjective(x: bv16, y: bv16)
    requires Shift(x) == Shift(y)
    ensures x == y
  {
    hide Xor, Double, HasTop, Shift;
    XorSame(Shift(x), Shift(y));
    ShiftDifference(x, y);
    DoubleZero(Xor(x, y));
    XorSame(x, y);
  }

  lemma FeedBitInjective(c: bv16, d: bv16, b: bool)
    requires FeedBit(c, b) == FeedBit(d, b)
    ensures c == d
  {
    hide Shift, Xor;
    ShiftInjective(With(c, b), With(d, b));
    XorBoth(c, d, TOP);
    XorSame(c, d);
    XorSame(With(c, b), With(d, b));
  }

  /** Different registers stay different whatever equal bits follow. */
  lemma {:induction false} FeedBitsInjective(c: bv16, d: bv16, bits: seq<bool>)
    requires c != d
    ensures FeedBits(c, bits) != FeedBits(d, bits)
    decreases bits
  {
    if bits != [] {
      hide FeedBit;
      if FeedBit(c, bits[0]) == FeedBit(d, bits[0]) {
        FeedBitInjective(c, d, bits[0]);
      }
      FeedBitsInjective(FeedBit(c, bits[0]), FeedBit(d, bits[0]), bits[1..]);
    }
  }

  // ---- bursts --------------------------------------------------------------------------------

  /** `KEEP[n]`: the register bits that `n` more message bits cannot repair. */
  const KEEP: seq<bv16> := [
    0xFFFF, 0x7FFF, 0x3FFF, 0x1FFF, 0x0FFF, 0x07FF, 0x03FF, 0x01FF,
    0x00FF, 0x007F, 0x003F, 0x001F, 0x000F, 0x0007, 0x0003, 0x0001, 0x0000]

  lemma KeepStep(n: nat)
    requires n < 16
    ensures KEEP[n] & 1 == 1 && KEEP[n + 1] == KEEP[n] >> 1
  {
  }

  predicate Clear(d: bv16, m: bv16) { d & m == 0 }

  lemma ClearAll(d: bv16)
    ensures Clear(d, 0xFFFF) <==> d == 0
  {
  }

  lemma ClearLow(d: bv16, m: bv16)
    requires Clear(d, m) && m & 1 == 1
    ensures d & 1 == 0
  {
  }

  lemma ClearHalf(d: bv16, m: bv16)
    requires Clear(Double(d), m)
    ensures Clear(d, m >> 1)
  {
  }

  lemma ClearBelowTop(d: bv16, m: bv16)
    ensures Clear(Xor(d, TOP), m >> 1) == Clear(d, m >> 1)
  {
  }

  lemma ShiftBack(x: bv16, y: bv16, m: bv16)
    requires Clear(Xor(Shift(x), Shift(y)), m) && m & 1 == 1
    ensures Clear(Xor(x, y), m >> 1) && HasTop(x) == HasTop(y)
  {
    hide Shift, Xor, Double, Clear, HasTop;
    ClearLow(Xor(Shift(x), Shift(y)), m);
    ShiftDifference(x, y);
    ClearHalf(Xor(x, y), m);
  }

  lemma WithTop(c: bv16, a: bool, b: bool)
    requires HasTop(With(c, a)) == HasTop(With(c, b))
    ensures a == b
  {
    hide Xor, HasTop;
    TopXor(c, TOP);
    TopIsTop();
  }

  lemma TopIsTop()
    ensures HasTop(TOP)
  {
  }

  lemma BelowTop(c: bv16, d: bv16, a: bool, b: bool, m: bv16)
    requires Clear(Xor(With(c, a), With(d, b)), m >> 1)
    ensures Clear(Xor(c, d), m >> 1)
  {
    hide Xor, Clear, HasTop;
    XorBoth(c, d, TOP);
    XorSwap(c, TOP, d);
    XorAssoc(c, d, TOP);
    ClearBelowTop(Xor(c, d), m);
  }

  lemma FeedBitBack(c: bv16, d: bv16, a: bool, b: bool, m: bv16)
    requires Clear(Xor(FeedBit(c, a), FeedBit(d, b)), m) && m & 1 == 1
    ensures Clear(Xor(c, d), m >> 1) && (c == d ==> a == b)
  {
    hide Shift, Xor, With, Clear, HasTop;
    ShiftBack(With(c, a), With(d, b), m);
    BelowTop(c, d, a, b, m);
    if c == d {
      WithTop(c, a, b);
    }
  }

  /** If at most sixteen bits bring two registers together, the registers differed in their top
      bits only; and equal registers are brought together by equal bits only. */
  lemma {:induction false} BurstBack(c: bv16, d: bv16, u: seq<bool>, v: seq<bool>)
    requires |u| == |v| <= 16 && FeedBits(c, u) == FeedBits(d, v)
    ensures Clear(Xor(c, d), KEEP[|u|]) && (c == d ==> u == v)
    decreases u
  {
    hide FeedBit, Xor, Clear;
    if u == [] {
      XorSame(c, d);
      ClearAll(0);
    } else {
      var n := |u| - 1;
      BurstBack(FeedBit(c, u[0]), FeedBit(d, v[0]), u[1..], v[1..]);
      KeepStep(n);
      FeedBitBack(c, d, u[0], v[0], KEEP[n]);
    }
  }

  /** The two bit strings agree outside the window of `n` bits from `i`. */
  predicate DifferWithin(a: seq<bool>, b: seq<bool>, i: nat, n: nat) {
    |a| == |b| && i + n <= |a| && a[..i] == b[..i] && a[i + n..] == b[i + n..]
  }

  /** Any burst of at most sixteen bits, wherever it starts, changes the remainder. */
  lemma BurstDetected(c: bv16, a: seq<bool>, b: seq<bool>, i: nat, n: nat)
    requires DifferWithin(a, b, i, n) && n <= 16 && a != b
    ensures FeedBits(c, a) != FeedBits(c, b)
  {
    hide FeedBits, Xor, Clear;
    var u, v, rest := a[i..i + n], b[i..i + n], a[i + n..];
    assert a == a[..i] + u + rest && b == a[..i] + v + rest;
    FeedBitsAppend(c, a[..i] + u, rest);
    FeedBitsAppend(c, a[..i] + v, rest);
    FeedBitsAppend(c, a[..i], u);
    FeedBitsAppend(c, a[..i], v);
    var at := FeedBits(c, a[..i]);
    if FeedBits(at, u) == FeedBits(at, v) {
      BurstBack(at, at, u, v);
    }
    FeedBitsInjective(FeedBits(at, u), FeedBits(at, v), rest);
  }

  // ---- odd numbers of errors -----------------------------------------------------------------

  /** Whether the register holds an odd number of ones. */
  predicate Odd(c: bv16)
  {
    (c & 0x8000 != 0) != ((c & 0x4000 != 0) != ((c & 0x2000 != 0) != ((c & 0x1000 != 0) !=
    ((c & 0x800 != 0) != ((c & 0x400 != 0) != ((c & 0x200 != 0) != ((c & 0x100 != 0) !=
    ((c & 0x80 != 0) != ((c & 0x40 != 0) != ((c & 0x20 != 0) != ((c & 0x10 != 0) !=
    ((c & 8 != 0) != ((c & 4 != 0) != ((c & 2 != 0) != (c & 1 != 0)))))))))))))))
  }

  lemma OddDouble(c: bv16)
    ensures Odd(Double(c)) == (Odd(c) != HasTop(c))
  {
  }

  lemma OddPolynomial(c: bv16)
    ensures Odd(Xor(c, POLYNOMIAL)) != Odd(c)
  {
  }

  lemma OddTop(c: bv16)
    ensures Odd(Xor(c, TOP)) != Odd(c)
  {
  }

  /** The polynomial has an even number of terms, so shifting keeps the parity and only message
      bits change it. */
  lemma OddFeedBit(c: bv16, b: bool)
    ensures Odd(FeedBit(c, b)) == (Odd(c) != b)
  {
    hide Odd, Xor, Double, HasTop;
    var x := With(c, b);
    OddTop(c);
    OddDouble(x);
    OddPolynomial(Double(x));
  }

  /** At how many places two bit strings differ. */
  function Differences(a: seq<bool>, b: seq<bool>): (n: nat)
    requires |a| == |b|
  {
    if a == [] then 0 else (if a[0] != b[0] then 1 else 0) + Differences(a[1..], b[1..])
  }

  lemma {:induction false} OddFeedBits(c: bv16, d: bv16, a: seq<bool>, b: seq<bool>)
    requires |a| == |b|
    ensures (Odd(FeedBits(c, a)) != Odd(FeedBits(d, b)))
         == ((Odd(c) != Odd(d)) != (Differences(a, b) % 2 == 1))
    decreases a
  {
    hide Odd, FeedBit;
    if a != [] {
      OddFeedBit(c, a[0]);
      OddFeedBit(d, b[0]);
      OddFeedBits(FeedBit(c, a[0]), FeedBit(d, b[0]), a[1..], b[1..]);
    }
  }

  /** Any odd number of wrong bits changes the remainder. */
  lemma OddDetected(c: bv16, a: seq<bool>, b: seq<bool>)
    requires |a| == |b| && Differences(a, b) % 2 == 1
    ensures FeedBits(c, a) != FeedBits(c, b)
  {
    hide Odd, FeedBits;
    OddFeedBits(c, c, a, b);
  }

  // ---- byte strings and their bits -----------------------------------------------------------

  /** `OCTET[n]`: the top `n` bits of an octet. */
  const OCTET: seq<bv16> := [0x00, 0x80, 0xC0, 0xE0, 0xF0, 0xF8, 0xFC, 0xFE, 0xFF]

  lemma OctetStep(n: nat)
    requires n < 8
    ensures OCTET[n + 1] == 0x80 | (OCTET[n] >> 1)
  {
  }

  lemma LeftBack(r: bv16, s: bv16, m: bv16)
    requires Clear(Xor(Left(r), Left(s)), m) && m & 0xFF00 == 0 && (r & 0x80 != 0) == (s & 0x80 != 0)
    ensures Clear(Xor(r, s), 0x80 | (m >> 1))
  {
  }

  lemma OctetMasks(n: nat)
    requires n <= 8
    ensures OCTET[n] & 0xFF00 == 0
  {
  }

  lemma {:induction false} TopBitsBack(r: bv16, s: bv16, n: nat)
    requires n <= 8 && TopBits(r, n) == TopBits(s, n)
    ensures Clear(Xor(r, s), OCTET[n])
    decreases n
  {
    hide Left, Xor;
    if n != 0 {
      var k := n - 1;
      assert TopBits(r, n)[0] == TopBits(s, n)[0] && TopBits(r, n)[1..] == TopBits(s, n)[1..];
      assert TopBits(r, n)[1..] == TopBits(Left(r), k) && TopBits(s, n)[1..] == TopBits(Left(s), k);
      TopBitsBack(Left(r), Left(s), k);
      OctetStep(k);
      OctetMasks(k);
      LeftBack(r, s, OCTET[k]);
    }
  }

  lemma SameOctet(a: bv8, b: bv8)
    requires Clear(Xor(a as bv16, b as bv16), 0xFF)
    ensures a == b
  {
  }

  lemma ByteBitsInjective(a: bv8, b: bv8)
    requires ByteBits(a) == ByteBits(b)
    ensures a == b
  {
    hide TopBits, Clear, Xor;
    TopBitsBack(a as bv16, b as bv16, 8);
    SameOctet(a, b);
  }

  lemma SameParts<T>(a: seq<T>, b: seq<T>, c: seq<T>, d: seq<T>)
    requires a + b == c + d && |a| == |c|
    ensures a == c && b == d
  {
    assert (a + b)[..|a|] == a && (c + d)[..|c|] == c;
    assert (a + b)[|a|..] == b && (c + d)[|c|..] == d;
  }

  lemma LastByteBits(data: seq<bv8>)
    requires data != []
    ensures var n := |data| - 1;
            MessageBits(data) == MessageBits(data[..n]) + ByteBits(data[n])
  {
    hide ByteBits;
  }

  lemma {:induction false} MessageBitsInjective(a: seq<bv8>, b: seq<bv8>)
    requires MessageBits(a) == MessageBits(b)
    ensures a == b
  {
    hide MessageBits, ByteBits;
    if a != [] {
      var n := |a| - 1;
      LastByteBits(a);
      LastByteBits(b);
      SameParts(MessageBits(a[..n]), ByteBits(a[n]), MessageBits(b[..n]), ByteBits(b[n]));
      MessageBitsInjective(a[..n], b[..n]);
      ByteBitsInjective(a[n], b[n]);
      assert a == a[..n] + [a[n]] && b == b[..n] + [b[n]];
    }
  }

  lemma {:induction false} MessageBitsAppend(a: seq<bv8>, b: seq<bv8>)
    ensures MessageBits(a + b) == MessageBits(a) + MessageBits(b)
  {
    if b == [] {
      assert a + b == a;
    } else {
      var n := |b| - 1;
      assert (a + b)[..|a + b| - 1] == a + b[..n];
      assert MessageBits(a + b) == MessageBits(a + b[..n]) + ByteBits(b[n]);
      assert MessageBits(b) == MessageBits(b[..n]) + ByteBits(b[n]);
      hide MessageBits, ByteBits;
      MessageBitsAppend(a, b[..n]);
      Assoc(MessageBits(a), MessageBits(b[..n]), ByteBits(b[n]));
    }
  }

  /** Two different messages of one length have different CRCs if their bits differ only within
      sixteen consecutive places, or in an odd number of places. */
  lemma ErrorsDetected(a: seq<bv8>, b: seq<bv8>, i: nat, n: nat)
    requires |a| == |b| && a != b
    requires (n <= 16 && DifferWithin(MessageBits(a), MessageBits(b), i, n))
          || Differences(MessageBits(a), MessageBits(b)) % 2 == 1
    ensures Crc(a) != Crc(b)
  {
    hide MessageBits, FeedBits, FeedBytes, Differences;
    FeedBytesIsBits(INITIAL, a);
    FeedBytesIsBits(INITIAL, b);
    if n <= 16 && DifferWithin(MessageBits(a), MessageBits(b), i, n) {
      if MessageBits(a) == MessageBits(b) {
        MessageBitsInjective(a, b);
      }
      BurstDetected(INITIAL, MessageBits(a), MessageBits(b), i, n);
    } else {
      OddDetected(INITIAL, MessageBits(a), MessageBits(b));
    }
  }

  lemma WindowOfTwo(p: seq<bv8>, u: seq<bv8>, v: seq<bv8>, rest: seq<bv8>)
    requires |u| == |v| <= 2
    ensures DifferWithin(MessageBits(p + u + rest), MessageBits(p + v + rest), 8 * |p|, 8 * |u|)
  {
    hide MessageBits;
    MessageBitsAppend(p + u, rest);
    MessageBitsAppend(p + v, rest);
    MessageBitsAppend(p, u);
    MessageBitsAppend(p, v);
  }

  /** In particular, two messages that differ only within two adjacent bytes. */
  lemma AdjacentBytesDetected(p: seq<bv8>, u: seq<bv8>, v: seq<bv8>, rest: seq<bv8>)
    requires |u| == |v| <= 2 && u != v
    ensures Crc(p + u + rest) != Crc(p + v + rest)
  {
    hide Crc, MessageBits;
    WindowOfTwo(p, u, v, rest);
    var a, b := p + u + rest, p + v + rest;
    assert a[|p|..|p| + |u|] == u && b[|p|..|p| + |v|] == v;
    ErrorsDetected(a, b, 8 * |p|, 8 * |u|);
  }

  // ---- a message followed by its CRC ---------------------------------------------------------

  /** `crc.to_bytes(2, "big")`. */
  function CrcBytes(c: bv16): (bs: seq<bv8>)
    ensures |bs| == 2
  {
    [((c >> 8) & 0xFF) as bv8, (c & 0xFF) as bv8]
  }

  lemma ShiftFour(c: bv16)
    requires c & 0xF000 == 0
    ensures Shift(Shift(Shift(Shift(c)))) == c << 4
  {
  }

  lemma ShiftEight(c: bv16)
    requires c & 0xFF00 == 0
    ensures ShiftTimes(c, 8) == c << 8
  {
    hide Shift;
    var c4 := Shift(Shift(Shift(Shift(c))));
    assert ShiftTimes(c, 8) == ShiftTimes(Shift(c), 7) == ShiftTimes(Shift(Shift(c)), 6)
        == ShiftTimes(Shift(Shift(Shift(c))), 5) == ShiftTimes(c4, 4);
    assert ShiftTimes(c4, 4) == ShiftTimes(Shift(c4), 3) == ShiftTimes(Shift(Shift(c4)), 2)
        == ShiftTimes(Shift(Shift(Shift(c4))), 1) == Shift(Shift(Shift(Shift(c4))));
    LowOctet(c);
    ShiftFour(c);
    ShiftFour(c4);
  }

  lemma LowOctet(c: bv16)
    requires c & 0xFF00 == 0
    ensures c & 0xF000 == 0 && (c << 4) & 0xF000 == 0 && (c << 4) << 4 == c << 8
  {
  }

  lemma MixHigh(c: bv16)
    ensures Mix(c, CrcBytes(c)[0] as bv16) == c & 0xFF
    ensures Mix((c & 0xFF) << 8, CrcBytes(c)[1] as bv16) == 0
    ensures (c & 0xFF) & 0xFF00 == 0
  {
  }

  lemma FeedOwnBytes(c: bv16)
    ensures FeedBytes(c, CrcBytes(c)) == 0
  {
    hide ShiftTimes, Mix, CrcBytes;
    var own := CrcBytes(c);
    MixHigh(c);
    ShiftEight(c & 0xFF);
    ShiftEight(0);
    assert own[..1] == [own[0]] && own[..0] == [] && own[..1][..0] == [];
    assert FeedBytes(c, own[..1]) == FeedByte(c, own[0]);
  }

  /** The remainder of a message followed by two bytes is zero exactly when they are its CRC. */
  lemma ResidueExact(data: seq<bv8>, trailer: seq<bv8>)
    requires |trailer| == 2
    ensures Crc(data + trailer) == 0 <==> trailer == CrcBytes(Crc(data))
  {
    hide CrcBytes;
    var own := CrcBytes(Crc(data));
    FeedBytesAppend(INITIAL, data, own);
    FeedOwnBytes(Crc(data));
    if trailer != own {
      AdjacentBytesDetected(data, trailer, own, []);
      assert data + trailer + [] == data + trailer && data + own + [] == data + own;
    }
  }

  // ---- the standard's check value ------------------------------------------------------------

  lemma EightShifts(c: bv16)
    ensures ShiftTimes(c, 8) == Shift(Shift(Shift(Shift(Shift(Shift(Shift(Shift(c))))))))
  {
    hide Shift;
    var c4 := Shift(Shift(Shift(Shift(c))));
    assert ShiftTimes(c, 8) == ShiftTimes(Shift(c), 7) == ShiftTimes(Shift(Shift(c)), 6)
        == ShiftTimes(Shift(Shift(Shift(c))), 5) == ShiftTimes(c4, 4);
    assert ShiftTimes(c4, 4) == ShiftTimes(Shift(c4), 3) == ShiftTimes(Shift(Shift(c4)), 2)
        == ShiftTimes(Shift(Shift(Shift(c4))), 1) == Shift(Shift(Shift(Shift(c4))));
  }

  lemma FedSnoc(data: seq<bv8>, b: bv8, before: bv16, after: bv16)
    requires FeedBytes(INITIAL, data) == before
    requires Shift(Shift(Shift(Shift(Shift(Shift(Shift(Shift(Mix(before, b as bv16))))))))) == after
    ensures FeedBytes(INITIAL, data + [b]) == after
  {
    hide Shift, Mix;
    assert (data + [b])[..|data + [b]| - 1] == data;
    EightShifts(Mix(before, b as bv16));
  }

  /** CRC-16/CCITT-FALSE of the text "123456789". */
  lemma CheckValue()
    ensures Crc([0x31, 0x32, 0x33, 0x34, 0x35, 0x36, 0x37, 0x38, 0x39]) == 0x29B1
  {
    var d: seq<bv8> := [];
    FedSnoc(d, 0x31, 0xFFFF, 0xC782);
    d := d + [0x31];
    FedSnoc(d, 0x32, 0xC782, 0x3DBA);
    d := d + [0x32];
    FedSnoc(d, 0x33, 0x3DBA, 0x5BCE);
    d := d + [0x33];
    FedSnoc(d, 0x34, 0x5BCE, 0x5349);
    d := d + [0x34];
    FedSnoc(d, 0x35, 0x5349, 0x4560);
    d := d + [0x35];
    FedSnoc(d, 0x36, 0x4560, 0x2EF4);
    d := d + [0x36];
    FedSnoc(d, 0x37, 0x2EF4, 0x7718);
    d := d + [0x37];
    FedSnoc(d, 0x38, 0x7718, 0xA12B);
    d := d + [0x38];
    FedSnoc(d, 0x39, 0xA12B, 0x29B1);
    d := d + [0x39];
    assert d == [0x31, 0x32, 0x33, 0x34, 0x35, 0x36, 0x37, 0x38, 0x39];
  }
}
