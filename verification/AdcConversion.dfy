/** The ADC's conversion of a reading to microvolts: fixed-point interpolation in whole percent. */
module AdcConversion {
  import opened Wrappers

  const WORD: nat := 0x1_0000_0000

  /** The readings and microvolts a channel was calibrated for, all 32 bits wide. */
  datatype Calibration = Calibration(low: nat, high: nat, uvLow: nat, uvHigh: nat) {
    predicate Fits() { low < WORD && high < WORD && uvLow < WORD && uvHigh < WORD }

    /** The settings the interpolation is meant for. */
    predicate Sensible() { Fits() && low + 100 <= high && uvLow <= uvHigh && 100 * (uvHigh - uvLow) < WORD }

    function Span(): (d: nat)
      requires low <= high
    {
      high - low
    }

    function Range(): (u: nat)
      requires uvLow <= uvHigh
    {
      uvHigh - uvLow
    }
  }

  /** 32-bit subtraction. */
  function Sub(a: nat, b: nat): (r: nat)
    requires a < WORD && b < WORD
    ensures r < WORD
  {
    (a + WORD - b) % WORD
  }

  /** The conversion with its 32-bit wrap-around; `None` is the division by zero. */
  function Convert(c: Calibration, reading: nat): (uv: Option<nat>)
    requires c.Fits() && reading < WORD
  {
    if reading <= c.low then Some(c.uvLow)
    else if reading >= c.high then Some(c.uvHigh)
    else
      var rounded := (reading - c.low) / 100 * 100;
      var step := (c.high - c.low) / 100;
      if step == 0 then None
      else Some((Sub(c.uvHigh, c.uvLow) * (rounded / step) % WORD / 100 + c.uvLow) % WORD)
  }

  /** The conversion divides by zero exactly for readings inside a span of less than a hundred. */
  lemma DividesByZeroExactly(c: Calibration, reading: nat)
    requires c.Fits() && reading < WORD
    ensures Convert(c, reading) == None <==> c.low < reading < c.high && c.high - c.low < 100
  {
  }

  /** A calibration of 99 readings from 0 to 99, and a reading inside it. */
  lemma NarrowExample()
    ensures Calibration(0, 99, 0, 1000).Fits() && Convert(Calibration(0, 99, 0, 1000), 50) == None
  {
    DividesByZeroExactly(Calibration(0, 99, 0, 1000), 50);
  }

  // ---- without wrap-around -------------------------------------------------------------------

  /** The percentage of the span that `x`, a reading above the low end, is taken for. */
  function Percent(span: nat, x: nat): (p: nat)
    requires span >= 100
  {
    x / 100 * 100 / (span / 100)
  }

  /** The interpolated part: how far above the low voltage. */
  function Above(c: Calibration, x: nat): (uv: nat)
    requires c.Sensible()
  {
    c.Range() * Percent(c.Span(), x) / 100
  }

  lemma MulLe(a: int, b: int, k: int)
    requires a <= b && k >= 0
    ensures a * k <= b * k
  {
  }

  lemma DivBounds(a: nat, d: nat)
    requires d > 0
    ensures a / d * d <= a < a / d * d + d
  {
  }

  lemma DivLe(a: nat, b: nat, d: nat)
    requires a <= b && d > 0
    ensures a / d <= b / d
  {
    DivBounds(a, d);
    DivBounds(b, d);
    if a / d > b / d {
      MulLe(b / d + 1, a / d, d);
    }
  }

  lemma DivOfProduct(k: nat, d: nat)
    requires d > 0
    ensures k * d / d == k
  {
    var m := k * d / d;
    DivBounds(k * d, d);
    if m < k {
      MulLe(m + 1, k, d);
    } else if m > k {
      MulLe(k + 1, m, d);
    }
  }

  lemma PercentAtMost(span: nat, x: nat)
    requires span >= 100 && x < span
    ensures Percent(span, x) <= 100
  {
    var q := span / 100;
    assert x / 100 * 100 <= q * 100;
    DivLe(x / 100 * 100, 100 * q, q);
    DivOfProduct(100, q);
  }

  lemma PercentMonotone(span: nat, x: nat, y: nat)
    requires span >= 100 && x <= y
    ensures Percent(span, x) <= Percent(span, y)
  {
    DivLe(x / 100 * 100, y / 100 * 100, span / 100);
  }

  lemma AboveMonotone(c: Calibration, x: nat, y: nat)
    requires c.Sensible() && x <= y
    ensures Above(c, x) <= Above(c, y)
  {
    PercentMonotone(c.Span(), x, y);
    var u := c.Range();
    MulLe(Percent(c.Span(), x), Percent(c.Span(), y), u);
    DivLe(u * Percent(c.Span(), x), u * Percent(c.Span(), y), 100);
  }

  lemma AboveAtMost(c: Calibration, x: nat)
    requires c.Sensible() && x < c.Span()
    ensures c.Range() * Percent(c.Span(), x) < WORD
    ensures Above(c, x) <= c.Range()
  {
    var u, p := c.Range(), Percent(c.Span(), x);
    PercentAtMost(c.Span(), x);
    MulLe(p, 100, u);
    DivLe(u * p, u * 100, 100);
    DivOfProduct(u, 100);
  }

  /** Without that bound on the range, the 32-bit product spoils the result exactly for the readings
      whose product does not fit. */
  lemma OverflowExact(c: Calibration, reading: nat)
    requires c.Fits() && c.low + 100 <= c.high && c.uvLow <= c.uvHigh && c.low < reading < c.high
    ensures var product := c.Range() * Percent(c.Span(), reading - c.low);
            Convert(c, reading) == Some(c.uvLow + product / 100) <==> product < WORD
  {
    var u, p := c.Range(), Percent(c.Span(), reading - c.low);
    PercentIs(c.Span(), reading - c.low);
    PercentAtMost(c.Span(), reading - c.low);
    hide Percent;
    SubExact(c.uvHigh, c.uvLow);
    MulLe(p, 100, u);
    WrapLoses(u * p);
    SmallMod(u * p % WORD / 100 + c.uvLow);
  }

  lemma Overflows(c: Calibration, reading: nat, percent: nat)
    requires c.Fits() && c.low + 100 <= c.high && c.uvLow <= c.uvHigh && c.low < reading < c.high
    requires Percent(c.Span(), reading - c.low) == percent && c.Range() * percent >= WORD
    ensures Convert(c, reading) != Some(c.uvLow + c.Range() * percent / 100)
  {
    hide Percent, Convert;
    OverflowExact(c, reading);
  }

  const FIFTY_VOLTS := Calibration(0, 1000, 0, 50_000_000)

  lemma FiftyVolts()
    ensures FIFTY_VOLTS.Fits() && FIFTY_VOLTS.Range() == 50_000_000 && FIFTY_VOLTS.Span() == 1000
  {
  }

  lemma NinetyPercent()
    ensures Percent(1000, 900) == 90
  {
    var q := 1000 / 100;
    assert q == 10 && 900 / 100 * 100 == 900;
  }

  /** A range of fifty volts over a thousand readings: 90 percent of it does not fit. */
  lemma WideExample()
    ensures FIFTY_VOLTS.Fits() && Convert(FIFTY_VOLTS, 900) != Some(45_000_000)
  {
    hide Percent, Convert, Calibration.Range, Calibration.Span;
    FiftyVolts();
    NinetyPercent();
    Overflows(FIFTY_VOLTS, 900, 90);
  }

  lemma WrapLoses(n: nat)
    ensures n % WORD <= n && (n % WORD / 100 == n / 100 <==> n < WORD)
  {
    if n >= WORD {
      assert n % WORD + 100 <= n;
      DivLe(n % WORD + 100, n, 100);
    }
  }

  /** Under sensible settings nothing overflows, and the conversion is the low voltage plus the
      interpolated part. */
  lemma ConvertIsAbove(c: Calibration, reading: nat)
    requires c.Sensible() && reading < WORD
    ensures Convert(c, reading)
         == Some(if reading <= c.low then c.uvLow
                 else if reading >= c.high then c.uvHigh
                 else c.uvLow + Above(c, reading - c.low))
  {
    hide Percent;
    if c.low < reading < c.high {
      var x := reading - c.low;
      AboveAtMost(c, x);
      SubExact(c.uvHigh, c.uvLow);
      PercentIs(c.Span(), x);
      SmallMod(c.Range() * Percent(c.Span(), x));
      SmallMod(Above(c, x) + c.uvLow);
    }
  }

  lemma PercentIs(span: nat, x: nat)
    requires span >= 100
    ensures Percent(span, x) == x / 100 * 100 / (span / 100)
  {
  }

  lemma SubExact(a: nat, b: nat)
    requires b <= a < WORD
    ensures Sub(a, b) == a - b
  {
  }

  lemma SmallMod(n: nat)
    requires n < WORD
    ensures n % WORD == n
  {
  }

  // ---- main results --------------------------------------------------------------------------

  /** The voltage never leaves the calibrated range and never falls as the reading rises. */
  lemma ConvertMonotone(c: Calibration, a: nat, b: nat)
    requires c.Sensible() && a <= b < WORD
    ensures Convert(c, a).Some? && Convert(c, b).Some?
    ensures c.uvLow <= Convert(c, a).value <= Convert(c, b).value <= c.uvHigh
  {
    hide Convert, Above;
    ConvertIsAbove(c, a);
    ConvertIsAbove(c, b);
    if c.low < a < c.high {
      AboveAtMost(c, a - c.low);
    }
    if c.low < b < c.high {
      AboveAtMost(c, b - c.low);
    }
    if c.low < a && b < c.high {
      AboveMonotone(c, a - c.low, b - c.low);
    }
  }

  function Linear(u: real, x: real, d: real): (uv: real)
    requires d > 0.0
  {
    u * x / d
  }

  /** Exact linear interpolation. */
  function Exact(c: Calibration, x: nat): (uv: real)
    requires c.Sensible()
  {
    Linear(c.Range() as real, x as real, c.Span() as real)
  }

  /** How far the interpolated part `r` may be from the exact `e`. */
  predicate Near(u: real, q: real, e: real, r: real)
    requires q > 0.0
  {
    r <= e + u / q && e < r + u / q + u / 100.0 + 1.0
  }

  /** The three truncations, as bounds on the interpolated part `r`: `u` the range, `d` the span,
      `q` its hundredth, `p` the percentage, `x'` the reading rounded down. */
  lemma TruncationBounds(u: nat, d: nat, q: nat, x: nat, x': nat, p: nat, r: nat)
    requires 100 * q <= d < 100 * q + 100 && q >= 1 && x < d
    requires x' <= x < x' + 100 && p * q <= x' < p * q + q && 100 * r <= u * p < 100 * r + 100
    ensures r * (d * q) <= u * x * q + u * d
    ensures 100 * q * (u * x) < 100 * q * (d * r) + 100 * (d * u) + q * (d * u) + 100 * (q * d)
  {
    UpperBound(u, d, q, x, x', p, r);
    LowerBound(u, d, q, x, x', p, r);
  }

  lemma Reorder(a: int, b: int, c: int, d: int)
    ensures (a * b) * (c * d) == (b * d) * (a * c)
  {
    calc {
      (a * b) * (c * d);
      a * (b * (c * d));
      a * ((b * d) * c);
      (b * d) * (a * c);
    }
  }

  lemma UpperBound(u: nat, d: nat, q: nat, x: nat, x': nat, p: nat, r: nat)
    requires 100 * q <= d < 100 * q + 100 && q >= 1 && x < d
    requires x' <= x && p * q <= x' && 100 * r <= u * p
    ensures r * (d * q) <= u * x * q + u * d
  {
    MulLe(100 * r, u * p, d * q);
    Reorder(u, p, d, q);
    MulLe(p * q, x, u * d);
    Reorder(1, x, u, d);
    assert 100 * (r * (d * q)) <= (x * d) * u;
    MulLe(d, 100 * q + 100, u * x);
    SpanTimes(u, d, q, x);
    MulLe(x, d, u);
  }

  lemma SpanTimes(u: nat, d: nat, q: nat, x: nat)
    ensures (x * d) * u == d * (u * x)
    ensures (100 * q + 100) * (u * x) == 100 * (u * x * q) + 100 * (x * u)
  {
  }

  lemma LowerBound(u: nat, d: nat, q: nat, x: nat, x': nat, p: nat, r: nat)
    requires 100 * q <= d && q >= 1
    requires x < x' + 100 && x' < p * q + q && u * p < 100 * r + 100
    ensures 100 * q * (u * x) < 100 * q * (d * r) + 100 * (d * u) + q * (d * u) + 100 * (q * d)
  {
    LowerLeft(u, d, q, x, p * q);
    LowerRight(u, d, q, p, r);
    Rearranged(u, d, q, x, p);
    AddUp(100 * q * (u * x), (p * q) * (d * u), q * (d * u), d * u, 100 * q * (d * r), q * d);
  }

  lemma LowerLeft(u: nat, d: nat, q: nat, x: nat, pq: nat)
    requires 100 * q <= d && x <= pq + q + 98
    ensures 100 * q * (u * x) <= pq * (d * u) + q * (d * u) + 98 * (d * u)
  {
    MulLe(100 * q, d, u * x);
    Rearranged(u, d, q, x, 0);
    MulLe(x, pq + q + 98, d * u);
    Distribute(pq, q, d * u);
  }

  lemma LowerRight(u: nat, d: nat, q: nat, p: nat, r: nat)
    requires u * p < 100 * r + 100 && q >= 1 && d >= 1
    ensures (u * p) * (q * d) <= 100 * q * (d * r) + 99 * (q * d) && q * d >= 1
  {
    MulLe(u * p, 100 * r + 99, q * d);
    DistributeTwo(r, q, d);
    MulLe(1, q, d);
  }

  lemma AddUp(left: int, pqud: int, qud: int, ud: int, qdr: int, qd: int)
    requires left <= pqud + qud + 98 * ud && pqud <= qdr + 99 * qd && qd >= 1 && ud >= 0
    ensures left < qdr + 100 * ud + qud + 100 * qd
  {
  }

  lemma Distribute(a: int, b: int, k: int)
    ensures (a + b + 98) * k == a * k + b * k + 98 * k
  {
  }

  lemma DistributeTwo(r: int, q: int, d: int)
    ensures (100 * r + 99) * (q * d) == 100 * q * (d * r) + 99 * (q * d)
  {
  }

  lemma Rearranged(u: int, d: int, q: int, x: int, p: int)
    ensures d * (u * x) == x * (d * u)
    ensures (p * q) * (d * u) == (u * p) * (q * d)
  {
  }

  lemma RawBounds(u: nat, d: nat, q: nat, x: nat, x': nat, p: nat, r: nat)
    requires 100 * q <= d < 100 * q + 100 && q >= 1 && x < d
    requires x' <= x < x' + 100 && p * q <= x' < p * q + q && 100 * r <= u * p < 100 * r + 100
    ensures Near(u as real, q as real, Linear(u as real, x as real, d as real), r as real)
  {
    hide Near, Truncated, Linear;
    TruncationBounds(u, d, q, x, x', p, r);
    RealTruncationBounds(u, d, q, x, r);
    RealBounds(u as real, d as real, q as real, x as real, r as real);
  }

  lemma AboveBounds(c: Calibration, x: nat)
    requires c.Sensible() && 0 < x < c.Span()
    ensures Near(c.Range() as real, (c.Span() / 100) as real, Exact(c, x), Above(c, x) as real)
  {
    var u, d := c.Range(), c.Span();
    var q, x' := d / 100, x / 100 * 100;
    var p := Percent(d, x);
    PercentIs(d, x);
    hide Percent, Near, Linear;
    DivBounds(d, 100);
    DivBounds(x, 100);
    DivBounds(x', q);
    DivBounds(u * p, 100);
    RawBounds(u, d, q, x, x', p, Above(c, x));
  }

  /** For a reading inside the range the result is above exact interpolation by at most U/q and below
      it by less than U/q + U/100 + 1 microvolts, with U the voltage range and q a hundredth of the
      reading span. */
  lemma ErrorBound(c: Calibration, reading: nat)
    requires c.Sensible() && c.low < reading < c.high
    ensures Convert(c, reading).Some?
    ensures var got, exact := Convert(c, reading).value as real, c.uvLow as real + Exact(c, reading - c.low);
            var u, q := c.Range() as real, (c.Span() / 100) as real;
            && got <= exact + u / q
            && exact < got + u / q + u / 100.0 + 1.0
  {
    hide Convert, Above, Exact;
    ConvertIsAbove(c, reading);
    AboveBounds(c, reading - c.low);
  }

  lemma RealProduct(a: int, b: int)
    ensures (a * b) as real == a as real * b as real
  {
  }

  /** The truncation bounds as real numbers. */
  predicate Truncated(u: real, d: real, q: real, x: real, r: real) {
    && r * (d * q) <= u * x * q + u * d
    && 100.0 * q * (u * x) < 100.0 * q * (d * r) + 100.0 * (d * u) + q * (d * u) + 100.0 * (q * d)
  }

  lemma RealTruncationBounds(u: nat, d: nat, q: nat, x: nat, r: nat)
    requires r * (d * q) <= u * x * q + u * d
    requires 100 * q * (u * x) < 100 * q * (d * r) + 100 * (d * u) + q * (d * u) + 100 * (q * d)
    ensures Truncated(u as real, d as real, q as real, x as real, r as real)
  {
    RealProduct(d, q);
    RealProduct(r, d * q);
    RealProduct(u, x);
    RealProduct(u * x, q);
    RealProduct(u, d);
    RealProduct(d, u);
    RealProduct(d, r);
    RealProduct(q, d);
    RealProduct(q, d * u);
    RealProduct(100 * q, u * x);
    RealProduct(100 * q, d * r);
  }

  lemma RealCancel(a: real, b: real, k: real)
    requires k > 0.0
    ensures a * k <= b * k ==> a <= b
    ensures a * k < b * k ==> a < b
  {
  }

  lemma RealBounds(u: real, d: real, q: real, x: real, r: real)
    requires d > 0.0 && q > 0.0 && Truncated(u, d, q, x, r)
    ensures Near(u, q, Linear(u, x, d), r)
  {
    var e, f := Linear(u, x, d), u / q;
    assert e * d == u * x && f * q == u;
    Expand(e, f, d, q, r, u, x);
    RealCancel(r, e + f, d * q);
    RealCancel(e, r + f + u / 100.0 + 1.0, 100.0 * (q * d));
  }

  lemma Expand(e: real, f: real, d: real, q: real, r: real, u: real, x: real)
    requires e * d == u * x && f * q == u
    ensures (e + f) * (d * q) == u * x * q + u * d
    ensures e * (100.0 * (q * d)) == 100.0 * q * (u * x)
    ensures (r + f + u / 100.0 + 1.0) * (100.0 * (q * d))
         == 100.0 * q * (d * r) + 100.0 * (d * u) + q * (d * u) + 100.0 * (q * d)
  {
    assert e * (d * q) == (e * d) * q;
    assert f * (d * q) == (f * q) * d;
  }
}
