/** vllm/_xpu_ops.py, `dynamic_per_token_int8_quant_ref` on one token's row, in exact reals. */
module Int8Quant {

  function Pow2(n: nat): nat {
    if n == 0 then 1 else 2 * Pow2(n - 1)
  }

  lemma {:induction false} Pow2Grows(n: nat)
    ensures 1 <= Pow2(n) && (0 < n ==> 2 <= Pow2(n) && Pow2(n) % 2 == 0)
  {
    if n > 0 {
      Pow2Grows(n - 1);
    }
  }

  /** `torch.round`: to the nearest integer, halves to the even one. */
  function RoundHalfEven(x: real): int {
    var low := x.Floor;
    var rest := x - low as real;
    if rest < 0.5 then low
    else if 0.5 < rest then low + 1
    else if low % 2 == 0 then low else low + 1
  }

  lemma RoundIsNear(x: real)
    ensures -0.5 <= RoundHalfEven(x) as real - x <= 0.5
  {
  }

  /** Rounding respects integer bounds. */
  lemma RoundWithin(x: real, low: int, high: int)
    requires low as real <= x <= high as real
    ensures low <= RoundHalfEven(x) <= high
  {
  }

  function Min(row: seq<real>): (m: real)
    requires row != []
    ensures m in row && forall k :: 0 <= k < |row| ==> m <= row[k]
  {
    if |row| == 1 then row[0]
    else
      var m := Min(row[1..]);
      assert forall k :: 1 <= k < |row| ==> row[k] == row[1..][k - 1];
      if row[0] <= m then row[0] else m
  }

  function Max(row: seq<real>): (m: real)
    requires row != []
    ensures m in row && forall k :: 0 <= k < |row| ==> row[k] <= m
  {
    if |row| == 1 then row[0]
    else
      var m := Max(row[1..]);
      assert forall k :: 1 <= k < |row| ==> row[k] == row[1..][k - 1];
      if m <= row[0] then row[0] else m
  }

  function Abs(x: real): real {
    if x < 0.0 then -x else x
  }

  const SCALE_FLOOR: real := 0.00001

  function AtLeast(x: real, floor: real): real {
    if x < floor then floor else x
  }

  function Clamp(q: int, low: int, high: int): int {
    if q < low then low else if high < q then high else q
  }

  function QMin(symmetric: bool, bits: nat): int
    requires 1 <= bits
  {
    if symmetric then -(Pow2(bits - 1) as int) else 0
  }

  function QMax(symmetric: bool, bits: nat): int
    requires 1 <= bits
  {
    if symmetric then Pow2(bits - 1) - 1 else Pow2(bits) - 1
  }

  /** One bit leaves no positive level in the symmetric mode, and the scale divides by zero. */
  predicate UsableBits(symmetric: bool, bits: nat) {
    if symmetric then 2 <= bits else 1 <= bits
  }

  lemma QMaxPositive(symmetric: bool, bits: nat)
    requires UsableBits(symmetric, bits)
    ensures 1 <= QMax(symmetric, bits) && QMin(symmetric, bits) <= 0
    ensures symmetric ==> QMin(symmetric, bits) == -QMax(symmetric, bits) - 1
    ensures QMax(symmetric, bits) - QMin(symmetric, bits) + 1 == Pow2(bits)
  {
    Pow2Grows(bits);
    Pow2Grows(bits - 1);
  }

  /** What the levels have to span. */
  function Width(row: seq<real>, symmetric: bool): real
    requires row != []
  {
    if !symmetric then Max(row) - Min(row)
    else if Abs(Min(row)) < Abs(Max(row)) then Abs(Max(row)) else Abs(Min(row))
  }

  function Scale(row: seq<real>, symmetric: bool, bits: nat): (scale: real)
    requires row != [] && UsableBits(symmetric, bits)
    ensures SCALE_FLOOR <= scale
  {
    QMaxPositive(symmetric, bits);
    AtLeast(Width(row, symmetric) / QMax(symmetric, bits) as real, SCALE_FLOOR)
  }

  function ZeroPoint(row: seq<real>, symmetric: bool, bits: nat): int
    requires row != [] && UsableBits(symmetric, bits)
  {
    if symmetric then 0 else -RoundHalfEven(Min(row) / Scale(row, symmetric, bits))
  }

  function Quantize(row: seq<real>, k: nat, symmetric: bool, bits: nat): int
    requires k < |row| && UsableBits(symmetric, bits)
  {
    Clamp(RoundHalfEven(row[k] / Scale(row, symmetric, bits) + ZeroPoint(row, symmetric, bits) as real),
          QMin(symmetric, bits), QMax(symmetric, bits))
  }

  function Dequantize(q: int, scale: real, zeroPoint: int): real {
    scale * (q - zeroPoint) as real
  }

  // ---- the scale -------------------------------------------------------------------------

  /** Every element lies within `reach` of zero or, in the asymmetric mode, of every other. */
  ghost predicate Within(row: seq<real>, symmetric: bool, reach: real) {
    if symmetric then forall k :: 0 <= k < |row| ==> -reach <= row[k] <= reach
    else forall i, j :: 0 <= i < |row| && 0 <= j < |row| ==> row[j] - row[i] <= reach
  }

  lemma WidthWithin(row: seq<real>, symmetric: bool, reach: real)
    requires row != [] && 0.0 <= reach
    ensures Width(row, symmetric) <= reach <==> Within(row, symmetric, reach)
  {
    var low, high := Min(row), Max(row);
    var a: nat :| a < |row| && row[a] == low;
    var b: nat :| b < |row| && row[b] == high;
    assert Within(row, symmetric, reach) ==> if symmetric then -reach <= row[a] && row[b] <= reach else row[b] - row[a] <= reach;
  }

  lemma LeastStep(width: real, top: real, step: real)
    requires 0.0 < top && 0.00001 <= step
    ensures AtLeast(width / top, SCALE_FLOOR) <= step <==> width <= top * step
  {
    var q := width / top;
    QuotientTimes(width, top);
    if q <= step {
      ScaleIsWide(width, top, step);
    } else {
      ScaledApart(q, step, top);
    }
  }

  lemma ScaleOfWidth(row: seq<real>, symmetric: bool, bits: nat, top: real)
    requires row != [] && UsableBits(symmetric, bits) && top == QMax(symmetric, bits) as real
    ensures 0.0 < top && Scale(row, symmetric, bits) == AtLeast(Width(row, symmetric) / top, SCALE_FLOOR)
  {
    QMaxPositive(symmetric, bits);
  }

  /** The scale is the least step, not below the floor, with which the largest level reaches the whole row. */
  lemma ScaleIsLeast(row: seq<real>, symmetric: bool, bits: nat, top: real, step: real)
    requires row != [] && UsableBits(symmetric, bits) && top == QMax(symmetric, bits) as real && 0.00001 <= step
    ensures Scale(row, symmetric, bits) <= step <==> Within(row, symmetric, top * step)
  {
    var scale, width, reach := Scale(row, symmetric, bits), Width(row, symmetric), top * step;
    ScaleOfWidth(row, symmetric, bits, top);
    assert scale <= step <==> width <= reach by {
      LeastStep(width, top, step);
    }
    assert 0.0 <= reach by {
      PositiveSteps(top, step);
    }
    WidthWithin(row, symmetric, reach);
  }

  lemma PositiveSteps(top: real, step: real)
    requires 0.0 < top && 0.0 < step
    ensures 0.0 <= top * step
  {
  }

  // ---- error bound -----------------------------------------------------------------------

  lemma DivideBounds(x: real, s: real, bound: real)
    requires 0.0 < s && -(bound * s) <= x <= bound * s
    ensures -bound <= x / s <= bound
  {
    var q := x / s;
    QuotientTimes(x, s);
    Cancel(q, bound, s);
    Cancel(-bound, q, s);
  }

  lemma ScaledApart(a: real, b: real, s: real)
    requires 0.0 < s && b < a
    ensures b * s < a * s
  {
    assert 0.0 < (a - b) * s;
  }

  lemma Cancel(a: real, b: real, s: real)
    requires 0.0 < s && a * s <= b * s
    ensures a <= b
  {
    if b < a {
      ScaledApart(a, b, s);
      assert false;
    }
  }

  /** The scale is wide enough: `top` steps span everything the mode has to represent. */
  lemma ScaleIsWide(width: real, top: real, scale: real)
    requires 0.0 < top && 0.0 < scale && width / top <= scale
    ensures width <= top * scale
  {
    var step := width / top;
    assert step * top == width;
    assert step * top <= scale * top;
  }

  /** Symmetric mode: every scaled element lies within the levels, so clamping changes nothing. */
  lemma SymmetricInRange(row: seq<real>, k: nat, bits: nat)
    requires k < |row| && 2 <= bits
    ensures var y := row[k] / Scale(row, true, bits); var top := QMax(true, bits);
      -(top as real) <= y <= top as real
  {
    QMaxPositive(true, bits);
    var low, high, top, scale := Min(row), Max(row), QMax(true, bits) as real, Scale(row, true, bits);
    var width := if Abs(low) < Abs(high) then Abs(high) else Abs(low);
    ScaleIsWide(width, top, scale);
    assert low <= row[k] <= high;
    DivideBounds(row[k], scale, top);
  }

  /** Asymmetric mode: the scaled element, moved by the zero point, is at most half a step out of range. */
  lemma AsymmetricNearRange(row: seq<real>, k: nat, bits: nat)
    requires k < |row| && 1 <= bits
    ensures var y := row[k] / Scale(row, false, bits) + ZeroPoint(row, false, bits) as real;
      -0.5 <= y <= QMax(false, bits) as real + 0.5
  {
    QMaxPositive(false, bits);
    var low, high, top, scale := Min(row), Max(row), QMax(false, bits) as real, Scale(row, false, bits);
    ScaleIsWide(high - low, top, scale);
    RoundIsNear(low / scale);
    Spread(row[k], low, top, scale);
  }

  lemma Spread(x: real, low: real, top: real, scale: real)
    requires 0.0 < scale && low <= x && x - low <= top * scale
    ensures 0.0 <= x / scale - low / scale <= top
  {
    var a, b := x / scale, low / scale;
    assert a * scale == x && b * scale == low;
    assert (a - b) * scale == x - low;
    Cancel(0.0, a - b, scale);
    Cancel(a - b, top, scale);
  }

  /** Clamping a rounded value that was at most half a step out of range keeps it within half a step. */
  lemma ClampIsNear(y: real, low: int, high: int)
    requires low <= high && low as real - 0.5 <= y <= high as real + 0.5
    ensures var q := Clamp(RoundHalfEven(y), low, high);
      low <= q <= high && -0.5 <= q as real - y <= 0.5
  {
    RoundIsNear(y);
  }

  /** The quantised value is a level of the mode, and dequantising it comes back within half a
      scale of the input, whether or not the scale floor applies. */
  lemma QuantizationError(row: seq<real>, k: nat, symmetric: bool, bits: nat)
    requires k < |row| && UsableBits(symmetric, bits)
    ensures QMin(symmetric, bits) <= Quantize(row, k, symmetric, bits) <= QMax(symmetric, bits)
    ensures var scale := Scale(row, symmetric, bits);
      var back := Dequantize(Quantize(row, k, symmetric, bits), scale, ZeroPoint(row, symmetric, bits));
      -(scale / 2.0) <= back - row[k] <= scale / 2.0
  {
    var scale, zero, q := Scale(row, symmetric, bits), ZeroPoint(row, symmetric, bits), Quantize(row, k, symmetric, bits);
    QMaxPositive(symmetric, bits);
    if symmetric {
      SymmetricInRange(row, k, bits);
    } else {
      AsymmetricNearRange(row, k, bits);
    }
    ClampIsNear(row[k] / scale + zero as real, QMin(symmetric, bits), QMax(symmetric, bits));
    ScaledError(row[k], q, zero, scale);
  }

  lemma ScaledError(x: real, q: int, zero: int, scale: real)
    requires 0.0 < scale && -0.5 <= q as real - (x / scale + zero as real) <= 0.5
    ensures -(scale / 2.0) <= Dequantize(q, scale, zero) - x <= scale / 2.0
  {
    var y, d := x / scale, (q - zero) as real;
    assert d == q as real - zero as real;
    QuotientTimes(x, scale);
    Distribute(scale, y, d - y, d);
    ScaleHalf(d - y, scale);
    assert Dequantize(q, scale, zero) == scale * d;
  }

  lemma QuotientTimes(x: real, s: real)
    requires s != 0.0
    ensures s * (x / s) == x
  {
  }

  lemma Distribute(s: real, a: real, b: real, sum: real)
    requires sum == a + b
    ensures s * sum == s * a + s * b
  {
  }

  lemma ScaleHalf(e: real, scale: real)
    requires 0.0 < scale && -0.5 <= e <= 0.5
    ensures -(scale / 2.0) <= scale * e <= scale / 2.0
  {
  }

  /** Symmetric mode: rounding never leaves the levels, so the clamp is the identity there. */
  lemma SymmetricNeverClamps(row: seq<real>, k: nat, bits: nat)
    requires k < |row| && 2 <= bits
    ensures Quantize(row, k, true, bits) == RoundHalfEven(row[k] / Scale(row, true, bits))
  {
    QMaxPositive(true, bits);
    SymmetricInRange(row, k, bits);
    RoundWithin(row[k] / Scale(row, true, bits), -QMax(true, bits), QMax(true, bits));
  }

  /** What the stored type, int8 or uint8, holds without loss. */
  predicate FitsByte(q: int, symmetric: bool) {
    if symmetric then -128 <= q <= 127 else 0 <= q <= 255
  }

  lemma {:induction false} Pow2Increases(a: nat, b: nat)
    requires a <= b
    ensures Pow2(a) <= Pow2(b)
  {
    if a < b {
      Pow2Increases(a, b - 1);
    }
  }

  predicate AllFit(row: seq<real>, symmetric: bool, bits: nat)
    requires UsableBits(symmetric, bits)
  {
    forall k :: 0 <= k < |row| ==> FitsByte(Quantize(row, k, symmetric, bits), symmetric)
  }

  lemma DivideByItself(x: real)
    requires 0.0 < x
    ensures x / x == 1.0
  {
  }

  lemma ExtremesOfPair(a: real, b: real)
    requires a <= b
    ensures Min([a, b]) == a && Max([a, b]) == b
  {
    assert [a, b][0] == a && [a, b][1] == b;
  }

  lemma UnitScale(symmetric: bool, bits: nat)
    requires UsableBits(symmetric, bits)
    ensures var row := [0.0, QMax(symmetric, bits) as real];
      Scale(row, symmetric, bits) == 1.0 && ZeroPoint(row, symmetric, bits) == 0
  {
    QMaxPositive(symmetric, bits);
    ExtremesOfPair(0.0, QMax(symmetric, bits) as real);
    DivideByItself(QMax(symmetric, bits) as real);
  }

  /** A row whose largest element is the largest level reaches that level. */
  lemma TopLevelReached(symmetric: bool, bits: nat)
    requires UsableBits(symmetric, bits)
    ensures Quantize([0.0, QMax(symmetric, bits) as real], 1, symmetric, bits) == QMax(symmetric, bits)
  {
    UnitScale(symmetric, bits);
    QMaxPositive(symmetric, bits);
  }

  /** Every row survives the cast to the stored type exactly when `bits` is at most eight. */
  lemma StoredExactly(symmetric: bool, bits: nat)
    requires UsableBits(symmetric, bits)
    ensures (forall row: seq<real> :: AllFit(row, symmetric, bits)) <==> bits <= 8
  {
    if bits <= 8 {
      Pow2Increases(bits, 8);
      Pow2Increases(bits - 1, 7);
      forall row: seq<real> ensures AllFit(row, symmetric, bits) {
        forall k | 0 <= k < |row| ensures FitsByte(Quantize(row, k, symmetric, bits), symmetric) {
          QuantizationError(row, k, symmetric, bits);
        }
      }
    } else {
      Pow2Increases(9, bits);
      Pow2Increases(8, bits - 1);
      TopLevelReached(symmetric, bits);
      assert !AllFit([0.0, QMax(symmetric, bits) as real], symmetric, bits);
    }
  }

  // ---- the zero point's own type ---------------------------------------------------------

  predicate FitsInt32(z: int) {
    -0x8000_0000 <= z <= 0x7FFF_FFFF
  }

  /** The rounded quotient is cast to int32 and then negated there; both are exact. */
  predicate ZeroPointIsExact(row: seq<real>, bits: nat)
    requires row != [] && 1 <= bits
  {
    FitsInt32(RoundHalfEven(Min(row) / Scale(row, false, bits))) && FitsInt32(ZeroPoint(row, false, bits))
  }

  /** Halves go to the even neighbour, away from an odd bound. */
  lemma RoundBounds(x: real, odd: int)
    requires odd % 2 == 1
    ensures RoundHalfEven(x) <= odd <==> x < odd as real + 0.5
    ensures odd <= RoundHalfEven(x) <==> odd as real - 0.5 < x
  {
  }

  lemma QuotientBelow(x: real, s: real, bound: real)
    requires 0.0 < s
    ensures x / s < bound <==> x < bound * s
    ensures bound < x / s <==> bound * s < x
  {
    var q := x / s;
    QuotientTimes(x, s);
    if q < bound {
      ScaledApart(bound, q, s);
    } else if bound < q {
      ScaledApart(q, bound, s);
    }
  }

  /** The asymmetric zero point survives int32 exactly when the smallest element lies within about
      2^31 scales of zero. */
  lemma ZeroPointFits(row: seq<real>, bits: nat)
    requires row != [] && 1 <= bits
    ensures var limit := 2147483647.5 * Scale(row, false, bits);
      ZeroPointIsExact(row, bits) <==> -limit < Min(row) < limit
  {
    RoundedQuotientFits(Min(row), Scale(row, false, bits));
  }

  lemma RoundedQuotientFits(x: real, scale: real)
    requires 0.0 < scale
    ensures FitsInt32(RoundHalfEven(x / scale)) && FitsInt32(-RoundHalfEven(x / scale))
      <==> -(2147483647.5 * scale) < x < 2147483647.5 * scale
  {
    RoundBounds(x / scale, 0x7FFF_FFFF);
    RoundBounds(x / scale, -0x7FFF_FFFF);
    QuotientBelow(x, scale, 2147483647.5);
    QuotientBelow(x, scale, -2147483647.5);
  }

  /** A constant row has the floor for its scale; far enough from zero its zero point overflows. */
  lemma ZeroPointOverflows(bits: nat)
    requires 1 <= bits
    ensures !ZeroPointIsExact([30000.0], bits)
  {
    QMaxPositive(false, bits);
    ZeroPointFits([30000.0], bits);
    assert 0.0 / QMax(false, bits) as real == 0.0;
  }
}
