/** Dynamic per-token quantisation, in exact arithmetic: one scale and zero point per row. */
module XpuQuant {
  import opened Common

  function Pow2(n: nat): (r: nat)
    ensures r >= 1
  {
    if n == 0 then 1 else 2 * Pow2(n - 1)
  }

  /** Rounds to the nearest integer, ties to even. */
  function Round(x: real): (r: int)
    ensures -0.5 <= r as real - x <= 0.5
  {
    var f := x.Floor;
    var d := x - f as real;
    if d < 0.5 then f else if d > 0.5 then f + 1 else if f % 2 == 0 then f else f + 1
  }

  function Abs(x: real): real { if x < 0.0 then -x else x }

  /** The value that q stands for. */
  function Restored(scale: real, zeroPoint: int, q: int): real { scale * (q - zeroPoint) as real }

  predicate WithinHalf(a: real, b: real, scale: real) { Abs(a - b) <= scale / 2.0 }

  function Max(x: real, y: real): real { if x < y then y else x }

  function RowMin(row: seq<real>): (m: real)
    requires row != []
    ensures m in row && forall i :: 0 <= i < |row| ==> m <= row[i]
  {
    if |row| == 1 then row[0]
    else
      var rest := RowMin(row[1..]);
      assert forall i :: 1 <= i < |row| ==> row[i] == row[1..][i - 1];
      if row[0] < rest then row[0] else rest
  }

  function RowMax(row: seq<real>): (m: real)
    requires row != []
    ensures m in row && forall i :: 0 <= i < |row| ==> row[i] <= m
  {
    if |row| == 1 then row[0]
    else
      var rest := RowMax(row[1..]);
      assert forall i :: 1 <= i < |row| ==> row[i] == row[1..][i - 1];
      if rest < row[0] then row[0] else rest
  }

  // ---------------------------------------------------------------- the quantiser

  /** Symmetric or not, and how many bits; enough of them that the largest value is not 0. */
  datatype Mode = Mode(symmetric: bool, bits: nat) {
    predicate Valid() { bits >= if symmetric then 2 else 1 }

    function QMin(): int
      requires Valid()
    {
      if symmetric then 0 - Pow2(bits - 1) else 0
    }

    function QMax(): int
      requires Valid()
    {
      if symmetric then Pow2(bits - 1) - 1 else Pow2(bits) - 1
    }
  }

  const SMALLEST_SCALE: real := 0.00001

  lemma QMaxPositive(mode: Mode)
    requires mode.Valid()
    ensures mode.QMax() >= 1
    ensures !mode.symmetric ==> mode.QMax() % 2 == 1
  {
    if mode.symmetric {
      assert Pow2(mode.bits - 1) == 2 * Pow2(mode.bits - 2);
    } else {
      assert Pow2(mode.bits) == 2 * Pow2(mode.bits - 1);
    }
  }

  function Span(row: seq<real>, symmetric: bool): real
    requires row != []
  {
    if symmetric then Max(Abs(RowMin(row)), Abs(RowMax(row))) else RowMax(row) - RowMin(row)
  }

  function Scale(row: seq<real>, mode: Mode): (s: real)
    requires row != [] && mode.Valid()
    ensures s >= SMALLEST_SCALE
  {
    QMaxPositive(mode);
    Max(Quotient(Span(row, mode.symmetric), mode.QMax() as real), SMALLEST_SCALE)
  }

  function ZeroPoint(row: seq<real>, mode: Mode): int
    requires row != [] && mode.Valid()
  {
    if mode.symmetric then 0 else -1 * Round(Quotient(RowMin(row), Scale(row, mode)))
  }

  /** The value before rounding, in units of the scale. */
  function Scaled(row: seq<real>, mode: Mode, x: real): real
    requires row != [] && mode.Valid()
  {
    Quotient(x, Scale(row, mode)) + ZeroPoint(row, mode) as real
  }

  function Quantized(row: seq<real>, mode: Mode, x: real): int
    requires row != [] && mode.Valid()
  {
    Clamp(Round(Scaled(row, mode, x)), mode.QMin(), mode.QMax())
  }

  function Dequantized(row: seq<real>, mode: Mode, q: int): real
    requires row != [] && mode.Valid()
  {
    Restored(Scale(row, mode), ZeroPoint(row, mode), q)
  }

  // ---------------------------------------------------------------- the error bound

  /** Division, with what defines it. */
  function Quotient(a: real, s: real): (q: real)
    requires s > 0.0
    ensures q * s == a
  {
    a / s
  }

  lemma NegativeProduct(d: real, s: real)
    requires s > 0.0 && d < 0.0
    ensures d * s < 0.0
  {
  }

  lemma QuotientOrder(a: real, b: real, s: real)
    requires s > 0.0 && a <= b
    ensures Quotient(a, s) <= Quotient(b, s)
  {
    var p, q := Quotient(a, s), Quotient(b, s);
    assert (q - p) * s == b - a;
    if q < p { NegativeProduct(q - p, s); }
  }

  lemma QuotientBelow(a: real, s: real, n: real)
    requires s > 0.0 && n > 0.0 && Quotient(a, n) <= s
    ensures Quotient(a, s) <= n
  {
    var p, q := Quotient(a, n), Quotient(a, s);
    ProductOrder(p, s, n);
    assert (n - q) * s == n * s - a;
    if n < q { NegativeProduct(n - q, s); }
  }

  lemma ProductOrder(p: real, s: real, n: real)
    requires p <= s && n > 0.0
    ensures p * n <= s * n
  {
    assert (s - p) * n >= 0.0;
  }

  lemma QuotientDifference(a: real, b: real, s: real)
    requires s > 0.0
    ensures Quotient(a - b, s) == Quotient(a, s) - Quotient(b, s)
  {
    var p, q, d := Quotient(a, s), Quotient(b, s), Quotient(a - b, s);
    SameProduct(p - q, d, s);
  }

  lemma SameProduct(p: real, q: real, s: real)
    requires s > 0.0 && p * s == q * s
    ensures p == q
  {
    assert (p - q) * s == 0.0;
    if p < q { NegativeProduct(p - q, s); }
    if q < p { NegativeProduct(q - p, s); }
  }

  /** A symmetric row's elements lie within qmax scales of zero. */
  lemma SymmetricFits(span: real, x: real, s: real, qmax: real)
    requires s > 0.0 && qmax > 0.0 && -span <= x <= span && Quotient(span, qmax) <= s
    ensures -qmax <= Quotient(x, s) <= qmax
  {
    QuotientBelow(span, s, qmax);
    QuotientOrder(x, span, s);
    QuotientOrder(0.0 - span, x, s);
    QuotientDifference(0.0, span, s);
    SameProduct(Quotient(0.0, s), 0.0, s);
  }

  /** An asymmetric row's elements span at most qmax scales. */
  lemma AsymmetricFits(lo: real, hi: real, x: real, s: real, qmax: real)
    requires s > 0.0 && qmax > 0.0 && lo <= x <= hi && Quotient(hi - lo, qmax) <= s
    ensures Quotient(lo, s) <= Quotient(x, s) <= Quotient(lo, s) + qmax
  {
    QuotientBelow(hi - lo, s, qmax);
    QuotientDifference(hi, lo, s);
    QuotientOrder(lo, x, s);
    QuotientOrder(x, hi, s);
  }

  /** Every element lies between the ends of the quantised range, give or take half a unit
      in asymmetric mode. */
  lemma ScaledInRange(row: seq<real>, mode: Mode, x: real)
    requires row != [] && mode.Valid() && x in row
    ensures
      var z, qmax := Scaled(row, mode, x), mode.QMax() as real;
      if mode.symmetric then -qmax <= z <= qmax else -0.5 <= z <= qmax + 0.5
  {
    QMaxPositive(mode);
    var s, qmax, lo, hi := Scale(row, mode), mode.QMax() as real, RowMin(row), RowMax(row);
    if mode.symmetric {
      SymmetricFits(Max(Abs(lo), Abs(hi)), x, s, qmax);
    } else {
      AsymmetricFits(lo, hi, x, s, qmax);
    }
  }

  /** Rounding leaves the range only at the very top of an asymmetric row, by one, on a tie. */
  lemma RoundLeavesRangeOnlyOnTie(row: seq<real>, mode: Mode, x: real)
    requires row != [] && mode.Valid() && x in row
    ensures
      var z := Scaled(row, mode, x);
      !(mode.QMin() <= Round(z) <= mode.QMax()) <==> !mode.symmetric && z == mode.QMax() as real + 0.5
  {
    ScaledInRange(row, mode, x);
    QMaxPositive(mode);
    var z, qmax := Scaled(row, mode, x), mode.QMax();
    if !mode.symmetric {
      if z == qmax as real + 0.5 {
        assert z.Floor == qmax;
      } else {
        assert Round(z) <= qmax;
      }
      NotBelowZero(z);
    }
  }

  lemma NotBelowZero(z: real)
    requires z >= -0.5
    ensures Round(z) >= 0
  {
  }

  lemma ClampedIsClose(row: seq<real>, mode: Mode, x: real)
    requires row != [] && mode.Valid() && x in row
    ensures mode.QMin() <= Quantized(row, mode, x) <= mode.QMax()
    ensures -0.5 <= Quantized(row, mode, x) as real - Scaled(row, mode, x) <= 0.5
  {
    QMaxPositive(mode);
    RoundLeavesRangeOnlyOnTie(row, mode, x);
  }

  /** The largest absolute value of a row, or how far its values lie apart. */
  ghost predicate IsSpan(row: seq<real>, symmetric: bool, span: real) {
    if symmetric then
      && (exists i :: 0 <= i < |row| && (span == row[i] || span == -row[i]))
      && (forall i :: 0 <= i < |row| ==> -span <= row[i] <= span)
    else
      && (exists i, j :: 0 <= i < |row| && 0 <= j < |row| && span == row[i] - row[j])
      && (forall i, j :: 0 <= i < |row| && 0 <= j < |row| ==> row[i] - row[j] <= span)
  }

  lemma SpanIsUnique(row: seq<real>, mode: Mode, span: real)
    requires row != [] && mode.Valid() && IsSpan(row, mode.symmetric, span)
    ensures span == Span(row, mode.symmetric)
  {
    var lo, hi := RowMin(row), RowMax(row);
    var l :| 0 <= l < |row| && row[l] == lo;
    var h :| 0 <= h < |row| && row[h] == hi;
    if mode.symmetric {
      assert -span <= row[l] <= span && -span <= row[h] <= span;
    } else {
      assert row[h] - row[l] <= span;
    }
  }

  /** The largest stored value. */
  ghost predicate IsTop(mode: Mode, top: int)
    requires mode.Valid()
  {
    top == Pow2(if mode.symmetric then mode.bits - 1 else mode.bits) - 1
  }

  /** The scale is no greater than it has to be: the span takes up the whole range, unless the scale is
      the least that there is, and then the span is too small for that. */
  ghost predicate Tight(scale: real, span: real, top: int) {
    || (scale * top as real == span && scale >= 0.00001)
    || (scale == 0.00001 && span <= 0.00001 * top as real)
  }

  lemma ScaleIsTight(row: seq<real>, mode: Mode, span: real, top: int)
    requires row != [] && mode.Valid() && IsSpan(row, mode.symmetric, span) && IsTop(mode, top)
    ensures Tight(Scale(row, mode), span, top)
  {
    QMaxPositive(mode);
    SpanIsUnique(row, mode, span);
    LargerIsTight(Scale(row, mode), span, top);
  }

  lemma LargerIsTight(scale: real, span: real, top: int)
    requires top >= 1 && scale == Max(Quotient(span, top as real), SMALLEST_SCALE)
    ensures Tight(scale, span, top)
  {
    var q := Quotient(span, top as real);
    if q < 0.00001 { ProductOrder(q, 0.00001, top as real); }
  }

  /** The two values lie apart by no more than half of the span divided by the largest stored value, or
      of a hundred-thousandth where that is more. */
  ghost predicate IsClose(a: real, b: real, span: real, top: int) {
    -0.000005 <= a - b <= 0.000005 || -span <= 2.0 * (a - b) * top as real <= span
  }

  /** The stored value is in range and recovers the input to within half a scale, and so to within an
      amount that the row's span alone decides. */
  lemma QuantizationError(row: seq<real>, mode: Mode, x: real, span: real, top: int)
    requires row != [] && mode.Valid() && x in row && IsSpan(row, mode.symmetric, span) && IsTop(mode, top)
    ensures (if mode.symmetric then -top - 1 else 0) <= Quantized(row, mode, x) <= top
    ensures WithinHalf(Dequantized(row, mode, Quantized(row, mode, x)), x, Scale(row, mode))
    ensures IsClose(Dequantized(row, mode, Quantized(row, mode, x)), x, span, top)
  {
    QuantizedInRange(row, mode, x);
    ScaleIsTight(row, mode, span, top);
    QMaxPositive(mode);
    TightIsClose(Dequantized(row, mode, Quantized(row, mode, x)), x, Scale(row, mode), span, top);
  }

  lemma TightIsClose(a: real, b: real, scale: real, span: real, top: int)
    requires top >= 1 && WithinHalf(a, b, scale) && Tight(scale, span, top)
    ensures IsClose(a, b, span, top)
  {
    if scale != 0.00001 { ScaledBound(a - b, scale, top as real, span); }
  }

  lemma ScaledBound(error: real, scale: real, qmax: real, span: real)
    requires qmax > 0.0 && -scale <= 2.0 * error <= scale && scale * qmax == span
    ensures -span <= 2.0 * error * qmax <= span
  {
    ProductOrder(2.0 * error, scale, qmax);
    ProductOrder(-scale, 2.0 * error, qmax);
    assert (-scale) * qmax == -(scale * qmax);
  }

  lemma QuantizedInRange(row: seq<real>, mode: Mode, x: real)
    requires row != [] && mode.Valid() && x in row
    ensures mode.QMin() <= Quantized(row, mode, x) <= mode.QMax()
    ensures WithinHalf(Dequantized(row, mode, Quantized(row, mode, x)), x, Scale(row, mode))
  {
    ClampedIsClose(row, mode, x);
    RecoveryError(row, mode, x, Quantized(row, mode, x));
  }

  /** Ties between two whole numbers go to the even one, and otherwise there is only one nearest. */
  lemma RoundsToEven(x: real, n: int)
    ensures x == n as real + 0.5 ==> Round(x) == if n % 2 == 0 then n else n + 1
    ensures -0.5 < x - n as real < 0.5 ==> Round(x) == n
  {
    if x == n as real + 0.5 { assert x.Floor == n; }
  }

  /** Whatever lies within half a unit of the scaled value recovers it to within half a scale. */
  lemma RecoveryError(row: seq<real>, mode: Mode, x: real, q: int)
    requires row != [] && mode.Valid() && -0.5 <= q as real - Scaled(row, mode, x) <= 0.5
    ensures WithinHalf(Dequantized(row, mode, q), x, Scale(row, mode))
  {
    RestoredError(Scale(row, mode), ZeroPoint(row, mode), q, Quotient(x, Scale(row, mode)), x);
  }

  lemma RestoredError(s: real, zp: int, q: int, y: real, x: real)
    requires s > 0.0 && y * s == x && -0.5 <= q as real - (y + zp as real) <= 0.5
    ensures WithinHalf(Restored(s, zp, q), x, s)
  {
    ProductError(s, (q - zp) as real, y, x);
  }

  lemma ProductError(s: real, k: real, y: real, x: real)
    requires s > 0.0 && y * s == x && -0.5 <= k - y <= 0.5
    ensures x - s / 2.0 <= s * k <= x + s / 2.0
  {
    ProductOrder(k, y + 0.5, s);
    ProductOrder(y - 0.5, k, s);
    assert (y + 0.5) * s == y * s + s / 2.0;
    assert (y - 0.5) * s == y * s - s / 2.0;
    assert k * s == s * k;
  }

  // ---------------------------------------------------------------- storage

  /** int8 for symmetric values, uint8 for the others. */
  predicate Stores(mode: Mode, q: int) {
    if mode.symmetric then -128 <= q <= 127 else 0 <= q <= 255
  }

  lemma {:induction false} Pow2Monotone(m: nat, n: nat)
    requires m <= n
    ensures Pow2(m) <= Pow2(n)
    decreases n
  {
    if m < n { Pow2Monotone(m, n - 1); }
  }

  lemma Pow2Eight()
    ensures Pow2(7) == 128 && Pow2(8) == 256
  {
    assert Pow2(4) == 16;
  }

  ghost predicate AlwaysStores(mode: Mode)
    requires mode.Valid()
  {
    forall row: seq<real>, x :: row != [] && x in row ==> Stores(mode, Quantized(row, mode, x))
  }

  /** Every row's values fit the stored type exactly when there are at most eight bits. */
  lemma StoresIffEightBits(mode: Mode)
    requires mode.Valid()
    ensures AlwaysStores(mode) <==> mode.bits <= 8
  {
    Pow2Eight();
    QMaxPositive(mode);
    if mode.bits <= 8 {
      Pow2Monotone(mode.bits, 8);
      Pow2Monotone(mode.bits - 1, 7);
      forall row: seq<real>, x | row != [] && x in row ensures Stores(mode, Quantized(row, mode, x)) {
        QuantizedInRange(row, mode, x);
      }
    } else {
      Pow2Monotone(8, mode.bits - 1);
      Pow2Monotone(9, mode.bits);
      LargeValue(mode);
      var top := mode.QMax() as real;
      var row := [0.0, top];
      assert top in row && !Stores(mode, Quantized(row, mode, top));
    }
  }

  lemma WholeNumber(n: int)
    ensures Round(n as real) == n
  {
    assert (n as real).Floor == n;
  }

  /** The row [0, qmax] has scale 1, and quantises its largest element to qmax. */
  lemma LargeValue(mode: Mode)
    requires mode.Valid()
    ensures Quantized([0.0, mode.QMax() as real], mode, mode.QMax() as real) == mode.QMax()
  {
    QMaxPositive(mode);
    var top := mode.QMax() as real;
    var row := [0.0, top];
    assert row[1..] == [top];
    assert RowMin(row) == 0.0 && RowMax(row) == top;
    SameProduct(Quotient(top, top), 1.0, top);
    assert Scale(row, mode) == 1.0;
    SameProduct(Quotient(0.0, 1.0), 0.0, 1.0);
    SameProduct(Quotient(top, 1.0), top, 1.0);
    WholeNumber(0);
    WholeNumber(mode.QMax());
  }
}
