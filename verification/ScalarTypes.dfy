/**
  Scalar types (scalar_type.py): the largest finite value of a float format built as the
  bits of a double, and the packed id with its registry.
 */
module ScalarTypes {
  import opened Bits

  datatype NanRepr = NoNan | Ieee754 | ExtdRangeMaxMin

  datatype ScalarType = ScalarType(exponent: nat, mantissa: nat, signed: bool, bias: int,
                                   finiteOnly: bool, nanRepr: NanRepr)

  datatype Result<T> = Ok(value: T) | Error

  // ----- What the codes of a format mean -----

  /** The format's exponent bias. */
  function Bias(t: ScalarType): nat
    requires t.exponent > 0
  {
    Pow2(t.exponent - 1) - 1
  }

  /** A code's exponent and mantissa fields fit. */
  ghost predicate IsCode(t: ScalarType, e: nat, m: nat) { e < Pow2(t.exponent) && m < Pow2(t.mantissa) }

  /** The codes that the format's NaN convention leaves for finite values.  Under IEEE 754
      the exponent of all ones is for NaNs and infinities; a format that says it has finite
      values only keeps the infinity's code for a value.  (Only the raw constructor builds an
      IEEE type of that kind, and the source does not say where its infinity's code goes.) */
  ghost predicate Finite(t: ScalarType, e: nat, m: nat) {
    && IsCode(t, e, m)
    && match t.nanRepr
       case NoNan => true
       case Ieee754 => e != Pow2(t.exponent) - 1 || (t.finiteOnly && m == 0)
       case ExtdRangeMaxMin => !(e == Pow2(t.exponent) - 1 && m == Pow2(t.mantissa) - 1)
  }

  /** Values are given in units of 2^-1074, the smallest positive double. */
  const UNIT: nat := 1074

  /** The weight of a format's last mantissa bit under exponent field e. */
  function Scale(t: ScalarType, e: nat): int
    requires t.exponent > 0
  {
    (if e == 0 then 1 else e) - Bias(t) - t.mantissa + UNIT
  }

  /** Zero exponent: subnormal, no leading one. */
  function Significand(t: ScalarType, e: nat, m: nat): nat { if e == 0 then m else Pow2(t.mantissa) + m }

  /** The value of a code. */
  function Value(t: ScalarType, e: nat, m: nat): nat
    requires t.exponent > 0 && Scale(t, e) >= 0
  {
    Significand(t, e, m) * Pow2(Scale(t, e))
  }

  /** The value of the bits of a double with sign bit clear and exponent below 2047. */
  function Double(raw: nat): nat {
    var e, m := raw / HIDDEN, raw % HIDDEN;
    if e == 0 then m else (HIDDEN + m) * Pow2(e - 1)
  }

  /** 2^52, the implicit leading bit of a double. */
  const HIDDEN: nat := 0x10_0000_0000_0000

  lemma HiddenBit()
    ensures Pow2(52) == HIDDEN && Pow2(64) == 4096 * HIDDEN
  {
    assert Pow2(13) == 8192;
    PowAdd(13, 13);
    PowAdd(26, 26);
    assert Pow2(12) == 4096;
    PowAdd(12, 52);
  }

  /** Small enough for a double, as the source asserts. */
  predicate Representable(t: ScalarType) {
    && 0 < t.exponent <= 11 && t.mantissa <= 52 && (t.nanRepr != Ieee754 ==> t.exponent < 11)
  }

  /** Every code of such a format is a whole number of units. */
  lemma ScaleIsNat(t: ScalarType, e: nat)
    requires Representable(t)
    ensures Scale(t, e) >= 0 && Bias(t) <= 1023
  {
    PowGrows(t.exponent - 1, 10);
    TenBits();
  }

  lemma TenBits()
    ensures Pow2(10) == 1024 && Pow2(11) == 2048 && Pow2(1) == 2 && Pow2(0) == 1
  {
    assert Pow2(5) == 32;
    assert Pow2(10) == 1024;
  }

  // ----- The source's maximum -----

  function MaxMantissa(t: ScalarType): int {
    Pow2(t.mantissa) - 1 - (if t.nanRepr == ExtdRangeMaxMin then 1 else 0)
  }

  function MaxExponent(t: ScalarType): int {
    Pow2(t.exponent) - 2 + (if t.nanRepr == Ieee754 then 0 else 1)
  }

  /** _floating_point_max_int; Error is a failed assertion. */
  function FloatingPointMaxInt(t: ScalarType): Result<int>
    requires t.exponent > 0
  {
    if !Representable(t) then Error
    else
      ScaleIsNat(t, 0);
      var exponentDouble := MaxExponent(t) - Bias(t) + 1023;
      Ok(if exponentDouble >= 0 then Or(MaxMantissa(t) * Pow2(52 - t.mantissa), exponentDouble * HIDDEN) else 0)
  }

  /** _floating_point_max, in units: a negative number cannot be packed into 64 bits. */
  function FloatingPointMax(t: ScalarType): Result<nat>
    requires t.exponent > 0
  {
    match FloatingPointMaxInt(t)
    case Error => Error
    case Ok(raw) => if 0 <= raw < 4096 * HIDDEN then Ok(Double(raw)) else Error
  }

  /** value is the largest over all finite codes, and one of them has it. */
  ghost predicate IsLargest(t: ScalarType, value: nat)
    requires Representable(t)
  {
    ScaleIsNat(t, 0);
    && (exists e: nat, m: nat :: Finite(t, e, m) && Scale(t, e) >= 0 && Value(t, e, m) == value)
    && (forall e: nat, m: nat :: Finite(t, e, m) && Scale(t, e) >= 0 ==> Value(t, e, m) <= value)
  }

  // ----- When the maximum is right -----

  /** The largest field values fit their codes, and the code is finite. */
  lemma MaxCode(t: ScalarType)
    requires Representable(t) && !(t.nanRepr == ExtdRangeMaxMin && t.mantissa == 0)
    ensures MaxMantissa(t) >= 0 && MaxExponent(t) >= 0 && Finite(t, MaxExponent(t), MaxMantissa(t))
    ensures MaxExponent(t) == 0 <==> t.nanRepr == Ieee754 && t.exponent == 1
  {
    PowGrows(1, t.exponent);
    TenBits();
    if t.mantissa > 0 {
      PowGrows(1, t.mantissa);
    }
    if t.exponent > 1 {
      PowGrows(2, t.exponent);
    }
  }

  /** A finite code with a smaller exponent field has the smaller value. */
  lemma SmallerExponent(t: ScalarType, e: nat, m: nat, f: nat, n: nat)
    requires Representable(t) && IsCode(t, e, m) && e < f
    ensures Scale(t, e) >= 0 && Scale(t, f) >= 0 && Value(t, e, m) < Value(t, f, n)
  {
    hide Pow2, Bias;
    ScaleIsNat(t, e);
    ScaleIsNat(t, f);
    var p, s := Pow2(t.mantissa), Pow2(Scale(t, e));
    if e == 0 {
      PowGrows(Scale(t, 0), Scale(t, f));
      Products(m, p + n, s, Pow2(Scale(t, f)));
    } else {
      PowGrows(Scale(t, e) + 1, Scale(t, f));
      PowNext(Scale(t, e));
      Products2(p, m, n, s, Pow2(Scale(t, f)));
    }
  }

  lemma PowNext(k: nat)
    ensures Pow2(k + 1) == 2 * Pow2(k)
  {
  }

  lemma Products(a: nat, b: nat, s: nat, u: nat)
    requires a < b && 0 < s <= u
    ensures a * s < b * u
  {
    assert b * u == b * s + b * (u - s);
    assert b * s == a * s + (b - a) * s;
  }

  lemma Products2(p: nat, m: nat, n: nat, s: nat, u: nat)
    requires m < p && 0 < s && 2 * s <= u
    ensures (p + m) * s < (p + n) * u
  {
    Products(p + m, 2 * (p + n), s, s);
    assert (2 * (p + n)) * s == (p + n) * (2 * s);
    assert (p + n) * u == (p + n) * (2 * s) + (p + n) * (u - 2 * s);
  }

  /** With a leading one, the code with the largest fields has the largest value. */
  lemma MaxCodeIsLargest(t: ScalarType)
    requires Representable(t) && !(t.nanRepr == ExtdRangeMaxMin && t.mantissa == 0)
    requires !(t.nanRepr == Ieee754 && t.finiteOnly)
    ensures MaxMantissa(t) >= 0 && MaxExponent(t) >= 0 && Scale(t, MaxExponent(t)) >= 0
    ensures IsLargest(t, Value(t, MaxExponent(t), MaxMantissa(t)))
  {
    hide Pow2, Bias, Value;
    MaxCode(t);
    var f, n := MaxExponent(t), MaxMantissa(t);
    ScaleIsNat(t, f);
    forall e: nat, m: nat | Finite(t, e, m) && Scale(t, e) >= 0 ensures Value(t, e, m) <= Value(t, f, n) {
      if e < f {
        SmallerExponent(t, e, m, f, n);
      } else {
        SameExponent(t, e, m);
      }
    }
  }

  lemma SameExponent(t: ScalarType, e: nat, m: nat)
    requires Representable(t) && !(t.nanRepr == Ieee754 && t.finiteOnly) && MaxMantissa(t) >= 0 &&
             MaxExponent(t) >= 0 && Finite(t, e, m) && e >= MaxExponent(t)
    ensures e == MaxExponent(t) && m <= MaxMantissa(t)
    ensures Scale(t, e) >= 0 && Value(t, e, m) <= Value(t, e, MaxMantissa(t))
  {
    hide Pow2, Bias;
    ScaleIsNat(t, e);
    if m < MaxMantissa(t) {
      Products(Significand(t, e, m), Significand(t, e, MaxMantissa(t)), Pow2(Scale(t, e)), Pow2(Scale(t, e)));
    }
  }

  /** The double built by the source is the code with the largest fields, read with a
      leading one. */
  lemma DoubleIs(t: ScalarType)
    requires Representable(t) && !(t.nanRepr == ExtdRangeMaxMin && t.mantissa == 0)
    ensures MaxMantissa(t) >= 0 && MaxExponent(t) >= 0
    ensures
      var k := MaxExponent(t) - Bias(t) - t.mantissa + UNIT;
      k >= 0 && FloatingPointMax(t) == Ok((Pow2(t.mantissa) + MaxMantissa(t)) * Pow2(k))
  {
    hide Pow2, Bias, Or, Double;
    MaxCode(t);
    ScaleIsNat(t, 0);
    ExponentRange(t);
    var f, n := MaxExponent(t), MaxMantissa(t);
    var d := f - Bias(t) + 1023;
    var low := n * Pow2(52 - t.mantissa);
    ShiftedMantissa(t, n);
    HiddenBit();
    OrApart(low, d, 52);
    OrIsBitOr(low, d * HIDDEN);
    ReadDouble(low, d);
    Regroup(t, n, d);
  }

  lemma OrIsBitOr(a: nat, b: nat)
    ensures Or(a, b) == BitOr(a, b)
  {
  }

  lemma ExponentRange(t: ScalarType)
    requires Representable(t) && MaxExponent(t) >= 0
    ensures 1 <= MaxExponent(t) - Bias(t) + 1023 < 2047
    ensures MaxExponent(t) - Bias(t) - t.mantissa + UNIT >= 0
  {
    TenBits();
    ScaleIsNat(t, 0);
    PowGrows(t.exponent, 11);
    PowNext(t.exponent - 1);
    if t.nanRepr != Ieee754 {
      PowGrows(t.exponent, 10);
    }
  }

  lemma ShiftedMantissa(t: ScalarType, n: nat)
    requires t.mantissa <= 52 && n < Pow2(t.mantissa)
    ensures n * Pow2(52 - t.mantissa) < HIDDEN
  {
    hide Pow2;
    HiddenBit();
    PowAdd(t.mantissa, 52 - t.mantissa);
    Products(n, Pow2(t.mantissa), Pow2(52 - t.mantissa), Pow2(52 - t.mantissa));
  }

  lemma ReadDouble(low: nat, d: nat)
    requires low < HIDDEN && 0 < d < 2047
    ensures low + d * HIDDEN < 4096 * HIDDEN && Double(low + d * HIDDEN) == (HIDDEN + low) * Pow2(d - 1)
  {
    Cut(low, d, HIDDEN);
  }

  lemma Regroup(t: ScalarType, n: nat, d: nat)
    requires t.mantissa <= 52 && d > 0
    ensures (HIDDEN + n * Pow2(52 - t.mantissa)) * Pow2(d - 1) == (Pow2(t.mantissa) + n) * Pow2(52 - t.mantissa + d - 1)
  {
    hide Pow2;
    HiddenBit();
    var p, q, r := Pow2(t.mantissa), Pow2(52 - t.mantissa), Pow2(d - 1);
    PowAdd(t.mantissa, 52 - t.mantissa);
    PowAdd(52 - t.mantissa, d - 1);
    Factor(p, n, q, r);
  }

  lemma Factor(p: nat, n: nat, q: nat, r: nat)
    ensures (p * q + n * q) * r == (p + n) * (q * r)
  {
    assert p * q + n * q == (p + n) * q;
    Assoc(p + n, q, r);
  }

  lemma Assoc(a: nat, b: nat, c: nat)
    ensures (a * b) * c == a * (b * c)
  {
  }

  /** The value computed is the largest finite value of the format, except for three kinds
      of format: no mantissa bits with the all-ones NaN, where the mantissa goes negative and
      packing fails; IEEE with a single exponent bit, where the subnormal maximum is read
      with a leading one; and IEEE with finite values only, which only the raw constructor
      builds, where the infinity's code is missed.  Where other formats would put infinities
      is not defined, so they are taken to be finite-only. */
  lemma MaxIsLargestIff(t: ScalarType)
    requires 0 < t.exponent <= 11 && t.mantissa <= 52 && (t.nanRepr == Ieee754 || (t.finiteOnly && t.exponent < 11))
    ensures Representable(t)
    ensures FloatingPointMax(t).Ok? && IsLargest(t, FloatingPointMax(t).value) <==>
            && !(t.nanRepr == ExtdRangeMaxMin && t.mantissa == 0)
            && !(t.nanRepr == Ieee754 && (t.exponent == 1 || t.finiteOnly))
  {
    hide Pow2, Bias, FloatingPointMax, IsLargest;
    if t.nanRepr == ExtdRangeMaxMin && t.mantissa == 0 {
      NegativeMantissa(t);
    } else {
      DoubleIs(t);
      MaxCode(t);
      if t.nanRepr == Ieee754 && t.finiteOnly {
        InfinityMissed(t);
      } else {
        MaxCodeIsLargest(t);
        if t.nanRepr == Ieee754 && t.exponent == 1 {
          SubnormalMaximum(t);
        }
      }
    }
  }

  /** The source refuses exactly the formats that are too wide for a double. */
  lemma TooWideIff(t: ScalarType)
    requires t.exponent > 0
    ensures FloatingPointMaxInt(t).Error? <==>
            t.mantissa > 52 || t.exponent > 11 || (t.exponent == 11 && t.nanRepr != Ieee754)
  {
  }

  /** The exponent field in the middle, with an empty mantissa, means one. */
  lemma OneIsOne(t: ScalarType)
    requires Representable(t) && t.exponent > 1
    ensures
      var middle := Pow2(t.exponent - 1) - 1;
      middle > 0 && Scale(t, middle) >= 0 && Value(t, middle, 0) == Pow2(UNIT)
  {
    PowGrows(1, t.exponent - 1);
    TenBits();
    PowAdd(t.mantissa, UNIT - t.mantissa);
  }

  /** The maxima of the formats that are shipped, in units: 448, 57344, 65504, 28, 7.5 and 6. */
  lemma ShippedMaxima()
    ensures FloatingPointMax(ScalarType(4, 3, true, 0, true, ExtdRangeMaxMin)) == Ok(448 * Pow2(UNIT))
    ensures FloatingPointMax(ScalarType(5, 2, true, 0, false, Ieee754)) == Ok(57344 * Pow2(UNIT))
    ensures FloatingPointMax(ScalarType(5, 10, true, 0, false, Ieee754)) == Ok(65504 * Pow2(UNIT))
    ensures FloatingPointMax(ScalarType(3, 2, true, 0, true, NoNan)) == Ok(28 * Pow2(UNIT))
    ensures FloatingPointMax(ScalarType(2, 3, true, 0, true, NoNan)) == Ok(15 * Pow2(UNIT - 1))
    ensures FloatingPointMax(ScalarType(2, 1, true, 0, true, NoNan)) == Ok(6 * Pow2(UNIT))
  {
    hide FloatingPointMax;
    Shipped(ScalarType(4, 3, true, 0, true, ExtdRangeMaxMin), 14, 5);
    Shipped(ScalarType(5, 2, true, 0, false, Ieee754), 7, 13);
    Shipped(ScalarType(5, 10, true, 0, false, Ieee754), 2047, 5);
    Shipped(ScalarType(3, 2, true, 0, true, NoNan), 7, 2);
    Shipped(ScalarType(2, 3, true, 0, true, NoNan), 15, -1);
    Shipped(ScalarType(2, 1, true, 0, true, NoNan), 3, 1);
    Doublings();
  }

  lemma Doublings()
    ensures Pow2(UNIT + 13) == 8192 * Pow2(UNIT) && Pow2(UNIT + 5) == 32 * Pow2(UNIT)
    ensures Pow2(UNIT + 2) == 4 * Pow2(UNIT) && Pow2(UNIT + 1) == 2 * Pow2(UNIT)
  {
    assert Pow2(13) == 8192 && Pow2(5) == 32 && Pow2(2) == 4 && Pow2(1) == 2;
    PowAdd(UNIT, 13);
    PowAdd(UNIT, 5);
    PowAdd(UNIT, 2);
    PowAdd(UNIT, 1);
  }

  lemma Shipped(t: ScalarType, significand: nat, shift: int)
    requires Representable(t) && !(t.nanRepr == ExtdRangeMaxMin && t.mantissa == 0) && -2 < shift
    requires Pow2(t.mantissa) + MaxMantissa(t) == significand && MaxExponent(t) - Bias(t) - t.mantissa == shift
    ensures FloatingPointMax(t) == Ok(significand * Pow2(UNIT + shift))
  {
    hide FloatingPointMax, Pow2, Bias;
    DoubleIs(t);
  }

  /** With finite values only, the code after the largest one used is a value, and larger. */
  lemma InfinityMissed(t: ScalarType)
    requires Representable(t) && t.nanRepr == Ieee754 && t.finiteOnly
    requires
      var k := MaxExponent(t) - Bias(t) - t.mantissa + UNIT;
      k >= 0 && FloatingPointMax(t) == Ok((Pow2(t.mantissa) + MaxMantissa(t)) * Pow2(k))
    ensures !IsLargest(t, FloatingPointMax(t).value)
  {
    hide Pow2, Bias, FloatingPointMax;
    TenBits();
    PowGrows(1, t.exponent);
    ScaleIsNat(t, 0);
    var e := Pow2(t.exponent) - 1;
    var (k, p) := (MaxExponent(t) - Bias(t) - t.mantissa + UNIT, Pow2(t.mantissa));
    assert Finite(t, e, 0) && Scale(t, e) == k + 1;
    PowNext(k);
    Twice(p, Pow2(k));
  }

  lemma Twice(p: nat, s: nat)
    requires p > 0 && s > 0
    ensures p * (2 * s) > (p + (p - 1)) * s
  {
    assert p * (2 * s) == (2 * p) * s;
    Products(2 * p - 1, 2 * p, s, s);
  }

  lemma NegativeMantissa(t: ScalarType)
    requires Representable(t) && t.nanRepr == ExtdRangeMaxMin && t.mantissa == 0
    ensures FloatingPointMax(t) == Error
  {
    hide Bias, BitAndNot, BitOr, Pow2;
    TenBits();
    PowGrows(0, t.exponent);
    ScaleIsNat(t, 0);
    ExponentRange(t);
    HiddenBit();
    AndNotApart(HIDDEN - 1, MaxExponent(t) - Bias(t) + 1023, 52);
  }

  lemma SubnormalMaximum(t: ScalarType)
    requires Representable(t) && t.nanRepr == Ieee754 && t.exponent == 1 && !t.finiteOnly
    requires
      var k := 0 - Bias(t) - t.mantissa + UNIT;
      k >= 0 && FloatingPointMax(t) == Ok((Pow2(t.mantissa) + MaxMantissa(t)) * Pow2(k))
    ensures !IsLargest(t, FloatingPointMax(t).value)
  {
    hide FloatingPointMax;
    TenBits();
    var k, p := 0 - Bias(t) - t.mantissa + UNIT, Pow2(t.mantissa);
    forall e: nat, m: nat | Finite(t, e, m) && Scale(t, e) >= 0 ensures Value(t, e, m) < FloatingPointMax(t).value {
      assert e == 0 && Scale(t, e) == k + 1;
      PowNext(k);
      Halves(m, p, Pow2(k));
    }
  }

  lemma Halves(m: nat, p: nat, s: nat)
    requires m < p && s > 0
    ensures m * (2 * s) < (p + (p - 1)) * s
  {
    assert m * (2 * s) == (2 * m) * s;
    Products(2 * m, p + (p - 1), s, s);
  }

  /** float8_e8m0fnu has no maximum in this code. */
  lemma E8m0Fails()
    ensures FloatingPointMax(ScalarType(8, 0, false, 0, true, ExtdRangeMaxMin)) == Error
  {
    NegativeMantissa(ScalarType(8, 0, false, 0, true, ExtdRangeMaxMin));
  }

  // ----- The minimum -----

  /** The value of 64 bits as a double, in units, with the sign. */
  function SignedDouble(raw: nat): int {
    if raw >= 2048 * HIDDEN then -(Double(raw - 2048 * HIDDEN) as int) else Double(raw)
  }

  /** _raw_min for floats: the sign bit set on the maximum; unsigned floats are refused. */
  function FloatingPointMin(t: ScalarType): Result<int>
    requires t.exponent > 0
  {
    if !t.signed then Error
    else
      match FloatingPointMaxInt(t)
      case Error => Error
      case Ok(raw) =>
        var min := Or(raw, 2048 * HIDDEN);
        if 0 <= min < 4096 * HIDDEN then Ok(SignedDouble(min)) else Error
  }

  lemma MinNegatesMax(t: ScalarType)
    requires t.exponent > 0 && t.signed
    ensures FloatingPointMax(t).Ok? <==> FloatingPointMin(t).Ok?
    ensures FloatingPointMax(t).Ok? ==> FloatingPointMin(t).value == -(FloatingPointMax(t).value as int)
  {
    if Representable(t) {
      hide FloatingPointMax, FloatingPointMin;
      if t.nanRepr == ExtdRangeMaxMin && t.mantissa == 0 {
        NegativeMin(t);
      } else {
        SignBit(t);
      }
    }
  }

  /** The bits of the maximum leave the sign bit clear. */
  lemma MaxRaw(t: ScalarType)
    requires Representable(t) && !(t.nanRepr == ExtdRangeMaxMin && t.mantissa == 0)
    ensures FloatingPointMaxInt(t).Ok? && 0 <= FloatingPointMaxInt(t).value < 2048 * HIDDEN
  {
    hide Pow2, Bias, Or;
    MaxCode(t);
    ScaleIsNat(t, 0);
    ExponentRange(t);
    var d := MaxExponent(t) - Bias(t) + 1023;
    var low := MaxMantissa(t) * Pow2(52 - t.mantissa);
    ShiftedMantissa(t, MaxMantissa(t));
    HiddenBit();
    OrApart(low, d, 52);
    OrIsBitOr(low, d * HIDDEN);
    Spread(d, 2048, HIDDEN);
  }

  lemma SignBit(t: ScalarType)
    requires Representable(t) && !(t.nanRepr == ExtdRangeMaxMin && t.mantissa == 0) && t.signed
    ensures FloatingPointMax(t).Ok? && FloatingPointMin(t) == Ok(-(FloatingPointMax(t).value as int))
  {
    hide FloatingPointMaxInt, Or, Double, Pow2;
    MaxRaw(t);
    TopBit();
    OrApart(FloatingPointMaxInt(t).value, 1, 63);
    OrIsBitOr(FloatingPointMaxInt(t).value, 2048 * HIDDEN);
  }

  lemma TopBit()
    ensures Pow2(63) == 2048 * HIDDEN
  {
    HiddenBit();
    TenBits();
    PowAdd(11, 52);
  }

  lemma NegativeMin(t: ScalarType)
    requires Representable(t) && t.nanRepr == ExtdRangeMaxMin && t.mantissa == 0 && t.signed
    ensures FloatingPointMax(t) == Error && FloatingPointMin(t) == Error
  {
    hide Bias, BitAndNot, BitOr, Pow2;
    TenBits();
    PowGrows(0, t.exponent);
    ScaleIsNat(t, 0);
    ExponentRange(t);
    HiddenBit();
    AndNotApart(HIDDEN - 1, MaxExponent(t) - Bias(t) + 1023, 52);
    AndNotApart(HIDDEN - 1, 2048, 52);
  }

  // ----- Packed ids -----

  /** Eight-bit widths and a signed 32-bit bias. */
  ghost predicate InRange(t: ScalarType) {
    t.exponent < 256 && t.mantissa < 256 && -0x8000_0000 <= t.bias < 0x8000_0000
  }

  function Flag(b: bool): nat { if b then 1 else 0 }

  function Code(n: NanRepr): nat { match n case NoNan => 0 case Ieee754 => 1 case ExtdRangeMaxMin => 2 }

  /** A low part below a base, and a high part on top of it. */
  function Put(low: nat, base: nat, high: nat): nat { low + base * high }

  function Low(x: nat, base: nat): nat requires base > 0 { x % base }

  function High(x: nat, base: nat): nat requires base > 0 { x / base }

  lemma LowHigh(low: nat, base: nat, high: nat)
    requires low < base
    ensures Low(Put(low, base, high), base) == low && High(Put(low, base, high), base) == high
  {
    Cut(low, high, base);
  }

  /** The fields cut to their widths (8, 8, 1, 32, 1 and 8 bits), lowest first. */
  function PackedId(t: ScalarType): nat {
    Put(t.exponent % 0x100, 0x100, Put(t.mantissa % 0x100, 0x100, Put(Flag(t.signed), 2,
      Put(t.bias % 0x1_0000_0000, 0x1_0000_0000, Put(Flag(t.finiteOnly), 2, Code(t.nanRepr))))))
  }

  /** The fields read back, lowest first, the bias as a signed number. */
  function Unpack(id: nat): ScalarType {
    var a := High(id, 0x100);
    var b := High(a, 0x100);
    var c := High(b, 2);
    var d := High(c, 0x1_0000_0000);
    var nan := High(d, 2);
    ScalarType(Low(id, 0x100), Low(a, 0x100), Low(b, 2) == 1, Signed(Low(c, 0x1_0000_0000)), Low(d, 2) == 1,
               if nan == 0 then NoNan else if nan == 1 then Ieee754 else ExtdRangeMaxMin)
  }

  function Signed(x: nat): int { if x < 0x8000_0000 then x else x - 0x1_0000_0000 }

  lemma SignedAgain(x: int)
    requires -0x8000_0000 <= x < 0x8000_0000
    ensures Signed(x % 0x1_0000_0000) == x
  {
  }

  /** Unpacking undoes packing, so ids are one-to-one. */
  lemma UnpackPacked(t: ScalarType)
    requires InRange(t)
    ensures Unpack(PackedId(t)) == t
  {
    hide Put, Low, High, Signed;
    SignedAgain(t.bias);
    var e := Put(Flag(t.finiteOnly), 2, Code(t.nanRepr));
    var d := Put(t.bias % 0x1_0000_0000, 0x1_0000_0000, e);
    var c := Put(Flag(t.signed), 2, d);
    var b := Put(t.mantissa, 0x100, c);
    LowHigh(t.exponent, 0x100, b);
    LowHigh(t.mantissa, 0x100, c);
    LowHigh(Flag(t.signed), 2, d);
    LowHigh(t.bias % 0x1_0000_0000, 0x1_0000_0000, e);
    LowHigh(Flag(t.finiteOnly), 2, Code(t.nanRepr));
  }

  lemma IdsAreOneToOne(t: ScalarType, u: ScalarType)
    requires InRange(t) && InRange(u) && PackedId(t) == PackedId(u)
    ensures t == u
  {
    hide PackedId, Unpack, InRange;
    UnpackPacked(t);
    UnpackPacked(u);
  }

  /** Where each field stands, and the numbers of the three NaN conventions. */
  lemma PackedIdIs(t: ScalarType)
    requires InRange(t)
    ensures PackedId(t) ==
            t.exponent + t.mantissa * 0x100 + (if t.signed then 0x1_0000 else 0)
            + (if t.bias >= 0 then t.bias else t.bias + 0x1_0000_0000) * 0x2_0000
            + (if t.finiteOnly then 0x2_0000_0000_0000 else 0)
            + (match t.nanRepr case NoNan => 0 case Ieee754 => 1 case ExtdRangeMaxMin => 2) * 0x4_0000_0000_0000
  {
    Gathered(t.exponent, t.mantissa, Flag(t.signed), t.bias % 0x1_0000_0000, Flag(t.finiteOnly), Code(t.nanRepr));
  }

  /** Fields out of range are cut off, and the id then names another type. */
  lemma WideFieldsCollide()
    ensures
      var t, u := ScalarType(0, 7, true, 0, false, Ieee754), ScalarType(256, 7, true, 0, false, Ieee754);
      t != u && PackedId(t) == PackedId(u) && InRange(t) && !InRange(u)
  {
  }

  /** One step of the packing: or the masked member in at the offset, and advance. */
  method OrAndAdvance(val: nat, offset: nat, member: int, width: nat) returns (val': nat, offset': nat)
    requires val < Pow2(offset)
    ensures val' == val + (member % Pow2(width)) * Pow2(offset) && offset' == offset + width
    ensures val' < Pow2(offset')
  {
    var masked := member % Pow2(width);
    OrApart(val, masked, offset);
    PowAdd(width, offset);
    Spread(masked, Pow2(width), Pow2(offset));
    val' := BitOr(val, masked * Pow2(offset));
    offset' := offset + width;
  }

  /** The six steps give the packed id. */
  method ComputeId(t: ScalarType) returns (id: nat)
    ensures id == PackedId(t) && id < Pow2(58)
  {
    hide Pow2, Put;
    Widths();
    var offset := 0;
    id := 0;
    id, offset := OrAndAdvance(id, offset, t.exponent, 8);
    id, offset := OrAndAdvance(id, offset, t.mantissa, 8);
    id, offset := OrAndAdvance(id, offset, Flag(t.signed), 1);
    id, offset := OrAndAdvance(id, offset, t.bias, 32);
    id, offset := OrAndAdvance(id, offset, Flag(t.finiteOnly), 1);
    id, offset := OrAndAdvance(id, offset, Code(t.nanRepr), 8);
    assert offset <= 64;
    Gathered(t.exponent % 0x100, t.mantissa % 0x100, Flag(t.signed), t.bias % 0x1_0000_0000, Flag(t.finiteOnly),
        Code(t.nanRepr));
  }

  /** Nested places are the sum of the shifted fields. */
  lemma Gathered(a: nat, b: nat, c: nat, d: nat, e: nat, f: nat)
    ensures Put(a, 0x100, Put(b, 0x100, Put(c, 2, Put(d, 0x1_0000_0000, Put(e, 2, f))))) ==
            a + b * 0x100 + c * 0x1_0000 + d * 0x2_0000 + e * 0x2_0000_0000_0000 + f * 0x4_0000_0000_0000
  {
  }

  lemma Widths()
    ensures Pow2(0) == 1 && Pow2(1) == 2 && Pow2(8) == 0x100 && Pow2(16) == 0x1_0000 && Pow2(17) == 0x2_0000
    ensures Pow2(32) == 0x1_0000_0000 && Pow2(49) == 0x2_0000_0000_0000 && Pow2(50) == 0x4_0000_0000_0000
  {
    assert Pow2(8) == 256;
    PowAdd(8, 8);
    PowAdd(16, 1);
    PowAdd(16, 16);
    PowAdd(32, 17);
    PowAdd(49, 1);
  }

  // ----- The registry -----

  /** _SCALAR_TYPES_ID_MAP: computing an id registers the type under it. */
  class Registry {
    var types: map<nat, ScalarType>

    /** Every key is the id of its type. */
    ghost predicate Valid()
      reads this
    {
      forall id :: id in types ==> InRange(types[id]) && PackedId(types[id]) == id
    }

    constructor ()
      ensures Valid() && types == map[]
    {
      types := map[];
    }

    /** Registering never replaces a different type. */
    method Register(t: ScalarType) returns (id: nat)
      requires Valid() && InRange(t)
      modifies this
      ensures Valid() && id == PackedId(t) && types == old(types)[id := t]
      ensures forall k :: k in old(types) ==> k in types && types[k] == old(types)[k]
    {
      hide PackedId;
      id := ComputeId(t);
      if id in types {
        IdsAreOneToOne(types[id], t);
      }
      types := types[id := t];
    }

    /** from_id: Error is the ValueError for an id nobody registered. */
    method FromId(id: nat) returns (r: Result<ScalarType>)
      requires Valid()
      ensures r.Ok? <==> id in types
      ensures r.Ok? ==> r.value == types[id] && PackedId(r.value) == id && r.value == Unpack(id)
    {
      hide PackedId, Unpack;
      if id !in types {
        return Error;
      }
      UnpackPacked(types[id]);
      return Ok(types[id]);
    }

    /** Any run of registrations: each type registered is found again under its id. */
    method RegisterAll(ts: seq<ScalarType>) returns (ids: seq<nat>)
      requires Valid() && forall k :: 0 <= k < |ts| ==> InRange(ts[k])
      modifies this
      ensures Valid() && |ids| == |ts|
      ensures forall k :: 0 <= k < |ts| ==> ids[k] in types && types[ids[k]] == ts[k]
      ensures forall k :: k in old(types) ==> k in types && types[k] == old(types)[k]
    {
      hide PackedId, InRange;
      ids := [];
      for i := 0 to |ts|
        invariant Valid() && |ids| == i
        invariant forall k :: 0 <= k < i ==> ids[k] in types && types[ids[k]] == ts[k]
        invariant forall k :: k in old(types) ==> k in types && types[k] == old(types)[k]
      {
        var id := Register(ts[i]);
        ids := ids + [id];
      }
    }
  }
}
