/** Whether the join of two types is the narrowest that holds every value of both, by the values types hold:
    exactly when it is, for types that nest no others. */
module Narrowest {
  import opened Wrappers
  import opened Common
  import opened Lattice
  import opened Values

  ghost predicate HoldsAll(t: Type, a: Type) {
    forall v :: Holds(a, v) ==> Holds(t, v)
  }

  /** Whether whatever holds every value of two types holds every value of a third. */
  ghost predicate IsLeast(a: Type, b: Type, j: Type) {
    forall t :: HoldsAll(t, a) && HoldsAll(t, b) ==> HoldsAll(t, j)
  }

  /** Whether the join of two types is the narrowest that holds every value of both. */
  ghost predicate IsNarrowest(a: Type, b: Type) { IsLeast(a, b, Join(a, b)) }

  /** A whole decimal and an integer type of more digits; a float of four bytes and an integer of one or two; or
      a whole decimal of at most fifteen digits and a float. */
  predicate IsLoose(a: Type, b: Type) {
    || (IsInt(a) && b.Decimal? && b.digits.scale == 0 && b.digits.precision < IntegerDigits(a).value)
    || ((a.Int8? || a.Int16?) && b.Float32?)
    || (a.Decimal? && a.digits.scale == 0 && a.digits.precision <= 15 && IsFloat(b))
  }

  // ----- What types do not hold -----

  lemma NoZero(x: int, c: int)
    requires x != 0 && c > 0
    ensures x * c != 0
  {
    if x > 0 {
      assert x * c > 0;
    } else {
      assert x * c < 0;
    }
  }

  lemma ProductsApart(a: int, b: int, c: int)
    requires a != b && c > 0
    ensures a * c != b * c
  {
    NoZero(a - b, c);
  }

  lemma Positive(base: nat, n: nat)
    requires base > 0
    ensures Power(base, n) > 0
  {
    PowersRise(base, 0, n);
  }

  /** No float holds an odd number of more bits than its significand. */
  lemma OddIsNoFloat(half: nat, f: Float)
    requires 2 * half + 1 >= Power(2, f.bits)
    ensures !IsFloatOf((2 * half + 1) as real, f)
  {
    var x := (2 * half + 1) as real;
    forall m: int, k: nat ensures !(IsShifted(x, m, k, f.low) && IsBelow(m, Power(2, f.bits))) {
      OddIsNotShifted(half, m, k, f.low, Power(2, f.bits));
    }
  }

  lemma OddIsNotShifted(half: nat, m: int, k: nat, low: nat, bound: int)
    requires bound <= 2 * half + 1
    ensures !(IsShifted((2 * half + 1) as real, m, k, low) && IsBelow(m, bound))
  {
    IntegerTimes(2 * half + 1, Power(2, low), m * Power(2, k));
    if k <= low {
      ShiftedUp(2 * half + 1, m, k, low);
    } else {
      ShiftedDown(half, m, k, low);
    }
  }

  lemma ShiftedUp(n: nat, m: int, k: nat, low: nat)
    requires k <= low
    ensures m < n ==> n * Power(2, low) != m * Power(2, k)
  {
    var p, q := Power(2, low - k), Power(2, k);
    PowersMultiply(2, low - k, k);
    Regroup(n, p, q);
    Positive(2, k);
    Positive(2, low - k);
    Grows(p, n);
    if m < n {
      ProductsApart(n * p, m, q);
    }
  }

  lemma ShiftedDown(half: nat, m: int, k: nat, low: nat)
    requires k > low
    ensures (2 * half + 1) * Power(2, low) != m * Power(2, k)
  {
    var p, q := Power(2, k - low), Power(2, low);
    PowersMultiply(2, k - low, low);
    Regroup(m, p, q);
    Positive(2, low);
    Even(m, Power(2, k - low - 1));
    ProductsApart(2 * half + 1, m * p, q);
  }

  lemma Even(m: int, p: int)
    ensures m * (2 * p) % 2 == 0
  {
    assert m * (2 * p) == 2 * (m * p);
  }

  lemma {:induction false} NoFiveInTwos(n: nat)
    ensures Power(2, n) % 5 != 0
  {
    if n > 0 {
      NoFiveInTwos(n - 1);
    }
  }

  lemma Inverse(p: real)
    requires p > 0.0
    ensures 1.0 / p * p == 1.0
  {
  }

  /** One in the last of so many places past the point. */
  function Least(scale: nat): (x: real)
    ensures IsTimes(x, Power(10, scale), 1)
  {
    Positive(10, scale);
    Over(Power(10, scale))
  }

  function Over(p: int): (x: real)
    requires p > 0
    ensures IsTimes(x, p, 1)
  {
    Inverse(p as real);
    1.0 / p as real
  }

  lemma Unscaled(x: real, a: int, c: int, p: int)
    requires IsTimes(x, p, 1) && a != c * p
    ensures !IsTimes(x, a, c)
  {
    CastTimes(c, p);
    assert x * a as real * p as real == x * p as real * a as real;
  }

  /** No float holds a fraction of ten. */
  lemma TenthIsNoFloat(scale: nat, f: Float)
    requires scale > 0
    ensures !IsFloatOf(Least(scale), f)
  {
    var x := Least(scale);
    forall m: int, k: nat ensures !IsShifted(x, m, k, f.low) {
      TenthIsNotShifted(scale, m, k, f.low);
    }
  }

  lemma TenthIsNotShifted(scale: nat, m: int, k: nat, low: nat)
    requires scale > 0
    ensures !IsShifted(Least(scale), m, k, low)
  {
    var a, c, p := Power(2, low), m * Power(2, k), Power(10, scale);
    NoFiveInTwos(low);
    Fives(c, Power(10, scale - 1));
    Unscaled(Least(scale), a, c, p);
  }

  lemma Fives(a: int, p: int)
    ensures a * (10 * p) % 5 == 0 && a * (10 * p) % 10 == 0
  {
    assert a * (10 * p) == 10 * (a * p);
  }

  lemma TenthIsNoInteger(scale: nat, bound: int)
    requires scale > 0
    ensures !IsIntegerWithin(Least(scale), bound)
  {
    var x := Least(scale);
    forall n: int ensures !IsWorth(x, n) {
      Fives(n, Power(10, scale - 1));
      Unscaled(x, 1, n, Power(10, scale));
      assert IsWorth(x, n) ==> IsTimes(x, 1, n);
    }
  }

  // ----- What a decimal that holds others has -----

  lemma PowersReflect(a: nat, b: nat)
    requires Power(10, a) < Power(10, b)
    ensures a < b
  {
    if b <= a {
      PowersRise(10, b, a);
    }
  }

  /** A decimal that holds a power of ten has the digits for it. */
  lemma WholePower(e: nat, precision: nat, scale: nat)
    requires IsDecimalOf(Power(10, e) as real, precision, scale)
    ensures e + scale < precision
  {
    var n: int :| IsScaled(Power(10, e) as real, n, scale) && IsBelow(n, Power(10, precision));
    PowerScaled(e, scale, n);
    PowersReflect(e + scale, precision);
  }

  lemma PowerScaled(e: nat, scale: nat, n: int)
    ensures IsScaled(Power(10, e) as real, n, scale) <==> n == Power(10, e + scale)
  {
    PowersMultiply(10, e, scale);
    IntegerTimes(Power(10, e), Power(10, scale), n);
  }

  lemma NotTheLast(s: nat, scale: nat, n: int)
    requires scale < s
    ensures !IsScaled(Least(s), n, scale)
  {
    var p, q := Power(10, s - scale), Power(10, scale);
    PowersMultiply(10, s - scale, scale);
    Regroup(n, p, q);
    Positive(10, scale);
    Fives(n, Power(10, s - scale - 1));
    ProductsApart(1, n * p, q);
    Unscaled(Least(s), q, n, Power(10, s));
  }

  /** A decimal that holds one in the last place has that place. */
  lemma LastPlace(s: nat, precision: nat, scale: nat)
    requires IsDecimalOf(Least(s), precision, scale)
    ensures s <= scale
  {
    var n: int :| IsScaled(Least(s), n, scale) && IsBelow(n, Power(10, precision));
    if scale < s {
      NotTheLast(s, scale, n);
    }
  }

  lemma LeastIsHeld(d: DecimalType)
    ensures Holds(Decimal(d), Value.Number(Least(d.scale)))
  {
    PowersRise(10, 1, d.precision);
    assert Power(10, 1) == 10;
    assert IsScaled(Least(d.scale), 1, d.scale) && IsBelow(1, Power(10, d.precision));
  }

  lemma PowerIsHeld(d: DecimalType, e: nat)
    requires e + d.scale < d.precision
    ensures Holds(Decimal(d), Value.Number(Power(10, e) as real))
  {
    var n := Power(10, e + d.scale);
    PowerScaled(e, d.scale, n);
    Positive(10, e + d.scale);
    PowersRise(10, e + d.scale + 1, d.precision);
    assert IsScaled(Power(10, e) as real, n, d.scale) && IsBelow(n, Power(10, d.precision));
  }

  /** A decimal that holds every value of another has as many digits on either side of the point. */
  lemma DecimalHoldsDecimal(t: DecimalType, d: DecimalType)
    requires HoldsAll(Decimal(t), Decimal(d))
    ensures d.scale <= t.scale && d.precision - d.scale <= t.precision - t.scale
  {
    LeastIsHeld(d);
    assert Holds(Decimal(t), Value.Number(Least(d.scale)));
    LastPlace(d.scale, t.precision, t.scale);
    if d.scale < d.precision {
      var e := d.precision - d.scale - 1;
      PowerIsHeld(d, e);
      assert Holds(Decimal(t), Value.Number(Power(10, e) as real));
      WholePower(e, t.precision, t.scale);
    }
  }

  lemma DigitsReached(a: Type)
    requires IsInt(a)
    ensures 0 < Power(10, IntegerDigits(a).value - 1) < IntegerBound(a)
  {
    match a
    case Int8 => assert Power(10, 2) == 100;
    case Int16 => assert Power(10, 4) == 10_000;
    case Int32 => assert Power(10, 9) == 1_000_000_000;
    case Int64 => assert Power(10, 18) == 1_000_000_000_000_000_000;
  }

  lemma DecimalHoldsInteger(t: DecimalType, a: Type)
    requires IsInt(a) && HoldsAll(Decimal(t), a)
    ensures IntegerDigits(a).value <= t.precision - t.scale
  {
    var e := IntegerDigits(a).value - 1;
    DigitsReached(a);
    assert IsWorth(Power(10, e) as real, Power(10, e));
    assert Holds(a, Value.Number(Power(10, e) as real));
    assert Holds(Decimal(t), Value.Number(Power(10, e) as real));
    WholePower(e, t.precision, t.scale);
  }

  /** A decimal that has the digits of another holds every value of it. */
  lemma DecimalHoldsJoin(t: DecimalType, whole: nat, scale: nat)
    requires whole + scale > 0 && whole <= t.precision - t.scale && scale <= t.scale
    ensures HoldsAll(Decimal(t), DecimalOf(whole, scale))
  {
    forall v | Holds(DecimalOf(whole, scale), v) ensures Holds(Decimal(t), v) {
      DecimalsWiden(v.worth, whole + scale, scale, t.precision, t.scale);
    }
  }

  // ----- What holds what -----

  function KindOf(v: Value): nat {
    match v
    case Truth(_) => 0
    case Number(_) => 1
    case Unbounded(_) => 1
    case Text(_) => 2
    case Bytes(_) => 3
    case Uuid(_) => 4
    case Moment(_) => 5
    case OfDay(_) => 6
    case Span(_) => 7
    case Record(_) => 8
    case Items(_) => 9
  }

  lemma OneKind(t: Type, v: Value, u: Value)
    requires !t.Json? && Holds(t, v) && Holds(t, u)
    ensures KindOf(v) == KindOf(u)
  {
  }

  /** A value of a type. */
  function Sample(a: Type): Value
    requires IsFlat(a) && !a.Null? && !a.Json?
  {
    match a
    case Bool => Truth(true)
    case Utf8 => Text("")
    case Binary => Bytes([])
    case Uuid => Value.Uuid(0)
    case Date => Moment(0)
    case Timestamp(_, _) => Moment(0)
    case Time(_) => Value.OfDay(0)
    case Duration(_) => Span(0)
    case _ => Value.Number(0.0)
  }

  lemma SampleIsHeld(a: Type)
    requires IsFlat(a) && !a.Null? && !a.Json?
    ensures Holds(a, Sample(a))
  {
    if IsInt(a) {
      assert IsWorth(0.0, 0);
    } else if IsFloat(a) {
      Positive(2, FloatOf(a).bits);
      assert IsShifted(0.0, 0, 0, FloatOf(a).low) && IsBelow(0, Power(2, FloatOf(a).bits));
    } else if a.Decimal? {
      Positive(10, a.digits.precision);
      assert IsScaled(0.0, 0, a.digits.scale) && IsBelow(0, Power(10, a.digits.precision));
    }
  }

  /** Whatever holds the values of two types of different kinds is JSON. */
  lemma OnlyJsonHoldsBoth(a: Type, b: Type)
    requires IsFlat(a) && !a.Null? && !a.Json? && IsFlat(b) && !b.Null? && !b.Json?
    requires KindOf(Sample(a)) != KindOf(Sample(b))
    ensures IsNarrowest(a, b)
  {
    var v, u, j := Sample(a), Sample(b), Join(a, b);
    SampleIsHeld(a);
    SampleIsHeld(b);
    JsonHoldsAll(j);
    forall t | HoldsAll(t, a) && HoldsAll(t, b) ensures HoldsAll(t, j) {
      assert Holds(t, v) && Holds(t, u);
      KindsMakeJson(t, v, u);
    }
  }

  lemma JsonHoldsAll(a: Type)
    ensures HoldsAll(Json, a)
  {
  }

  lemma KindsMakeJson(t: Type, v: Value, u: Value)
    requires Holds(t, v) && Holds(t, u) && KindOf(v) != KindOf(u)
    ensures t == Json
  {
    if !t.Json? {
      OneKind(t, v, u);
    }
  }

  lemma EitherIsNarrowest(a: Type, b: Type)
    requires Join(a, b) == a || Join(a, b) == b
    ensures IsNarrowest(a, b)
  {
  }

  lemma Swapped(a: Type, b: Type)
    ensures IsNarrowest(a, b) <==> IsNarrowest(b, a)
  {
    JoinCommutes(a, b);
  }

  lemma NotLeast(a: Type, b: Type, j: Type, t: Type, v: Value)
    requires HoldsAll(t, a) && HoldsAll(t, b) && Holds(j, v) && !Holds(t, v)
    ensures !IsLeast(a, b, j)
  {
  }

  lemma HoldsNumbers(t: Type, a: Type)
    requires FamilyOf(a) == Family.Number && HoldsAll(t, a)
    ensures t.Json? || FamilyOf(t) == Family.Number
  {
    SampleIsHeld(a);
    assert Holds(t, Sample(a));
  }

  lemma HoldsFloats(t: Type, b: Type)
    requires IsFloat(b) && HoldsAll(t, b)
    ensures t.Json? || IsFloat(t)
  {
    assert Holds(b, Unbounded(0));
    assert Holds(t, Unbounded(0));
  }

  // ----- Floats -----

  lemma TwosAre()
    ensures Power(2, 24) == 0x100_0000 && Power(2, 53) == 0x20_0000_0000_0000
  {
    assert Power(2, 5) == 32 && Power(2, 8) == 256;
    PowersMultiply(2, 8, 8);
    PowersMultiply(2, 8, 16);
    PowersMultiply(2, 5, 16);
    PowersMultiply(2, 16, 16);
    PowersMultiply(2, 21, 32);
  }

  const PAST_SINGLE: int := 0x100_0001
  const PAST_DOUBLE: int := 0x20_0000_0000_0001

  lemma PastSingle()
    ensures !Holds(Float32, Value.Number(PAST_SINGLE as real))
  {
    TwosAre();
    OddIsNoFloat(0x80_0000, FloatOf(Float32));
  }

  lemma PastDouble(t: Type)
    requires IsFloat(t)
    ensures !Holds(t, Value.Number(PAST_DOUBLE as real))
  {
    TwosAre();
    OddIsNoFloat(0x10_0000_0000_0000, FloatOf(t));
  }

  lemma IntegerIsHeld(a: Type, n: int)
    requires IsInt(a) && -IntegerBound(a) <= n < IntegerBound(a)
    ensures Holds(a, Value.Number(n as real))
  {
    assert IsWorth(n as real, n);
  }

  lemma FloatHoldsShort(a: Type)
    requires a.Int8? || a.Int16?
    ensures HoldsAll(Float32, a)
  {
    TwosAre();
    forall v | Holds(a, v) ensures Holds(Float32, v) {
      var n: int :| IsWorth(v.worth, n) && -IntegerBound(a) <= n < IntegerBound(a);
      IntegerIsFloat(v.worth, n, FloatOf(Float32));
    }
  }

  lemma DoubleHoldsFloat(b: Type)
    requires IsFloat(b)
    ensures HoldsAll(Float64, b)
  {
    forall v | Holds(b, v) ensures Holds(Float64, v) {
      FloatShapes(b, v);
    }
  }

  lemma LongAndFloat(b: Type)
    requires IsFloat(b)
    ensures IsLeast(Int64, b, Json)
  {
    IntegerIsHeld(Int64, PAST_DOUBLE);
    forall t | HoldsAll(t, Int64) && HoldsAll(t, b) ensures HoldsAll(t, Json) {
      HoldsFloats(t, b);
      assert Holds(t, Value.Number(PAST_DOUBLE as real));
      if IsFloat(t) {
        PastDouble(t);
      }
    }
  }

  lemma IntAndSingle()
    ensures IsLeast(Int32, Float32, Float64)
  {
    var v := Value.Number(PAST_SINGLE as real);
    IntegerIsHeld(Int32, PAST_SINGLE);
    PastSingle();
    JsonHoldsAll(Float64);
    DoubleHoldsFloat(Float64);
    forall t | HoldsAll(t, Int32) && HoldsAll(t, Float32) ensures HoldsAll(t, Float64) {
      HoldsFloats(t, Float32);
      assert Holds(t, v);
    }
  }

  lemma PastSingleIsHeld()
    ensures Holds(Float64, Value.Number(PAST_SINGLE as real))
  {
    IntegerIsHeld(Int32, PAST_SINGLE);
    FloatShapes(Int32, Value.Number(PAST_SINGLE as real));
  }

  lemma ShortAndSingle(a: Type)
    requires a.Int8? || a.Int16?
    ensures !IsLeast(a, Float32, Float64)
  {
    FloatHoldsShort(a);
    PastSingle();
    PastSingleIsHeld();
    NotLeast(a, Float32, Float64, Float32, Value.Number(PAST_SINGLE as real));
  }

  lemma JoinOfFloats(a: Type, b: Type)
    requires FamilyOf(a) == FamilyOf(b) == Family.Number && (IsFloat(a) || IsFloat(b)) && a != b
    ensures Join(a, b) == if IsExact(a) && IsExact(b) then Float64 else Json
  {
    FloatsJoin(a, b);
    JoinIsFlat(a, b);
  }

  lemma IntegerAndFloat(a: Type, b: Type)
    requires IsInt(a) && IsFloat(b)
    ensures IsNarrowest(a, b) <==> !IsLoose(a, b)
  {
    JoinOfFloats(a, b);
    if a.Int64? {
      LongAndFloat(b);
    } else if b.Float64? {
      EitherIsNarrowest(a, b);
    } else if a.Int32? {
      IntAndSingle();
    } else {
      ShortAndSingle(a);
    }
  }

  lemma WholeIsHeld(d: DecimalType, n: int)
    requires d.scale == 0 && IsBelow(n, Power(10, d.precision))
    ensures Holds(Decimal(d), Value.Number(n as real))
  {
    assert Power(10, 0) == 1;
    assert IsScaled(n as real, n, 0);
  }

  lemma TensAre()
    ensures Power(10, 15) == 1_000_000_000_000_000 && Power(10, 16) == 10_000_000_000_000_000
  {
    assert Power(10, 8) == 100_000_000 && Power(10, 7) == 10_000_000;
    PowersMultiply(10, 7, 8);
    PowersMultiply(10, 8, 8);
  }

  lemma NoFloatHoldsDecimal(d: DecimalType, t: Type)
    requires IsFloat(t) && (d.scale > 0 || d.precision > 15)
    ensures !HoldsAll(t, Decimal(d))
  {
    if d.scale > 0 {
      LeastIsHeld(d);
      TenthIsNoFloat(d.scale, FloatOf(t));
      assert !Holds(t, Value.Number(Least(d.scale)));
    } else {
      TensAre();
      PowersRise(10, 16, d.precision);
      WholeIsHeld(d, PAST_DOUBLE);
      PastDouble(t);
    }
  }

  lemma DoubleHoldsDecimal(d: DecimalType)
    requires d.scale == 0 && d.precision <= 15
    ensures HoldsAll(Float64, Decimal(d))
  {
    TensAre();
    TwosAre();
    PowersRise(10, d.precision, 15);
    assert Power(10, 0) == 1;
    forall v | Holds(Decimal(d), v) ensures Holds(Float64, v) {
      var n: int :| IsScaled(v.worth, n, 0) && IsBelow(n, Power(10, d.precision));
      IntegerIsFloat(v.worth, n, FloatOf(Float64));
    }
  }

  lemma DecimalAndFloat(a: Type, b: Type)
    requires a.Decimal? && IsFloat(b)
    ensures IsNarrowest(a, b) <==> !IsLoose(a, b)
  {
    JoinOfFloats(a, b);
    if IsLoose(a, b) {
      DoubleHoldsDecimal(a.digits);
      DoubleHoldsFloat(b);
      NotLeast(a, b, Json, Float64, Truth(true));
    } else {
      forall t | HoldsAll(t, a) && HoldsAll(t, b) ensures HoldsAll(t, Json) {
        HoldsFloats(t, b);
        if IsFloat(t) {
          NoFloatHoldsDecimal(a.digits, t);
        }
      }
    }
  }

  // ----- Decimals -----

  /** Nothing but a decimal, or JSON, holds a decimal with places past its point. */
  lemma HoldsPlaces(t: Type, d: DecimalType)
    requires d.scale > 0 && HoldsAll(t, Decimal(d))
    ensures t.Json? || t.Decimal?
  {
    HoldsNumbers(t, Decimal(d));
    LeastIsHeld(d);
    assert Holds(t, Value.Number(Least(d.scale)));
    if IsInt(t) {
      TenthIsNoInteger(d.scale, IntegerBound(t));
    } else if IsFloat(t) {
      TenthIsNoFloat(d.scale, FloatOf(t));
    }
  }

  lemma IntegerHoldsDecimal(a: Type, d: DecimalType)
    requires IsInt(a) && d.scale == 0 && d.precision < IntegerDigits(a).value
    ensures HoldsAll(a, Decimal(d))
  {
    DigitsReached(a);
    PowersRise(10, d.precision, IntegerDigits(a).value - 1);
    assert Power(10, 0) == 1;
    forall v | Holds(Decimal(d), v) ensures Holds(a, v) {
      var n: int :| IsScaled(v.worth, n, 0) && IsBelow(n, Power(10, d.precision));
      assert IsWorth(v.worth, n);
    }
  }

  lemma PastInteger(a: Type)
    requires IsInt(a)
    ensures !Holds(a, Value.Number(IntegerBound(a) as real))
  {
    var x := IntegerBound(a) as real;
    forall n: int | IsWorth(x, n) ensures n == IntegerBound(a) {
    }
  }

  lemma JoinOfDecimals(a: Type, b: Type)
    requires IsFixed(a) && IsFixed(b) && (a.Decimal? || b.Decimal?)
    ensures Max(Whole(a), Whole(b)) + Max(Scale(a), Scale(b)) > 0
    ensures Join(a, b) == DecimalOf(Max(Whole(a), Whole(b)), Max(Scale(a), Scale(b)))
  {
    DecimalsJoin(a, b);
    JoinIsFlat(a, b);
  }

  lemma PlacesAndInteger(a: Type, d: DecimalType)
    requires IsInt(a) && d.scale > 0 && d.precision - d.scale < IntegerDigits(a).value
    ensures IsLeast(a, Decimal(d), DecimalOf(IntegerDigits(a).value, d.scale))
  {
    var j := DecimalOf(IntegerDigits(a).value, d.scale);
    forall t | HoldsAll(t, a) && HoldsAll(t, Decimal(d)) ensures HoldsAll(t, j) {
      HoldsPlaces(t, d);
      if t.Decimal? {
        DecimalHoldsInteger(t.digits, a);
        DecimalHoldsDecimal(t.digits, d);
        DecimalHoldsJoin(t.digits, IntegerDigits(a).value, d.scale);
      }
    }
  }

  lemma WholeAndInteger(a: Type, d: DecimalType)
    requires IsInt(a) && d.scale == 0 && d.precision < IntegerDigits(a).value
    ensures !IsLeast(a, Decimal(d), DecimalOf(IntegerDigits(a).value, 0))
  {
    IntegerHoldsDecimal(a, d);
    IntegersHaveDigits(a);
    WholeIsHeld(Digits(IntegerDigits(a).value, 0), IntegerBound(a));
    PastInteger(a);
    NotLeast(a, Decimal(d), DecimalOf(IntegerDigits(a).value, 0), a, Value.Number(IntegerBound(a) as real));
  }

  lemma IntegerAndDecimal(a: Type, b: Type)
    requires IsInt(a) && b.Decimal?
    ensures IsNarrowest(a, b) <==> !IsLoose(a, b)
  {
    JoinOfDecimals(a, b);
    if IntegerDigits(a).value <= Whole(b) {
      EitherIsNarrowest(a, b);
    } else if b.digits.scale == 0 {
      WholeAndInteger(a, b.digits);
    } else {
      PlacesAndInteger(a, b.digits);
    }
  }

  lemma DecimalAndDecimal(a: Type, b: Type)
    requires a.Decimal? && b.Decimal?
    ensures IsNarrowest(a, b)
  {
    JoinOfDecimals(a, b);
    var whole, scale := Max(Whole(a), Whole(b)), Max(Scale(a), Scale(b));
    var j := DecimalOf(whole, scale);
    if scale == 0 {
      EitherIsNarrowest(a, b);
    } else {
      forall t | HoldsAll(t, a) && HoldsAll(t, b) ensures HoldsAll(t, j) {
        HoldsPlaces(t, if Scale(a) > 0 then a.digits else b.digits);
        if t.Decimal? {
          DecimalHoldsDecimal(t.digits, a.digits);
          DecimalHoldsDecimal(t.digits, b.digits);
          DecimalHoldsJoin(t.digits, whole, scale);
        }
      }
    }
  }

  // ----- Every pair -----

  lemma AlikeNumbers(a: Type, b: Type)
    requires (IsInt(a) && IsInt(b)) || (IsFloat(a) && IsFloat(b)) || (a.Decimal? && b.Decimal?)
    ensures IsNarrowest(a, b)
  {
    if a.Decimal? {
      DecimalAndDecimal(a, b);
    } else {
      JoinIsFlat(a, b);
      EitherIsNarrowest(a, b);
    }
  }

  /** An integer and a decimal or a float, or a decimal and a float. */
  predicate AreMixed(a: Type, b: Type) {
    (IsInt(a) && (b.Decimal? || IsFloat(b))) || (a.Decimal? && IsFloat(b))
  }

  lemma MixedNumbers(a: Type, b: Type)
    requires AreMixed(a, b)
    ensures IsNarrowest(a, b) <==> !IsLoose(a, b) && !IsLoose(b, a)
  {
    if a.Decimal? {
      DecimalAndFloat(a, b);
    } else if b.Decimal? {
      IntegerAndDecimal(a, b);
    } else {
      IntegerAndFloat(a, b);
    }
  }

  lemma TwoNumbers(a: Type, b: Type)
    requires FamilyOf(a) == FamilyOf(b) == Family.Number
    ensures IsNarrowest(a, b) <==> !IsLoose(a, b) && !IsLoose(b, a)
  {
    if AreMixed(a, b) {
      MixedNumbers(a, b);
    } else if AreMixed(b, a) {
      MixedNumbers(b, a);
      Swapped(a, b);
    } else {
      AlikeNumbers(a, b);
    }
  }

  lemma ZonesHoldAlike(unit: TimeUnit, a: Option<string>, b: Option<string>)
    ensures HoldsAll(Timestamp(unit, a), Timestamp(unit, b))
  {
  }

  lemma TwoInstants(a: Type, b: Type)
    requires FamilyOf(a) == FamilyOf(b) == Instant && a != b
    ensures IsNarrowest(a, b)
  {
    JoinIsFlat(a, b);
    if a.Timestamp? && b.Timestamp? {
      var finer := if Join(a, b).unit == a.unit then a else b;
      ZonesHoldAlike(finer.unit, finer.zone, Join(a, b).zone);
      forall t | HoldsAll(t, a) && HoldsAll(t, b) ensures HoldsAll(t, Join(a, b)) {
        assert HoldsAll(t, finer);
      }
    } else {
      EitherIsNarrowest(a, b);
    }
  }

  lemma TrivialPairs(a: Type, b: Type)
    requires a == b || a.Null? || b.Null? || a.Json? || b.Json?
    ensures IsNarrowest(a, b)
  {
    NullIsIdentity(a);
    NullIsIdentity(b);
    JsonAbsorbs(a);
    JsonAbsorbs(b);
    EitherIsNarrowest(a, b);
  }

  lemma TwoSpans(a: Type, b: Type)
    requires (a.Time? && b.Time?) || (a.Duration? && b.Duration?)
    ensures IsNarrowest(a, b)
  {
    JoinIsFlat(a, b);
    EitherIsNarrowest(a, b);
  }

  lemma KindsApart(a: Type, b: Type)
    requires IsFlat(a) && !a.Null? && !a.Json? && IsFlat(b) && !b.Null? && !b.Json? && a != b
    requires FamilyOf(a) == FamilyOf(b) ==> FamilyOf(a) == Other
    ensures KindOf(Sample(a)) != KindOf(Sample(b))
  {
  }

  predicate AreTimes(a: Type, b: Type) {
    || (FamilyOf(a) == FamilyOf(b) == Instant) || (a.Time? && b.Time?) || (a.Duration? && b.Duration?)
  }

  lemma TwoTimes(a: Type, b: Type)
    requires AreTimes(a, b) && a != b
    ensures IsNarrowest(a, b)
  {
    if FamilyOf(a) == Instant {
      TwoInstants(a, b);
    } else {
      TwoSpans(a, b);
    }
  }

  lemma OtherPairs(a: Type, b: Type)
    requires IsFlat(a) && IsFlat(b) && !(FamilyOf(a) == FamilyOf(b) == Family.Number)
    ensures IsNarrowest(a, b)
  {
    if a == b || a.Null? || b.Null? || a.Json? || b.Json? {
      TrivialPairs(a, b);
    } else if AreTimes(a, b) {
      TwoTimes(a, b);
    } else {
      KindsApart(a, b);
      OnlyJsonHoldsBoth(a, b);
    }
  }

  lemma LooseAreNumbers(a: Type, b: Type)
    requires IsLoose(a, b)
    ensures FamilyOf(a) == FamilyOf(b) == Family.Number
  {
  }

  /** Of two types that nest no others, no type holds all values of both and not all of the join's, if and
      only if they are not a whole decimal and an integer of more digits, a float of four bytes and an integer
      of at most two, or a whole decimal of at most fifteen digits and a float. */
  lemma NarrowestExactly(a: Type, b: Type)
    requires IsFlat(a) && IsFlat(b)
    ensures IsNarrowest(a, b) <==> !IsLoose(a, b) && !IsLoose(b, a)
  {
    if FamilyOf(a) == FamilyOf(b) == Family.Number {
      TwoNumbers(a, b);
    } else {
      OtherPairs(a, b);
      if IsLoose(a, b) {
        LooseAreNumbers(a, b);
      } else if IsLoose(b, a) {
        LooseAreNumbers(b, a);
      }
    }
  }

  /** An integer of two bytes and a float of four join as a float of eight, though the one of four holds both. */
  lemma AWiderFloatThanNeeded()
    ensures Join(Int16, Float32) == Float64 && HoldsAll(Float32, Int16) && !HoldsAll(Float32, Float64)
  {
    FloatHoldsShort(Int16);
    JoinOfFloats(Int16, Float32);
    PastSingle();
    PastSingleIsHeld();
  }
}
