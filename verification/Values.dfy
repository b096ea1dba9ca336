/** Which values a logical type holds, and what the join of two types holds of either's: every one, but
    for a time too far away for the finer unit it takes. */
module Values {
  import opened Wrappers
  import opened Common
  import opened Lattice

  /** A value other than null. A number is what it is worth; a float's NaN and infinities are `Unbounded`; a
      time is its nanoseconds; a record holds the fields that are not null. */
  datatype Value =
    | Truth(truth: bool)
    | Number(worth: real)
    | Unbounded(name: nat)
    | Text(text: string)
    | Bytes(bytes: seq<nat>)
    | Uuid(bits: nat)
    | Moment(nanos: int)
    | OfDay(nanos: int)
    | Span(nanos: int)
    | Record(fields: map<nat, Value>)
    | Items(items: seq<Option<Value>>)

  const DAY: int := 86_400_000_000_000

  function Power(base: nat, n: nat): nat { if n == 0 then 1 else base * Power(base, n - 1) }

  /** Whether a number is an integer within a bound. */
  ghost predicate IsIntegerWithin(x: real, bound: int) {
    exists n: int :: IsWorth(x, n) && -bound <= n < bound
  }

  predicate IsWorth(x: real, n: int) { x == n as real }

  /** Whether a number has no more than so many digits, so many of them past the point. */
  ghost predicate IsDecimalOf(x: real, precision: nat, scale: nat) {
    exists n: int :: IsScaled(x, n, scale) && IsBelow(n, Power(10, precision))
  }

  predicate IsBelow(n: int, bound: int) { -bound < n < bound }

  predicate IsScaled(x: real, n: int, scale: nat) { IsTimes(x, Power(10, scale), n) }

  predicate IsTimes(x: real, p: int, n: int) { x * p as real == n as real }

  /** A float's bits: of its significand, and the exponents of its least and greatest unit. */
  datatype Float = Float(bits: nat, low: nat, high: nat)

  function FloatOf(t: Type): Float
    requires IsFloat(t)
  {
    if t.Float32? then Float(24, 149, 104) else Float(53, 1074, 971)
  }

  /** Whether a number is a significand of so many bits times a power of two from `low` below one to `high`. */
  ghost predicate IsFloatOf(x: real, f: Float) {
    exists m: int, k: nat ::
      IsShifted(x, m, k, f.low) && IsBelow(m, Power(2, f.bits)) && k <= f.low + f.high
  }

  predicate IsShifted(x: real, m: int, k: nat, low: nat) {
    IsTimes(x, Power(2, low), m * Power(2, k))
  }

  function IntegerBound(t: Type): int
    requires IsInt(t)
  {
    match t
    case Int8 => 0x80
    case Int16 => 0x8000
    case Int32 => 0x8000_0000
    case _ => 0x8000_0000_0000_0000
  }

  function UnitOf(t: Type): (nanos: int)
    requires t.Date? || t.Time? || t.Timestamp? || t.Duration?
    ensures nanos > 0
  {
    if t.Date? then DAY else t.unit.Nanos()
  }

  /** Whether a type's kind of value, in its units, is one: all that holding it asks but that a count of
      units fits its integer. */
  ghost predicate Shapes(t: Type, v: Value)
    decreases t, 1
  {
    match t
    case Null => false
    case Bool => v.Truth?
    case Float32 => v.Unbounded? || (v.Number? && IsFloatOf(v.worth, FloatOf(t)))
    case Float64 => v.Unbounded? || (v.Number? && IsFloatOf(v.worth, FloatOf(t)))
    case Utf8 => v.Text?
    case Binary => v.Bytes?
    case Uuid => v.Uuid?
    case Json => true
    case Date => v.Moment? && v.nanos % UnitOf(t) == 0
    case Timestamp(_, _) => v.Moment? && v.nanos % UnitOf(t) == 0
    case Time(_) => v.OfDay? && v.nanos % UnitOf(t) == 0
    case Duration(_) => v.Span? && v.nanos % UnitOf(t) == 0
    case Decimal(d) => v.Number? && IsDecimalOf(v.worth, d.precision, d.scale)
    case Struct(_) => v.Record? && forall name: nat :: FieldShapes(t, v, name)
    case List(_, _) => v.Items? && forall i: nat :: ItemShapes(t, v, i)
    case _ => v.Number? && IsIntegerWithin(v.worth, IntegerBound(t))
  }

  ghost predicate FieldShapes(t: Type, v: Value, name: nat)
    requires t.Struct? && v.Record?
    decreases t, 0
  {
    var place := Place(t.fields, name);
    if name in v.fields then place.Some? && Shapes(t.fields[place.value].logical, v.fields[name])
    else place.Some? ==> t.fields[place.value].nullable
  }

  ghost predicate ItemShapes(t: Type, v: Value, i: nat)
    requires t.List? && v.Items?
    decreases t, 0
  {
    i < |v.items| ==> if v.items[i].None? then t.nullable else Shapes(t.item, v.items[i].value)
  }

  predicate InI32(value: int) { -0x8000_0000 <= value < 0x8000_0000 }

  predicate InI64(value: int) { -0x8000_0000_0000_0000 <= value < 0x8000_0000_0000_0000 }

  predicate IsNarrow(t: Type) { t.Date? || (t.Time? && (t.unit.Second? || t.unit.Millisecond?)) }

  /** Whether every count of a type's units in a value fits the integer the type stores it in. */
  ghost predicate Reaches(t: Type, v: Value)
    decreases t, 1
  {
    if t.Date? || t.Time? || t.Timestamp? || t.Duration? then
      v.Moment? || v.OfDay? || v.Span? ==>
        if IsNarrow(t) then InI32(v.nanos / UnitOf(t)) else InI64(v.nanos / UnitOf(t))
    else if t.Struct? && v.Record? then forall name: nat :: FieldReaches(t, v, name)
    else if t.List? && v.Items? then forall i: nat :: ItemReaches(t, v, i)
    else true
  }

  ghost predicate FieldReaches(t: Type, v: Value, name: nat)
    requires t.Struct? && v.Record?
    decreases t, 0
  {
    var place := Place(t.fields, name);
    name in v.fields && place.Some? ==> Reaches(t.fields[place.value].logical, v.fields[name])
  }

  ghost predicate ItemReaches(t: Type, v: Value, i: nat)
    requires t.List? && v.Items?
    decreases t, 0
  {
    i < |v.items| && v.items[i].Some? ==> Reaches(t.item, v.items[i].value)
  }

  ghost predicate Holds(t: Type, v: Value) { Shapes(t, v) && Reaches(t, v) }

  // ----- Numbers -----

  lemma {:induction false} PowersMultiply(base: nat, a: nat, b: nat)
    ensures Power(base, a) * Power(base, b) == Power(base, a + b)
  {
    if a > 0 {
      PowersMultiply(base, a - 1, b);
      Regroup(base, Power(base, a - 1), Power(base, b));
    }
  }

  lemma Regroup(a: int, b: int, c: int)
    ensures a * b * c == a * (b * c)
  {
  }

  lemma {:induction false} PowersRise(base: nat, a: nat, b: nat)
    requires base > 0 && a <= b
    ensures 0 < Power(base, a) <= Power(base, b)
    decreases b
  {
    if a < b {
      PowersRise(base, a, b - 1);
      Grows(base, Power(base, b - 1));
    } else if a > 0 {
      PowersRise(base, a - 1, a - 1);
      Grows(base, Power(base, a - 1));
    }
  }

  lemma Grows(base: nat, n: nat)
    requires base > 0
    ensures n <= base * n
  {
  }

  lemma CastTimes(a: int, b: int)
    ensures (a * b) as real == a as real * b as real
  {
  }

  lemma IntegerTimes(n: int, p: int, m: int)
    ensures IsTimes(n as real, p, m) <==> n * p == m
  {
    CastTimes(n, p);
  }

  lemma TimesOn(x: real, a: int, n: int, b: int)
    requires IsTimes(x, a, n)
    ensures IsTimes(x, a * b, n * b)
  {
    CastTimes(a, b);
    CastTimes(n, b);
    assert x * (a as real * b as real) == x * a as real * b as real;
  }

  lemma BelowOn(n: int, bound: int, b: int)
    requires IsBelow(n, bound) && b > 0
    ensures IsBelow(n * b, bound * b)
  {
    assert (bound - n) * b > 0;
    assert (bound + n) * b > 0;
  }

  /** A decimal of as many digits before its point and after it holds what another does. */
  lemma DecimalsWiden(x: real, p: nat, s: nat, precision: nat, scale: nat)
    requires IsDecimalOf(x, p, s) && s <= scale && p - s <= precision - scale
    ensures IsDecimalOf(x, precision, scale)
  {
    var n: int :| IsScaled(x, n, s) && IsBelow(n, Power(10, p));
    ScaleOn(x, n, s, scale - s, n * Power(10, scale - s));
    DigitsOn(n, p, scale - s, precision);
  }

  lemma ScaleOn(x: real, n: int, s: nat, more: nat, m: int)
    requires IsScaled(x, n, s) && m == n * Power(10, more)
    ensures IsScaled(x, m, s + more)
  {
    PowersMultiply(10, s, more);
    TimesOn(x, Power(10, s), n, Power(10, more));
  }

  lemma DigitsOn(n: int, p: nat, more: nat, precision: nat)
    requires IsBelow(n, Power(10, p)) && p + more <= precision
    ensures IsBelow(n * Power(10, more), Power(10, precision))
  {
    PowersRise(10, 0, more);
    BelowOn(n, Power(10, p), Power(10, more));
    PowersMultiply(10, p, more);
    PowersRise(10, p + more, precision);
  }

  /** Every value of an integer type has no more than its digits. */
  lemma IntegersHaveDigits(t: Type)
    requires IsInt(t)
    ensures IntegerBound(t) < Power(10, IntegerDigits(t).value)
  {
    match t
    case Int8 => assert Power(10, 3) == 1000;
    case Int16 => assert Power(10, 5) == 100_000;
    case Int32 => assert Power(10, 10) == 10_000_000_000;
    case Int64 => assert Power(10, 19) == 10_000_000_000_000_000_000;
  }

  lemma IntegersAreDecimals(x: real, t: Type, precision: nat, scale: nat)
    requires IsInt(t) && IsIntegerWithin(x, IntegerBound(t)) && IntegerDigits(t).value <= precision - scale
    ensures IsDecimalOf(x, precision, scale)
  {
    var n: int :| IsWorth(x, n) && -IntegerBound(t) <= n < IntegerBound(t);
    IntegersHaveDigits(t);
    assert Power(10, 0) == 1;
    assert IsScaled(x, n, 0) && IsBelow(n, Power(10, IntegerDigits(t).value));
    DecimalsWiden(x, IntegerDigits(t).value, 0, precision, scale);
  }

  lemma IntegersWiden(x: real, a: Type, b: Type)
    requires IsInt(a) && IsInt(b) && IntegerDigits(a).value <= IntegerDigits(b).value
    requires IsIntegerWithin(x, IntegerBound(a))
    ensures IsIntegerWithin(x, IntegerBound(b))
  {
    var n: int :| IsWorth(x, n) && -IntegerBound(a) <= n < IntegerBound(a);
    assert IsWorth(x, n) && -IntegerBound(b) <= n < IntegerBound(b);
  }

  /** A float of more bits, further below one and above it, holds what another does. */
  lemma FloatsWiden(x: real, f: Float, g: Float)
    requires IsFloatOf(x, f) && f.bits <= g.bits && f.low <= g.low && f.high <= g.high
    ensures IsFloatOf(x, g)
  {
    var m: int, k: nat :| IsShifted(x, m, k, f.low) && IsBelow(m, Power(2, f.bits)) && k <= f.low + f.high;
    PowersRise(2, f.bits, g.bits);
    ShiftOn(x, m, k, f.low, g.low - f.low);
  }

  lemma {:induction false} ShiftOn(x: real, m: int, k: nat, low: nat, more: nat)
    requires IsShifted(x, m, k, low)
    ensures IsShifted(x, m, k + more, low + more)
  {
    if more > 0 {
      ShiftOn(x, m, k, low, more - 1);
      ShiftOne(x, m, k + more - 1, low + more - 1);
    }
  }

  lemma ShiftOne(x: real, m: int, k: nat, low: nat)
    requires IsShifted(x, m, k, low)
    ensures IsShifted(x, m, k + 1, low + 1)
  {
    var a, b := Power(2, low), Power(2, k);
    TimesOn(x, a, m * b, 2);
    assert m * b * 2 == m * (2 * b);
  }

  lemma IntegerIsFloat(x: real, n: int, f: Float)
    requires IsWorth(x, n) && IsBelow(n, Power(2, f.bits))
    ensures IsFloatOf(x, f)
  {
    IntegerIsShifted(n, f.low);
    assert IsShifted(x, n, f.low, f.low);
  }

  lemma IntegerIsShifted(n: int, low: nat)
    ensures IsShifted(n as real, n, low, low)
  {
    var p := Power(2, low);
    IntegerTimes(n, p, n * p);
  }

  lemma TwoTo32()
    ensures Power(2, 32) == 0x1_0000_0000
  {
    assert Power(2, 8) == 256;
    PowersMultiply(2, 8, 8);
    PowersMultiply(2, 16, 16);
  }

  lemma ExactIntegersAreFloats(x: real, t: Type)
    requires IsInt(t) && IsExact(t) && IsIntegerWithin(x, IntegerBound(t))
    ensures IsFloatOf(x, FloatOf(Float64))
  {
    var n: int :| IsWorth(x, n) && -IntegerBound(t) <= n < IntegerBound(t);
    var f := FloatOf(Float64);
    TwoTo32();
    PowersRise(2, 32, f.bits);
    IntegerIsFloat(x, n, f);
  }

  // ----- The join -----

  lemma NumbersShape(a: Type, b: Type, v: Value)
    requires a != b && FamilyOf(a) == FamilyOf(b) == Family.Number && Shapes(a, v)
    ensures Shapes(JoinFlat(a, b), v)
  {
    if IsInt(a) && IsInt(b) {
      IntegersShape(a, b, v);
    } else if IsFloat(a) || IsFloat(b) {
      FloatsJoin(a, b);
      if IsExact(a) && IsExact(b) {
        FloatShapes(a, v);
      }
    } else {
      DecimalsJoin(a, b);
      DecimalShapes(a, v, Max(Whole(a), Whole(b)), Max(Scale(a), Scale(b)));
    }
  }

  lemma IntegersShape(a: Type, b: Type, v: Value)
    requires a != b && IsInt(a) && IsInt(b) && Shapes(a, v)
    ensures Shapes(JoinFlat(a, b), v)
  {
    if IntegerDigits(a).value < IntegerDigits(b).value {
      IntegersWiden(v.worth, a, b);
    }
  }

  lemma FloatShapes(a: Type, v: Value)
    requires IsExact(a) && Shapes(a, v)
    ensures Shapes(Float64, v)
  {
    if v.Number? {
      if IsFloat(a) {
        FloatsWiden(v.worth, FloatOf(a), FloatOf(Float64));
      } else {
        ExactIntegersAreFloats(v.worth, a);
      }
    }
  }

  lemma DecimalShapes(a: Type, v: Value, whole: nat, scale: nat)
    requires IsFixed(a) && Shapes(a, v) && Whole(a) <= whole && Scale(a) <= scale && whole + scale > 0
    ensures Shapes(DecimalOf(whole, scale), v)
  {
    if whole + scale <= MAX_PRECISION {
      if a.Decimal? {
        DecimalsWiden(v.worth, a.digits.precision, a.digits.scale, whole + scale, scale);
      } else {
        IntegersAreDecimals(v.worth, a, whole + scale, scale);
      }
    }
  }

  lemma MultipleOf(count: int, unit: TimeUnit)
    ensures count * unit.Nanos() % unit.Nanos() == 0
  {
    match unit
    case Second => assert count * 1_000_000_000 % 1_000_000_000 == 0;
    case Millisecond => assert count * 1_000_000 % 1_000_000 == 0;
    case Microsecond => assert count * 1_000 % 1_000 == 0;
    case Nanosecond =>
  }

  lemma Multiplied(count: int, factor: int, unit: TimeUnit)
    ensures count * (factor * unit.Nanos()) % unit.Nanos() == 0
  {
    assert count * (factor * unit.Nanos()) == (count * factor) * unit.Nanos();
    MultipleOf(count * factor, unit);
  }

  /** A whole number of a unit is one of any finer. */
  lemma UnitsDivide(nanos: int, a: TimeUnit, b: TimeUnit)
    requires nanos % a.Nanos() == 0
    ensures nanos % Finest(a, b).Nanos() == 0
  {
    var unit := Finest(a, b);
    var factor := a.Nanos() / unit.Nanos();
    assert factor * unit.Nanos() == a.Nanos();
    Counted(nanos, a.Nanos());
    Multiplied(nanos / a.Nanos(), factor, unit);
  }

  lemma Counted(nanos: int, unit: int)
    requires unit > 0 && nanos % unit == 0
    ensures nanos == nanos / unit * unit
  {
  }

  lemma DaysDivide(nanos: int, unit: TimeUnit)
    requires nanos % DAY == 0
    ensures nanos % unit.Nanos() == 0
  {
    var factor := DAY / unit.Nanos();
    assert factor * unit.Nanos() == DAY;
    Counted(nanos, DAY);
    Multiplied(nanos / DAY, factor, unit);
  }

  lemma FamilyShapes(a: Type, b: Type, v: Value)
    requires a != b && FamilyOf(a) == FamilyOf(b) && IsFlat(a) && Shapes(a, v)
    ensures Shapes(JoinFlat(a, b), v)
  {
    match FamilyOf(a)
    case Number => NumbersShape(a, b, v);
    case Instant => InstantsShape(a, b, v);
    case OfDay => SpansShape(a, b, v);
    case Elapsed => SpansShape(a, b, v);
    case Other => OthersJoin(a, b);
    case _ =>
  }

  lemma FlatShapes(a: Type, b: Type, v: Value)
    requires a != b && !(a.Struct? && b.Struct?) && !(a.List? && b.List?) && Shapes(a, v)
    ensures Shapes(JoinFlat(a, b), v)
  {
    if FamilyOf(a) == FamilyOf(b) {
      FamilyShapes(a, b, v);
    } else if !b.Null? {
      Apart(a, b);
      assert JoinFlat(a, b) == Json;
    } else {
      assert JoinFlat(a, b) == a;
    }
  }

  lemma SpansShape(a: Type, b: Type, v: Value)
    requires a != b && ((a.Time? && b.Time?) || (a.Duration? && b.Duration?)) && Shapes(a, v)
    ensures Shapes(JoinFlat(a, b), v)
  {
    UnitsDivide(v.nanos, a.unit, b.unit);
  }

  lemma InstantsShape(a: Type, b: Type, v: Value)
    requires a != b && FamilyOf(a) == FamilyOf(b) == Instant && Shapes(a, v)
    ensures Shapes(JoinFlat(a, b), v)
  {
    if a.Timestamp? && b.Timestamp? {
      UnitsDivide(v.nanos, a.unit, b.unit);
    } else if a.Date? {
      DaysDivide(v.nanos, b.unit);
    }
  }

  lemma FieldByView(t: Type, v: Value, name: nat)
    requires t.Struct? && v.Record?
    ensures FieldShapes(t, v, name) <==>
            if name in v.fields
            then View(t.fields, name).Some? && Shapes(View(t.fields, name).value.logical, v.fields[name])
            else View(t.fields, name).Some? ==> View(t.fields, name).value.nullable
  {
  }

  /** The join of two types is of the kind of every value of the first. */
  lemma {:induction false} JoinShapes(a: Type, b: Type, v: Value)
    requires Shapes(a, v)
    ensures Shapes(Join(a, b), v)
    decreases a
  {
    if a != b {
      if a.Struct? && b.Struct? {
        forall name: nat ensures FieldShapes(Join(a, b), v, name) {
          FieldJoins(a, b, v, name);
        }
      } else if a.List? && b.List? {
        forall i: nat ensures ItemShapes(Join(a, b), v, i) {
          assert ItemShapes(a, v, i);
          if i < |v.items| && v.items[i].Some? {
            JoinShapes(a.item, b.item, v.items[i].value);
          }
        }
      } else {
        FlatShapes(a, b, v);
      }
    }
  }

  lemma {:induction false} FieldJoins(a: Type, b: Type, v: Value, name: nat)
    requires a.Struct? && b.Struct? && Shapes(a, v)
    ensures FieldShapes(Struct(JoinFields(a, b)), v, name)
    decreases a, 0
  {
    var joined := Struct(JoinFields(a, b));
    assert FieldShapes(a, v, name);
    FieldByView(a, v, name);
    FieldByView(joined, v, name);
    ViewOfJoin(a, b, name);
    var place, other := Place(a.fields, name), Place(b.fields, name);
    if name in v.fields && other.Some? {
      JoinShapes(a.fields[place.value].logical, b.fields[other.value].logical, v.fields[name]);
    }
  }

  /** Of a value one of two types holds, their join holds it if and only if each time in it is not too far
      for the join's unit. */
  lemma JoinHoldsExactly(a: Type, b: Type, v: Value)
    requires Holds(a, v) || Holds(b, v)
    ensures Holds(Join(a, b), v) <==> Reaches(Join(a, b), v)
  {
    if Holds(a, v) {
      JoinShapes(a, b, v);
    } else {
      JoinCommutes(a, b);
      JoinShapes(b, a, v);
    }
  }

  /** A time in seconds too far for nanoseconds: the join of both does not hold it. */
  lemma AFarTimeIsNotHeld()
    ensures var seconds, nanos := Timestamp(Second, None), Timestamp(Nanosecond, None);
            var v := Moment(10_000_000_000 * 1_000_000_000);
            Holds(seconds, v) && Join(seconds, nanos) == nanos && !Holds(Join(seconds, nanos), v)
  {
  }

  /** Whether no type in a type is of times. */
  predicate Timeless(t: Type) {
    match t
    case Date => false
    case Time(_) => false
    case Timestamp(_, _) => false
    case Duration(_) => false
    case Struct(fields) => forall i | 0 <= i < |fields| :: Timeless(fields[i].logical)
    case List(item, _) => Timeless(item)
    case _ => true
  }

  lemma {:induction false} TimelessReaches(t: Type, v: Value)
    requires Timeless(t)
    ensures Reaches(t, v)
    decreases t
  {
    if t.Struct? && v.Record? {
      forall name: nat ensures FieldReaches(t, v, name) {
        var place := Place(t.fields, name);
        if name in v.fields && place.Some? {
          TimelessReaches(t.fields[place.value].logical, v.fields[name]);
        }
      }
    } else if t.List? && v.Items? {
      forall i: nat ensures ItemReaches(t, v, i) {
        if i < |v.items| && v.items[i].Some? {
          TimelessReaches(t.item, v.items[i].value);
        }
      }
    }
  }

  /** A join with no times in it holds every value of both, exactly. */
  lemma JoinHoldsBoth(a: Type, b: Type, v: Value)
    requires Timeless(Join(a, b)) && (Holds(a, v) || Holds(b, v))
    ensures Holds(Join(a, b), v)
  {
    JoinHoldsExactly(a, b, v);
    TimelessReaches(Join(a, b), v);
  }
}
