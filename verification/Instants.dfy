/** Dates, times and durations by the nanoseconds they stand for, and their widenings, which keep them. */
module Instants {
  import opened Wrappers
  import opened Common

  const DAY: int := 86_400_000_000_000
  const DAY_MILLIS: int := 86_400_000

  datatype DataType =
    | Date32
    | Date64
    | Timestamp(unit: TimeUnit, zone: Option<string>)
    | Time32(unit: TimeUnit)
    | Time64(unit: TimeUnit)
    | Duration(unit: TimeUnit)
    | Other

  /** The nanoseconds a value of a type denotes: a `Date64` holding part of a day, the day it is
      within. */
  function Nanos(t: DataType, value: int): Option<int> {
    match t
    case Date32 => Some(value * DAY)
    case Date64 => Some(value / DAY_MILLIS * DAY)
    case Timestamp(unit, _) => Some(value * unit.Nanos())
    case Time32(unit) => Some(value * unit.Nanos())
    case Time64(unit) => Some(value * unit.Nanos())
    case Duration(unit) => Some(value * unit.Nanos())
    case Other => None
  }

  predicate InI32(value: int) { -0x8000_0000 <= value < 0x8000_0000 }

  predicate InI64(value: int) { -0x8000_0000_0000_0000 <= value < 0x8000_0000_0000_0000 }

  /** Whether a type's integer holds a value. */
  predicate Stores(t: DataType, value: int) {
    if t.Date32? || t.Time32? then InI32(value) else InI64(value)
  }

  predicate Finer(from: TimeUnit, to: TimeUnit) { to.Nanos() <= from.Nanos() }

  predicate OfDay(t: DataType) { t.Time32? || t.Time64? }

  /** Whether a type widens to another. */
  predicate Widens(from: DataType, to: DataType) {
    || ((from.Date32? || from.Date64?) && to.Timestamp?)
    || (from.Date64? && to.Date32?)
    || (from.Timestamp? && to.Timestamp? && Finer(from.unit, to.unit) && (to.zone.Some? || from.zone.None?))
    || (OfDay(from) && OfDay(to) && Finer(from.unit, to.unit))
    || (from.Duration? && to.Duration? && Finer(from.unit, to.unit))
  }

  /** What a widening is said to be, where a timestamp's zone stays or is given to one that had none. */
  predicate Documented(from: DataType, to: DataType) {
    || ((from.Date32? || from.Date64?) && to.Timestamp?)
    || (from.Date64? && to.Date32?)
    || (from.Timestamp? && to.Timestamp? && Finer(from.unit, to.unit) && (from.zone == to.zone || from.zone.None?))
    || (OfDay(from) && OfDay(to) && Finer(from.unit, to.unit))
    || (from.Duration? && to.Duration? && Finer(from.unit, to.unit))
  }

  /** The nanoseconds of one step of a type. */
  function Step(t: DataType): int
    requires !t.Other?
  {
    match t
    case Date32 => DAY
    case Date64 => DAY
    case Timestamp(unit, _) => unit.Nanos()
    case Time32(unit) => unit.Nanos()
    case Time64(unit) => unit.Nanos()
    case Duration(unit) => unit.Nanos()
  }

  datatype Refusal = NoWidening | Beyond

  function Multiplied(value: int, factor: int): Option<int> {
    if InI64(value * factor) then Some(value * factor) else None
  }

  /** A value of one type as another: multiplied by what one of its steps counts of the other's, a
      `Date64` first the day it is within; refused where the type does not widen, or its integer cannot
      hold the value. */
  function Widened(from: DataType, to: DataType, value: int): Result<int, Refusal> {
    if !Widens(from, to) then Err(NoWidening)
    else
      var factor := Step(from) / Step(to);
      if from.Timestamp? && factor == 1 then Ok(value)
      else
        var widened := Multiplied(if from.Date64? then value / DAY_MILLIS else value, factor);
        if widened.None? then Err(Beyond)
        else if (to.Date32? || to.Time32?) && !InI32(widened.value) then Err(Beyond)
        else Ok(widened.value)
  }

  /** The values of a column, widened: nulls kept, and refused at the first value that is. */
  function WidenedAll(from: DataType, to: DataType, values: seq<Option<int>>): Result<seq<Option<int>>, Refusal> {
    if !Widens(from, to) then Err(NoWidening)
    else if values == [] then Ok([])
    else
      var before := WidenedAll(from, to, values[..|values| - 1]);
      var last := values[|values| - 1];
      if before.Err? then before
      else if last.None? then Ok(before.value + [None])
      else
        var widened := Widened(from, to, last.value);
        if widened.Err? then Err(widened.error) else Ok(before.value + [Some(widened.value)])
  }

  // ----- What a widening keeps -----

  lemma StepsDivide(from: DataType, to: DataType)
    requires Widens(from, to)
    ensures Step(to) > 0 && Step(from) / Step(to) > 0 && Step(from) / Step(to) * Step(to) == Step(from)
  {
  }

  /** What a value denotes is as many of its type's steps. */
  lemma DenotesSteps(t: DataType, value: int)
    requires !t.Other?
    ensures Nanos(t, value) == Some((if t.Date64? then value / DAY_MILLIS else value) * Step(t))
  {
  }

  lemma Regrouped(a: int, b: int, c: int, d: int)
    requires b * c == d
    ensures a * b * c == a * d
  {
    calc {
      a * b * c;
      a * (b * c);
      a * d;
    }
  }

  /** A widening that succeeds denotes the same nanoseconds. */
  lemma DenotesTheSame(from: DataType, to: DataType, value: int)
    requires Widened(from, to, value).Ok?
    ensures Nanos(to, Widened(from, to, value).value) == Nanos(from, value) != None
  {
    StepsDivide(from, to);
    DenotesSteps(from, value);
    DenotesSteps(to, Widened(from, to, value).value);
    var counted, factor := if from.Date64? then value / DAY_MILLIS else value, Step(from) / Step(to);
    Regrouped(counted, factor, Step(to), Step(from));
  }

  /** What a value is in another type's steps, exactly. */
  lemma ExactSteps(from: DataType, to: DataType, value: int)
    requires Widens(from, to)
    ensures var counted := if from.Date64? then value / DAY_MILLIS else value;
            Nanos(from, value).value / Step(to) == counted * (Step(from) / Step(to))
  {
    StepsDivide(from, to);
    DenotesSteps(from, value);
    var counted, factor := if from.Date64? then value / DAY_MILLIS else value, Step(from) / Step(to);
    Regrouped(counted, factor, Step(to), Step(from));
    Divided(counted * factor, to);
  }

  lemma Divided(a: int, t: DataType)
    requires !t.Other?
    ensures a * Step(t) / Step(t) == a
  {
    match Step(t)
    case 1 =>
    case 1_000 => assert a * 1_000 / 1_000 == a;
    case 1_000_000 => assert a * 1_000_000 / 1_000_000 == a;
    case 1_000_000_000 => assert a * 1_000_000_000 / 1_000_000_000 == a;
    case _ => assert a * DAY / DAY == a;
  }

  /** A widening of a value its type stores fails exactly where the wider type's integer cannot hold
      what it denotes. */
  lemma FailsOnlyBeyond(from: DataType, to: DataType, value: int)
    requires Widens(from, to) && Stores(from, value)
    ensures Widened(from, to, value).Ok? <==> Stores(to, Nanos(from, value).value / Step(to))
    ensures Widened(from, to, value).Err? ==> Widened(from, to, value).error == Beyond
  {
    ExactSteps(from, to, value);
  }

  /** Where a value widens in two steps, it widens in one, to the same value. */
  lemma PathsAgree(a: DataType, b: DataType, c: DataType, value: int)
    requires Stores(a, value) && Widened(a, b, value).Ok? && Widened(b, c, Widened(a, b, value).value).Ok?
    ensures Widened(a, c, value) == Widened(b, c, Widened(a, b, value).value)
  {
    var middle := Widened(a, b, value).value;
    var end := Widened(b, c, middle).value;
    WideningsCompose(a, b, c);
    DenotesTheSame(a, b, value);
    DenotesTheSame(b, c, middle);
    WidenedIsStored(b, c, middle);
    ExactEnd(c, end, Nanos(a, value).value);
    FailsOnlyBeyond(a, c, value);
    DenotesTheSame(a, c, value);
    ExactEnd(c, Widened(a, c, value).value, Nanos(a, value).value);
  }

  lemma WideningsCompose(a: DataType, b: DataType, c: DataType)
    requires Widens(a, b) && Widens(b, c)
    ensures Widens(a, c) && !c.Date64?
  {
  }

  lemma WidenedIsStored(from: DataType, to: DataType, value: int)
    requires Widened(from, to, value).Ok? && (from.Timestamp? ==> InI64(value))
    ensures Stores(to, Widened(from, to, value).value)
  {
  }

  /** No type but `Date64` stores two values that denote the same. */
  lemma ExactEnd(t: DataType, value: int, nanos: int)
    requires !t.Other? && !t.Date64? && Nanos(t, value) == Some(nanos)
    ensures nanos / Step(t) == value
  {
    DenotesSteps(t, value);
    Divided(value, t);
  }

  /** A column widens where every value of it does, each to its own, and its nulls stay. */
  lemma {:induction false} ColumnsWidenByValue(from: DataType, to: DataType, values: seq<Option<int>>)
    requires Widens(from, to)
    ensures var widened := WidenedAll(from, to, values);
            && (widened.Ok? <==>
                  forall i | 0 <= i < |values| && values[i].Some? :: Widened(from, to, values[i].value).Ok?)
            && (widened.Ok? ==>
                  && |widened.value| == |values|
                  && forall i | 0 <= i < |values| ::
                       if values[i].None? then widened.value[i].None?
                       else Widened(from, to, values[i].value).Ok?
                            && widened.value[i] == Some(Widened(from, to, values[i].value).value))
  {
    if values != [] {
      var init := values[..|values| - 1];
      ColumnsWidenByValue(from, to, init);
      assert forall i | 0 <= i < |init| :: init[i] == values[i];
    }
  }

  // ----- Zones -----

  /** A timestamp's zone changed for another. */
  predicate Rezones(from: DataType, to: DataType) {
    from.Timestamp? && to.Timestamp? && from.zone.Some? && to.zone.Some? && from.zone != to.zone
  }

  /** What widens is what is said to, if and only if no timestamp changes one zone for another in a unit no
      coarser. Each such widening is one more that the code makes: of every value it makes the one that the
      same widening makes with the zone kept, which is said to widen, and denotes the same. */
  lemma WidensAsDocumentedExactly(from: DataType, to: DataType, value: int)
    ensures (Widens(from, to) <==> Documented(from, to)) <==> !(Rezones(from, to) && Finer(from.unit, to.unit))
    ensures Rezones(from, to) && Widens(from, to) ==>
              var kept := to.(zone := from.zone);
              && Documented(from, kept) && Widened(from, to, value) == Widened(from, kept, value)
              && (Widened(from, to, value).Ok? ==> Nanos(to, Widened(from, to, value).value) == Nanos(from, value))
  {
    if Rezones(from, to) && Widened(from, to, value).Ok? {
      DenotesTheSame(from, to, value);
    }
  }

  lemma AZoneMayChange()
    ensures var from, to := Timestamp(Second, Some("UTC")), Timestamp(Second, Some("CET"));
            Widens(from, to) && !Documented(from, to)
            && forall value :: Widened(from, to, value) == Ok(value) && Nanos(from, value) == Nanos(to, value)
  {
    assert "UTC"[0] != "CET"[0];
  }
}
