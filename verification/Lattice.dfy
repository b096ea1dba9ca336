/** Logical types and their join, a semilattice with `Null` at the bottom and `Json` at the top, structs and
    lists included; `Values` says which values it keeps. */
module Lattice {
  import opened Wrappers
  import opened Common

  const MAX_PRECISION: nat := 76

  datatype Digits = Digits(precision: nat, scale: nat)

  predicate IsDecimal(d: Digits) {
    1 <= d.precision <= MAX_PRECISION && d.scale <= d.precision
  }

  type DecimalType = d: Digits | IsDecimal(d) witness Digits(1, 0)

  datatype Type =
    | Null | Bool | Int8 | Int16 | Int32 | Int64 | Float32 | Float64 | Utf8 | Binary | Date | Uuid | Json
    | Decimal(digits: DecimalType)
    | Time(unit: TimeUnit)
    | Timestamp(unit: TimeUnit, zone: Option<string>)
    | Duration(unit: TimeUnit)
    | Struct(fields: seq<Field>)
    | List(item: Type, nullable: bool)

  datatype Field = Field(name: nat, logical: Type, nullable: bool)

  // ----- Joining -----

  /** How many decimal digits an integer type may take. */
  function IntegerDigits(t: Type): Option<nat> {
    match t
    case Int8 => Some(3)
    case Int16 => Some(5)
    case Int32 => Some(10)
    case Int64 => Some(19)
    case _ => None
  }

  predicate IsFloat(t: Type) { t.Float32? || t.Float64? }

  /** Whether `Float64` holds every value of a number's type exactly. */
  predicate IsExact(t: Type) { IsFloat(t) || t.Int8? || t.Int16? || t.Int32? }

  function Finest(a: TimeUnit, b: TimeUnit): TimeUnit { if a.Nanos() <= b.Nanos() then a else b }

  /** A decimal of so many digits before its point and after it; JSON where no decimal has them. */
  function DecimalOf(whole: nat, scale: nat): Type
    requires whole + scale > 0
  {
    if whole + scale > MAX_PRECISION then Json else Decimal(Digits(whole + scale, scale))
  }

  function JoinDecimals(d: DecimalType, whole: nat, scale: nat): Type {
    DecimalOf(Max(d.precision - d.scale, whole), Max(d.scale, scale))
  }

  function JoinZones(a: Option<string>, b: Option<string>): Option<string> {
    if a == b then a else Some("UTC")
  }

  /** The join of two types that differ, and are neither both structs nor both lists. */
  function JoinFlat(a: Type, b: Type): Type {
    if a.Null? then b
    else if b.Null? then a
    else if IntegerDigits(a).Some? && IntegerDigits(b).Some? then
      if IntegerDigits(a).value >= IntegerDigits(b).value then a else b
    else if (IsFloat(a) && IsExact(b)) || (IsFloat(b) && IsExact(a)) then Float64
    else if a.Decimal? && IntegerDigits(b).Some? then JoinDecimals(a.digits, IntegerDigits(b).value, 0)
    else if b.Decimal? && IntegerDigits(a).Some? then JoinDecimals(b.digits, IntegerDigits(a).value, 0)
    else if a.Decimal? && b.Decimal? then JoinDecimals(a.digits, b.digits.precision - b.digits.scale, b.digits.scale)
    else if a.Timestamp? && b.Timestamp? then Timestamp(Finest(a.unit, b.unit), JoinZones(a.zone, b.zone))
    else if a.Date? && b.Timestamp? then b
    else if a.Timestamp? && b.Date? then a
    else if a.Time? && b.Time? then Time(Finest(a.unit, b.unit))
    else if a.Duration? && b.Duration? then Duration(Finest(a.unit, b.unit))
    else Json
  }

  /** Where the field of a name is. */
  function Place(fields: seq<Field>, name: nat): (place: Option<nat>)
    ensures place.Some? ==> place.value < |fields| && fields[place.value].name == name
    ensures place.None? ==> forall i | 0 <= i < |fields| :: fields[i].name != name
  {
    if fields == [] then None
    else if fields[|fields| - 1].name == name then Some(|fields| - 1)
    else Place(fields[..|fields| - 1], name)
  }

  ghost predicate Ascending(names: seq<nat>) {
    forall i, j | 0 <= i < j < |names| :: names[i] < names[j]
  }

  /** The names with one more among them, in order. */
  function WithName(names: seq<nat>, name: nat): (more: seq<nat>)
    requires Ascending(names)
    ensures Ascending(more) && forall other :: other in more <==> other in names || other == name
  {
    if names == [] || names[|names| - 1] < name then names + [name]
    else if names[|names| - 1] == name then names
    else
      var init, last := names[..|names| - 1], names[|names| - 1];
      assert names == init + [last];
      var more := WithName(init, name);
      AscendingStill(init, name, more, last);
      more + [last]
  }

  lemma AscendingStill(init: seq<nat>, name: nat, more: seq<nat>, last: nat)
    requires Ascending(init + [last]) && Ascending(more) && name < last
    requires forall other :: other in more <==> other in init || other == name
    ensures Ascending(more + [last])
  {
    forall i | 0 <= i < |more| ensures more[i] < last {
      assert more[i] in more;
      if more[i] != name {
        var k :| 0 <= k < |init| && init[k] == more[i];
        assert (init + [last])[k] < (init + [last])[|init|];
      }
    }
  }

  /** The names of fields, in order, with those already there. */
  function Names(names: seq<nat>, fields: seq<Field>): (all: seq<nat>)
    requires Ascending(names)
    ensures Ascending(all)
    ensures forall name :: name in all <==> name in names || Place(fields, name).Some?
  {
    if fields == [] then names
    else WithName(Names(names, fields[..|fields| - 1]), fields[|fields| - 1].name)
  }

  /** The field of a name, if any. */
  function View(fields: seq<Field>, name: nat): (field: Option<Field>)
    ensures field.Some? ==> field.value.name == name && field.value in fields
  {
    if Place(fields, name).None? then None else Some(fields[Place(fields, name).value])
  }

  /** The least upper bound of two types. */
  function Join(a: Type, b: Type): Type
    decreases a, 2
  {
    if a == b then a
    else if a.Struct? && b.Struct? then Struct(JoinFields(a, b))
    else if a.List? && b.List? then List(Join(a.item, b.item), a.nullable || b.nullable)
    else JoinFlat(a, b)
  }

  /** The fields of two structs joined, in order of their names. */
  function JoinFields(a: Type, b: Type): seq<Field>
    requires a.Struct? && b.Struct?
    decreases a, 1
  {
    var names := Names(Names([], a.fields), b.fields);
    seq(|names|, i requires 0 <= i < |names| => JoinField(a, b, names[i]))
  }

  /** What two structs' fields of a name join to; one missing on one side becomes nullable. */
  function JoinField(a: Type, b: Type, name: nat): (field: Field)
    requires a.Struct? && b.Struct? && (Place(a.fields, name).Some? || Place(b.fields, name).Some?)
    ensures field.name == name
    decreases a, 0
  {
    var left, right := Place(a.fields, name), Place(b.fields, name);
    if left.None? then b.fields[right.value].(nullable := true)
    else if right.None? then a.fields[left.value].(nullable := true)
    else
      var l, r := a.fields[left.value], b.fields[right.value];
      Field(name, Join(l.logical, r.logical), l.nullable || r.nullable)
  }

  // ----- Structs, by name -----

  /** Whether fields are in order of their names, each once. */
  ghost predicate Ordered(fields: seq<Field>) {
    forall i, j | 0 <= i < j < |fields| :: fields[i].name < fields[j].name
  }

  function JoinViews(x: Option<Field>, y: Option<Field>): Option<Field> {
    if x.None? && y.None? then None
    else if x.None? then Some(y.value.(nullable := true))
    else if y.None? then Some(x.value.(nullable := true))
    else Some(Field(x.value.name, Join(x.value.logical, y.value.logical), x.value.nullable || y.value.nullable))
  }

  lemma JoinIsOrdered(a: Type, b: Type)
    requires a.Struct? && b.Struct?
    ensures Ordered(JoinFields(a, b))
  {
    var names, fields := Names(Names([], a.fields), b.fields), JoinFields(a, b);
    assert forall i | 0 <= i < |fields| :: fields[i].name == names[i];
  }

  lemma JoinFieldByView(a: Type, b: Type, name: nat)
    requires a.Struct? && b.Struct? && (Place(a.fields, name).Some? || Place(b.fields, name).Some?)
    ensures JoinViews(View(a.fields, name), View(b.fields, name)) == Some(JoinField(a, b, name))
  {
  }

  lemma NotAmong(fields: seq<Field>, names: seq<nat>, name: nat)
    requires |fields| == |names| && name !in names && forall i | 0 <= i < |fields| :: fields[i].name == names[i]
    ensures View(fields, name).None?
  {
  }

  lemma ViewOfJoin(a: Type, b: Type, name: nat)
    requires a.Struct? && b.Struct?
    ensures View(JoinFields(a, b), name) == JoinViews(View(a.fields, name), View(b.fields, name))
  {
    var names, fields := Names(Names([], a.fields), b.fields), JoinFields(a, b);
    JoinIsOrdered(a, b);
    if name in names {
      var i: nat :| i < |names| && names[i] == name;
      ViewAt(fields, i);
      JoinFieldByView(a, b, name);
    } else {
      NotAmong(fields, names, name);
    }
  }

  lemma ViewAt(fields: seq<Field>, i: nat)
    requires Ordered(fields) && i < |fields|
    ensures View(fields, fields[i].name) == Some(fields[i])
  {
  }

  /** Fields in order are the same where they are by name. */
  lemma {:induction false} SameViews(a: seq<Field>, b: seq<Field>)
    requires Ordered(a) && Ordered(b) && forall name :: View(a, name) == View(b, name)
    ensures a == b
  {
    if a == [] || b == [] {
      if a != [] {
        ViewAt(a, 0);
      } else if b != [] {
        ViewAt(b, 0);
      }
    } else {
      var x, y := a[|a| - 1], b[|b| - 1];
      ViewAt(a, |a| - 1);
      ViewAt(b, |b| - 1);
      assert x == y;
      var a', b' := a[..|a| - 1], b[..|b| - 1];
      forall name ensures View(a', name) == View(b', name) {
        ViewOfInit(a, name);
        ViewOfInit(b, name);
      }
      SameViews(a', b');
      assert a == a' + [x] && b == b' + [y];
    }
  }

  lemma ViewOfInit(fields: seq<Field>, name: nat)
    requires Ordered(fields) && fields != []
    ensures View(fields[..|fields| - 1], name)
         == if name == fields[|fields| - 1].name then None else View(fields, name)
  {
  }

  // ----- The laws of types that nest no others -----

  predicate IsFlat(t: Type) { !t.Struct? && !t.List? }

  /** What types of different families hold in common is JSON alone. */
  datatype Family = Nothing | Number | Instant | OfDay | Elapsed | Other | Any | Named | Items

  function FamilyOf(t: Type): Family {
    match t
    case Null => Nothing
    case Int8 => Number case Int16 => Number case Int32 => Number case Int64 => Number
    case Float32 => Number case Float64 => Number case Decimal(_) => Number
    case Date => Instant case Timestamp(_, _) => Instant
    case Time(_) => OfDay
    case Duration(_) => Elapsed
    case Bool => Other case Utf8 => Other case Binary => Other case Uuid => Other
    case Json => Any
    case Struct(_) => Named
    case List(_, _) => Items
  }

  lemma JsonAbsorbs(a: Type)
    ensures Join(a, Json) == Json && Join(Json, a) == Json
  {
  }

  lemma NullIsIdentity(a: Type)
    ensures Join(a, Null) == a && Join(Null, a) == a
  {
  }

  /** The join of types that nest no others. */
  function Flat(a: Type, b: Type): Type {
    if a == b then a else JoinFlat(a, b)
  }

  lemma JoinIsFlat(a: Type, b: Type)
    requires !(a.Struct? && b.Struct?) && !(a.List? && b.List?)
    ensures Join(a, b) == Flat(a, b)
  {
  }

  lemma FamiliesOfGuards(a: Type)
    ensures IsInt(a) || IsFloat(a) || IsExact(a) || a.Decimal? ==> FamilyOf(a) == Number
    ensures a.Timestamp? || a.Date? ==> FamilyOf(a) == Instant
    ensures a.Time? ==> FamilyOf(a) == OfDay
    ensures a.Duration? ==> FamilyOf(a) == Elapsed
  {
  }

  /** Types of different families join to JSON, and none but `Null` is of no family. */
  lemma {:induction false} Apart(a: Type, b: Type)
    requires FamilyOf(a) != FamilyOf(b) && !a.Null? && !b.Null?
    ensures Flat(a, b) == Json && Join(a, b) == Json
  {
    FamiliesOfGuards(a);
    FamiliesOfGuards(b);
    JoinIsFlat(a, b);
  }

  lemma Together(a: Type, b: Type)
    requires FamilyOf(a) == FamilyOf(b) && IsFlat(a)
    ensures FamilyOf(Flat(a, b)) in {FamilyOf(a), Any}
  {
  }

  predicate IsInt(t: Type) { IntegerDigits(t).Some? }

  predicate IsFixed(t: Type) { IsInt(t) || t.Decimal? }

  function Whole(t: Type): nat
    requires IsFixed(t)
  {
    if t.Decimal? then t.digits.precision - t.digits.scale else IntegerDigits(t).value
  }

  function Scale(t: Type): nat
    requires IsFixed(t)
  {
    if t.Decimal? then t.digits.scale else 0
  }

  lemma IntsJoin(a: Type, b: Type)
    requires IsInt(a) && IsInt(b)
    ensures IsInt(Flat(a, b)) && Whole(Flat(a, b)) == Max(Whole(a), Whole(b))
  {
  }

  lemma IntsByDigits(a: Type, b: Type)
    requires IsInt(a) && IsInt(b) && Whole(a) == Whole(b)
    ensures a == b
  {
  }

  /** A decimal joins a number of fixed digits as the decimal of as many digits as either has. */
  lemma DecimalsJoin(a: Type, b: Type)
    requires IsFixed(a) && IsFixed(b) && (a.Decimal? || b.Decimal?)
    ensures Max(Whole(a), Whole(b)) + Max(Scale(a), Scale(b)) > 0
    ensures Flat(a, b) == DecimalOf(Max(Whole(a), Whole(b)), Max(Scale(a), Scale(b)))
  {
  }

  lemma FixedAssociate(a: Type, b: Type, c: Type)
    requires IsFixed(a) && IsFixed(b) && IsFixed(c) && (a.Decimal? || b.Decimal? || c.Decimal?)
    ensures Flat(Flat(a, b), c) == Flat(a, Flat(b, c))
  {
    FixedInOrder(a, b, c);
    FixedLast(a, b, c);
  }

  lemma FixedLast(a: Type, b: Type, c: Type)
    requires IsFixed(a) && IsFixed(b) && IsFixed(c) && (a.Decimal? || b.Decimal? || c.Decimal?)
    ensures Max(Max(Whole(a), Whole(b)), Whole(c)) + Max(Max(Scale(a), Scale(b)), Scale(c)) > 0
    ensures Flat(a, Flat(b, c))
         == DecimalOf(Max(Max(Whole(a), Whole(b)), Whole(c)), Max(Max(Scale(a), Scale(b)), Scale(c)))
  {
    FixedInOrder(b, c, a);
    MaxTurns(Whole(a), Whole(b), Whole(c));
    MaxTurns(Scale(a), Scale(b), Scale(c));
    FlatCommutes(a, Flat(b, c));
  }

  lemma MaxTurns(a: nat, b: nat, c: nat)
    ensures Max(Max(a, b), c) == Max(Max(b, c), a)
  {
  }

  lemma DecimalThen(ab: Type, c: Type, whole: nat, scale: nat)
    requires whole + scale > 0 && ab == DecimalOf(whole, scale) && IsFixed(c)
    ensures Flat(ab, c) == DecimalOf(Max(whole, Whole(c)), Max(scale, Scale(c)))
  {
    if ab.Decimal? {
      DecimalsJoin(ab, c);
    }
  }

  lemma FixedInOrder(a: Type, b: Type, c: Type)
    requires IsFixed(a) && IsFixed(b) && IsFixed(c) && (a.Decimal? || b.Decimal? || c.Decimal?)
    ensures Max(Max(Whole(a), Whole(b)), Whole(c)) + Max(Max(Scale(a), Scale(b)), Scale(c)) > 0
    ensures Flat(Flat(a, b), c)
         == DecimalOf(Max(Max(Whole(a), Whole(b)), Whole(c)), Max(Max(Scale(a), Scale(b)), Scale(c)))
  {
    if a.Decimal? || b.Decimal? {
      DecimalsJoin(a, b);
      DecimalThen(Flat(a, b), c, Max(Whole(a), Whole(b)), Max(Scale(a), Scale(b)));
    } else {
      IntsJoin(a, b);
      DecimalsJoin(Flat(a, b), c);
    }
  }

  /** Where a float is among numbers, they join as `Float64` if it holds all of them exactly, and as
      JSON otherwise; one float alone stays itself. */
  lemma FloatsJoin(a: Type, b: Type)
    requires FamilyOf(a) == FamilyOf(b) == Number && (IsFloat(a) || IsFloat(b))
    ensures Flat(a, b) == if a == b then a else if IsExact(a) && IsExact(b) then Float64 else Json
  {
    assert a.Decimal? || b.Decimal? ==> !(IsInt(a) || IsInt(b)) || !IsExact(a) || !IsExact(b);
  }

  lemma FixedIsExact(a: Type, b: Type)
    requires IsFixed(a) && IsFixed(b)
    ensures IsExact(Flat(a, b)) <==> IsExact(a) && IsExact(b)
    ensures Flat(a, b) == Json || IsFixed(Flat(a, b))
  {
    if a.Decimal? || b.Decimal? {
      DecimalsJoin(a, b);
    } else {
      IntsJoin(a, b);
    }
  }

  lemma FloatsInOrder(a: Type, b: Type, c: Type)
    requires FamilyOf(a) == FamilyOf(b) == FamilyOf(c) == Number && (IsFloat(a) || IsFloat(b) || IsFloat(c))
    ensures Flat(Flat(a, b), c)
         == if a == b == c then a else if IsExact(a) && IsExact(b) && IsExact(c) then Float64 else Json
  {
    if IsFloat(a) || IsFloat(b) {
      FloatsJoin(a, b);
    } else {
      FixedIsExact(a, b);
    }
    FloatLast(Flat(a, b), c);
  }

  lemma FloatLast(joined: Type, c: Type)
    requires joined == Json || (FamilyOf(joined) == FamilyOf(c) == Number && (IsFloat(joined) || IsFloat(c)))
    ensures Flat(joined, c)
         == if joined == c then c else if IsExact(joined) && IsExact(c) then Float64 else Json
  {
    if joined == Json {
      FlatJson(c);
    } else {
      FloatsJoin(joined, c);
    }
  }

  lemma FloatsAssociate(a: Type, b: Type, c: Type)
    requires FamilyOf(a) == FamilyOf(b) == FamilyOf(c) == Number && (IsFloat(a) || IsFloat(b) || IsFloat(c))
    ensures Flat(Flat(a, b), c) == Flat(a, Flat(b, c))
  {
    FloatsInOrder(a, b, c);
    FloatsInOrder(c, b, a);
    FlatCommutes(a, Flat(b, c));
    FlatCommutes(b, c);
  }

  lemma NumbersAssociate(a: Type, b: Type, c: Type)
    requires FamilyOf(a) == FamilyOf(b) == FamilyOf(c) == Number
    ensures Flat(Flat(a, b), c) == Flat(a, Flat(b, c))
  {
    if IsFloat(a) || IsFloat(b) || IsFloat(c) {
      FloatsAssociate(a, b, c);
    } else if a.Decimal? || b.Decimal? || c.Decimal? {
      FixedAssociate(a, b, c);
    } else {
      IntsJoin(a, b);
      IntsJoin(b, c);
      IntsJoin(Flat(a, b), c);
      IntsJoin(a, Flat(b, c));
      IntsByDigits(Flat(Flat(a, b), c), Flat(a, Flat(b, c)));
    }
  }

  lemma ZonesAssociate(a: Option<string>, b: Option<string>, c: Option<string>)
    ensures JoinZones(JoinZones(a, b), c) == JoinZones(a, JoinZones(b, c))
  {
  }

  lemma UnitsAssociate(a: TimeUnit, b: TimeUnit, c: TimeUnit)
    ensures Finest(Finest(a, b), c) == Finest(a, Finest(b, c))
  {
  }

  lemma InstantsJoin(a: Type, b: Type)
    requires FamilyOf(a) == FamilyOf(b) == Instant
    ensures Flat(a, b)
         == if a.Date? then b else if b.Date? then a
            else Timestamp(Finest(a.unit, b.unit), JoinZones(a.zone, b.zone))
  {
  }

  lemma InstantsAssociate(a: Type, b: Type, c: Type)
    requires FamilyOf(a) == FamilyOf(b) == FamilyOf(c) == Instant
    ensures Flat(Flat(a, b), c) == Flat(a, Flat(b, c))
  {
    InstantsJoin(a, b);
    InstantsJoin(b, c);
    InstantsJoin(Flat(a, b), c);
    InstantsJoin(a, Flat(b, c));
    if a.Timestamp? && b.Timestamp? && c.Timestamp? {
      ZonesAssociate(a.zone, b.zone, c.zone);
      UnitsAssociate(a.unit, b.unit, c.unit);
    }
  }

  lemma UnitsJoin(a: Type, b: Type)
    requires (a.Time? && b.Time?) || (a.Duration? && b.Duration?)
    ensures Flat(a, b) == if a.Time? then Time(Finest(a.unit, b.unit)) else Duration(Finest(a.unit, b.unit))
  {
  }

  lemma OthersJoin(a: Type, b: Type)
    requires FamilyOf(a) == FamilyOf(b) == Other
    ensures Flat(a, b) == if a == b then a else Json
  {
  }

  lemma SpansAssociate(a: Type, b: Type, c: Type)
    requires (a.Time? && b.Time? && c.Time?) || (a.Duration? && b.Duration? && c.Duration?)
    ensures Flat(Flat(a, b), c) == Flat(a, Flat(b, c))
  {
    UnitsJoin(a, b);
    UnitsJoin(b, c);
    UnitsJoin(Flat(a, b), c);
    UnitsJoin(a, Flat(b, c));
    UnitsAssociate(a.unit, b.unit, c.unit);
  }

  lemma OthersAssociate(a: Type, b: Type, c: Type)
    requires FamilyOf(a) == FamilyOf(b) == FamilyOf(c) == Other
    ensures Flat(Flat(a, b), c) == Flat(a, Flat(b, c))
  {
    OthersJoin(a, b);
    OthersJoin(b, c);
    FlatJson(c);
    FlatJson(a);
  }

  lemma FlatJson(a: Type)
    ensures Flat(a, Json) == Json && Flat(Json, a) == Json
  {
  }

  /** One family's types associate. */
  lemma FamilyAssociates(a: Type, b: Type, c: Type)
    requires FamilyOf(a) == FamilyOf(b) == FamilyOf(c) && IsFlat(a)
    ensures Flat(Flat(a, b), c) == Flat(a, Flat(b, c))
  {
    match FamilyOf(a)
    case Number => NumbersAssociate(a, b, c);
    case Instant => InstantsAssociate(a, b, c);
    case OfDay => SpansAssociate(a, b, c);
    case Elapsed => SpansAssociate(a, b, c);
    case Other => OthersAssociate(a, b, c);
    case Nothing =>
    case Any =>
  }

  lemma {:induction false} FlatCommutes(a: Type, b: Type)
    requires !(a.Struct? && b.Struct?) && !(a.List? && b.List?)
    ensures Flat(a, b) == Flat(b, a)
  {
  }

  lemma FamiliesApart(a: Type, b: Type)
    requires FamilyOf(a) != FamilyOf(b) && !a.Null? && !b.Null?
    ensures Join(a, b) == Json && Join(b, a) == Json
  {
    Apart(a, b);
    Apart(b, a);
  }

  lemma {:induction false} ApartInside(a: Type, b: Type, c: Type)
    requires FamilyOf(a) != FamilyOf(b) && !a.Null? && !b.Null?
    ensures Join(Join(a, b), c) == Json && Join(c, Join(a, b)) == Json
  {
    FamiliesApart(a, b);
    JsonAbsorbs(c);
  }

  lemma {:induction false} ApartFirst(a: Type, b: Type, c: Type)
    requires FamilyOf(a) != FamilyOf(b) && !a.Null? && !b.Null? && !c.Null?
    ensures Join(a, Join(b, c)) == Json
  {
    JoinFamily(b, c);
    NotTheFamily(a, b, Join(b, c));
  }

  lemma {:induction false} ApartLast(a: Type, b: Type, c: Type)
    requires FamilyOf(b) != FamilyOf(c) && !a.Null? && !b.Null? && !c.Null?
    ensures Join(Join(a, b), c) == Json
  {
    JoinFamily(a, b);
    NotTheFamily(c, b, Join(a, b));
  }

  lemma JoinFamily(a: Type, b: Type)
    requires !a.Null? && !b.Null?
    ensures FamilyOf(Join(a, b)) in {FamilyOf(a), Any} && FamilyOf(Join(a, b)) in {FamilyOf(b), Any}
  {
    if FamilyOf(a) != FamilyOf(b) {
      Apart(a, b);
    } else if IsFlat(a) {
      Together(a, b);
      JoinIsFlat(a, b);
    } else {
      NestedStay(a, b);
    }
  }

  lemma NestedStay(a: Type, b: Type)
    requires (a.Struct? && b.Struct?) || (a.List? && b.List?)
    ensures FamilyOf(Join(a, b)) == FamilyOf(a)
  {
  }

  lemma NotTheFamily(a: Type, b: Type, joined: Type)
    requires FamilyOf(a) != FamilyOf(b) && FamilyOf(joined) in {FamilyOf(b), Any} && !a.Null? && !joined.Null?
    ensures Join(a, joined) == Json && Join(joined, a) == Json
  {
    JsonAbsorbs(a);
    JsonAbsorbs(joined);
    if FamilyOf(joined) == FamilyOf(b) {
      FamiliesApart(a, joined);
    }
  }

  // ----- The laws -----

  lemma ViewsCommute(x: Option<Field>, y: Option<Field>)
    requires x.Some? && y.Some? ==> x.value.name == y.value.name
                                    && Join(x.value.logical, y.value.logical) == Join(y.value.logical, x.value.logical)
    ensures JoinViews(x, y) == JoinViews(y, x)
  {
  }

  lemma {:induction false} JoinCommutes(a: Type, b: Type)
    ensures Join(a, b) == Join(b, a)
    decreases a
  {
    if a.Struct? && b.Struct? {
      forall name ensures View(JoinFields(a, b), name) == View(JoinFields(b, a), name) {
        ViewOfJoin(a, b, name);
        ViewOfJoin(b, a, name);
        var left, right := Place(a.fields, name), Place(b.fields, name);
        if left.Some? && right.Some? {
          JoinCommutes(a.fields[left.value].logical, b.fields[right.value].logical);
        }
        ViewsCommute(View(a.fields, name), View(b.fields, name));
      }
      JoinIsOrdered(a, b);
      JoinIsOrdered(b, a);
      SameViews(JoinFields(a, b), JoinFields(b, a));
    } else if a.List? && b.List? {
      JoinCommutes(a.item, b.item);
    } else {
      FlatCommutes(a, b);
    }
  }

  lemma ViewsAssociate(x: Option<Field>, y: Option<Field>, z: Option<Field>)
    requires x.Some? && y.Some? && z.Some? ==>
               Join(Join(x.value.logical, y.value.logical), z.value.logical)
               == Join(x.value.logical, Join(y.value.logical, z.value.logical))
    requires x.Some? && y.Some? ==> x.value.name == y.value.name
    requires y.Some? && z.Some? ==> y.value.name == z.value.name
    ensures JoinViews(JoinViews(x, y), z) == JoinViews(x, JoinViews(y, z))
  {
  }

  /** The fields of structs associate where the types of each name do. */
  lemma FieldsAssociate(a: Type, b: Type, c: Type)
    requires a.Struct? && b.Struct? && c.Struct?
    requires forall name :: NameAssociates(a, b, c, name)
    ensures JoinFields(Struct(JoinFields(a, b)), c) == JoinFields(a, Struct(JoinFields(b, c)))
  {
    var ab, bc := Struct(JoinFields(a, b)), Struct(JoinFields(b, c));
    forall name ensures View(JoinFields(ab, c), name) == View(JoinFields(a, bc), name) {
      ViewOfJoin(ab, c, name);
      ViewOfJoin(a, b, name);
      ViewOfJoin(a, bc, name);
      ViewOfJoin(b, c, name);
      assert NameAssociates(a, b, c, name);
      ViewsAssociate(View(a.fields, name), View(b.fields, name), View(c.fields, name));
    }
    JoinIsOrdered(ab, c);
    JoinIsOrdered(a, bc);
    SameViews(JoinFields(ab, c), JoinFields(a, bc));
  }

  ghost predicate NameAssociates(a: Type, b: Type, c: Type, name: nat)
    requires a.Struct? && b.Struct? && c.Struct?
  {
    var x, y, z := View(a.fields, name), View(b.fields, name), View(c.fields, name);
    x.Some? && y.Some? && z.Some? ==>
      Join(Join(x.value.logical, y.value.logical), z.value.logical)
      == Join(x.value.logical, Join(y.value.logical, z.value.logical))
  }

  /** The fields of a struct joined with itself are its own, in order. */
  lemma FieldsAgain(a: Type, name: nat)
    requires a.Struct?
    ensures View(JoinFields(a, a), name) == View(a.fields, name)
  {
    ViewOfJoin(a, a, name);
  }

  /** Joining takes a struct's fields by name alone. */
  lemma FieldsByName(a: Type, a': Type, b: Type)
    requires a.Struct? && a'.Struct? && b.Struct? && forall name :: View(a.fields, name) == View(a'.fields, name)
    ensures JoinFields(a, b) == JoinFields(a', b) && JoinFields(b, a) == JoinFields(b, a')
  {
    forall name ensures View(JoinFields(a, b), name) == View(JoinFields(a', b), name)
                ensures View(JoinFields(b, a), name) == View(JoinFields(b, a'), name) {
      ViewOfJoin(a, b, name);
      ViewOfJoin(a', b, name);
      ViewOfJoin(b, a, name);
      ViewOfJoin(b, a', name);
    }
    JoinIsOrdered(a, b);
    JoinIsOrdered(a', b);
    JoinIsOrdered(b, a);
    JoinIsOrdered(b, a');
    SameViews(JoinFields(a, b), JoinFields(a', b));
    SameViews(JoinFields(b, a), JoinFields(b, a'));
  }

  /** A join taken as it is, or with its fields in order, joins another alike. */
  lemma JoinedByName(a: Type, b: Type, c: Type)
    requires a.Struct? && b.Struct? && c.Struct?
    ensures Join(a, b).Struct?
    ensures JoinFields(Join(a, b), c) == JoinFields(Struct(JoinFields(a, b)), c)
    ensures JoinFields(c, Join(a, b)) == JoinFields(c, Struct(JoinFields(a, b)))
  {
    if a == b {
      forall name ensures View(JoinFields(a, a), name) == View(a.fields, name) {
        FieldsAgain(a, name);
      }
      FieldsByName(Join(a, b), Struct(JoinFields(a, b)), c);
    }
  }

  /** A join of two that differ is in order, so joining it with itself in any way gives it back. */
  lemma OrderedAgain(a: Type)
    requires a.Struct? && Ordered(a.fields)
    ensures JoinFields(a, a) == a.fields
  {
    forall name ensures View(JoinFields(a, a), name) == View(a.fields, name) {
      FieldsAgain(a, name);
    }
    JoinIsOrdered(a, a);
    SameViews(JoinFields(a, a), a.fields);
  }

  /** Structs not all alike join to their fields joined, whichever two are joined first. */
  lemma StructsLeft(a: Type, b: Type, c: Type)
    requires a.Struct? && b.Struct? && c.Struct? && !(a == b == c)
    ensures Join(Join(a, b), c) == Struct(JoinFields(Struct(JoinFields(a, b)), c))
  {
    JoinedByName(a, b, c);
    if Join(a, b) == c {
      JoinIsOrdered(a, b);
      OrderedAgain(c);
    }
  }

  lemma StructsRight(a: Type, b: Type, c: Type)
    requires a.Struct? && b.Struct? && c.Struct? && !(a == b == c)
    ensures Join(a, Join(b, c)) == Struct(JoinFields(a, Struct(JoinFields(b, c))))
  {
    JoinedByName(b, c, a);
    if a == Join(b, c) {
      JoinIsOrdered(b, c);
      OrderedAgain(a);
    }
  }

  lemma JoinSelf(a: Type)
    ensures Join(a, a) == a
  {
  }

  lemma {:induction false} ListsJoin(a: Type, b: Type)
    requires a.List? && b.List?
    ensures Join(a, b) == List(Join(a.item, b.item), a.nullable || b.nullable)
  {
    if a == b {
      JoinSelf(a);
      JoinSelf(a.item);
    }
  }

  lemma {:induction false} JoinAssociates(a: Type, b: Type, c: Type)
    ensures Join(Join(a, b), c) == Join(a, Join(b, c))
    decreases a
  {
    if a.Null? || b.Null? || c.Null? {
      NullIsIdentity(a);
      NullIsIdentity(b);
      NullIsIdentity(c);
      NullIsIdentity(Join(a, b));
      NullIsIdentity(Join(b, c));
    } else if FamilyOf(a) != FamilyOf(b) || FamilyOf(b) != FamilyOf(c) {
      if FamilyOf(a) != FamilyOf(b) {
        ApartInside(a, b, c);
        ApartFirst(a, b, c);
      } else {
        ApartInside(b, c, a);
        ApartLast(a, b, c);
      }
    } else if a.Struct? {
      if !(a == b == c) {
        forall name ensures NameAssociates(a, b, c, name) {
          var x, y, z := Place(a.fields, name), Place(b.fields, name), Place(c.fields, name);
          if x.Some? && y.Some? && z.Some? {
            JoinAssociates(a.fields[x.value].logical, b.fields[y.value].logical, c.fields[z.value].logical);
          }
        }
        FieldsAssociate(a, b, c);
        StructsLeft(a, b, c);
        StructsRight(a, b, c);
      }
    } else if a.List? {
      JoinAssociates(a.item, b.item, c.item);
      ListsJoin(a, b);
      ListsJoin(b, c);
      ListsJoin(Join(a, b), c);
      ListsJoin(a, Join(b, c));
    } else {
      FlatsAssociate(a, b, c);
    }
  }

  lemma FlatsAssociate(a: Type, b: Type, c: Type)
    requires FamilyOf(a) == FamilyOf(b) == FamilyOf(c) && IsFlat(a)
    ensures Join(Join(a, b), c) == Join(a, Join(b, c))
  {
    FamilyAssociates(a, b, c);
    FlatFirst(a, b, c);
    FlatLast(a, b, c);
  }

  lemma FlatFirst(a: Type, b: Type, c: Type)
    requires FamilyOf(a) == FamilyOf(b) == FamilyOf(c) && IsFlat(a)
    ensures Join(Join(a, b), c) == Flat(Flat(a, b), c)
  {
    Together(a, b);
    JoinIsFlat(a, b);
    JoinIsFlat(Flat(a, b), c);
  }

  lemma FlatLast(a: Type, b: Type, c: Type)
    requires FamilyOf(a) == FamilyOf(b) == FamilyOf(c) && IsFlat(a)
    ensures Join(a, Join(b, c)) == Flat(a, Flat(b, c))
  {
    Together(b, c);
    JoinIsFlat(b, c);
    JoinIsFlat(a, Flat(b, c));
  }

  /** Whether a type is at or below another. */
  predicate Within(a: Type, b: Type) { Join(b, a) == b }

  /** The join is above both, and nothing above both is not above it. */
  lemma JoinIsLeast(a: Type, b: Type, c: Type)
    ensures Within(a, Join(a, b)) && Within(b, Join(a, b))
    ensures Within(a, c) && Within(b, c) ==> Within(Join(a, b), c)
  {
    JoinAssociates(a, b, b);
    JoinCommutes(a, b);
    JoinAssociates(b, a, a);
    JoinAssociates(c, a, b);
  }

  lemma WithinIsTransitive(a: Type, b: Type, c: Type)
    requires Within(a, b) && Within(b, c)
    ensures Within(a, c)
  {
    JoinAssociates(c, b, a);
  }
}
