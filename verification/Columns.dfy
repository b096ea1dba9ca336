/** A table's columns under schema changes, each idempotent, so that a history of them may be sent again from
    any point. */
module Columns {
  import opened Wrappers
  import opened Lattice

  datatype Change =
    | Create(declared: seq<Field>)
    | AddColumn(field: Field)
    | Widen(column: nat, to: Type)

  datatype Refusal = NoTable | NoColumn | Conflict

  /** The first column of a name. */
  function Find(fields: seq<Field>, name: nat): (found: Option<nat>)
    ensures found.Some? ==> found.value < |fields| && fields[found.value].name == name
    ensures found.None? ==> forall i | 0 <= i < |fields| :: fields[i].name != name
  {
    if fields == [] then None
    else if fields[0].name == name then Some(0)
    else
      var rest := Find(fields[1..], name);
      assert forall i | 1 <= i < |fields| :: fields[i] == fields[1..][i - 1];
      if rest.None? then None else Some(rest.value + 1)
  }

  ghost predicate Distinct(fields: seq<Field>) {
    forall i, j | 0 <= i < j < |fields| :: fields[i].name != fields[j].name
  }

  /** A column added at the end, made nullable; one already wide enough under that name stands in for it. */
  function Added(fields: seq<Field>, field: Field): Result<seq<Field>, Refusal> {
    match Find(fields, field.name)
    case None => Ok(fields + [field.(nullable := true)])
    case Some(i) => if Within(field.logical, fields[i].logical) then Ok(fields) else Err(Conflict)
  }

  function AddedAll(fields: seq<Field>, declared: seq<Field>): Result<seq<Field>, Refusal> {
    if declared == [] then Ok(fields)
    else
      var before := AddedAll(fields, declared[..|declared| - 1]);
      if before.Err? then before else Added(before.value, declared[|declared| - 1])
  }

  /** A column moved up to the join with another type. */
  function Widened(fields: seq<Field>, column: nat, to: Type): Result<seq<Field>, Refusal> {
    match Find(fields, column)
    case None => Err(NoColumn)
    case Some(i) => Ok(fields[i := fields[i].(logical := Join(fields[i].logical, to))])
  }

  /** One schema change, on a table or on none, where only a creation is one. */
  function Changed(schema: Option<seq<Field>>, change: Change): Result<seq<Field>, Refusal> {
    if schema.None? then if change.Create? then Ok(change.declared) else Err(NoTable)
    else
      match change
      case Create(declared) => AddedAll(schema.value, declared)
      case AddColumn(field) => Added(schema.value, field)
      case Widen(column, to) => Widened(schema.value, column, to)
  }

  method Apply(schema: Option<seq<Field>>, change: Change) returns (columns: Result<seq<Field>, Refusal>)
    ensures columns == Changed(schema, change)
  {
    if schema.None? {
      return if change.Create? then Ok(change.declared) else Err(NoTable);
    }
    var fields := schema.value;
    match change
    case Create(declared) =>
      for i := 0 to |declared|
        invariant AddedAll(schema.value, declared[..i]) == Ok(fields)
      {
        assert declared[..i + 1][..i] == declared[..i];
        var added := Added(fields, declared[i]);
        if added.Err? {
          RefusedOnce(schema.value, declared, i + 1);
          return added;
        }
        fields := added.value;
      }
      assert declared[..|declared|] == declared;
      return Ok(fields);
    case AddColumn(field) => return Added(fields, field);
    case Widen(column, to) =>
      var found := Find(fields, column);
      if found.None? {
        return Err(NoColumn);
      }
      var i := found.value;
      if !Within(to, fields[i].logical) {
        fields := fields[i := fields[i].(logical := Join(fields[i].logical, to))];
      } else {
        assert fields[i := fields[i]] == fields;
      }
      return Ok(fields);
  }

  /** A declaration refused at one column is refused whole. */
  lemma {:induction false} RefusedOnce(fields: seq<Field>, declared: seq<Field>, n: nat)
    requires n <= |declared| && AddedAll(fields, declared[..n]).Err?
    ensures AddedAll(fields, declared) == AddedAll(fields, declared[..n])
  {
    if n < |declared| {
      var init := declared[..|declared| - 1];
      assert init[..n] == declared[..n];
      RefusedOnce(fields, init, n);
    } else {
      assert declared[..n] == declared;
    }
  }

  // ----- Columns grow -----

  /** Whether a column is still where it was, at a type that holds its own. */
  predicate GrownAt(before: seq<Field>, after: seq<Field>, i: nat) {
    i < |before| ==>
      && i < |after| && after[i].name == before[i].name && after[i].nullable == before[i].nullable
      && Within(before[i].logical, after[i].logical)
  }

  ghost predicate Grown(before: seq<Field>, after: seq<Field>) {
    forall i: nat :: GrownAt(before, after, i)
  }

  /** Whether a column of the name holds a type's values. */
  ghost predicate Has(fields: seq<Field>, name: nat, logical: Type) {
    exists i :: 0 <= i < |fields| && HasAt(fields[i], name, logical)
  }

  predicate HasAt(field: Field, name: nat, logical: Type) {
    field.name == name && Within(logical, field.logical)
  }

  ghost predicate DeclaredAt(fields: seq<Field>, declared: seq<Field>, i: nat) {
    i < |declared| ==> Has(fields, declared[i].name, declared[i].logical)
  }

  /** Whether the columns already reflect a change. */
  ghost predicate Reflects(fields: seq<Field>, change: Change) {
    match change
    case Create(declared) => forall i: nat :: DeclaredAt(fields, declared, i)
    case AddColumn(field) => Has(fields, field.name, field.logical)
    case Widen(column, to) => Has(fields, column, to)
  }

  lemma GrownIsTransitive(a: seq<Field>, b: seq<Field>, c: seq<Field>)
    requires Grown(a, b) && Grown(b, c)
    ensures Grown(a, c)
  {
    forall i: nat ensures GrownAt(a, c, i) {
      assert GrownAt(a, b, i) && GrownAt(b, c, i);
      if i < |a| {
        WithinIsTransitive(a[i].logical, b[i].logical, c[i].logical);
      }
    }
  }

  lemma GrownHas(before: seq<Field>, after: seq<Field>, name: nat, logical: Type)
    requires Grown(before, after) && Has(before, name, logical)
    ensures Has(after, name, logical)
  {
    var i: nat :| i < |before| && HasAt(before[i], name, logical);
    assert GrownAt(before, after, i);
    WithinIsTransitive(logical, before[i].logical, after[i].logical);
    assert HasAt(after[i], name, logical);
  }

  /** What the columns reflect they reflect for ever. */
  lemma GrownReflects(before: seq<Field>, after: seq<Field>, change: Change)
    requires Grown(before, after) && Reflects(before, change)
    ensures Reflects(after, change)
  {
    match change
    case Create(declared) =>
      forall i: nat ensures DeclaredAt(after, declared, i) {
        assert DeclaredAt(before, declared, i);
        if i < |declared| {
          GrownHas(before, after, declared[i].name, declared[i].logical);
        }
      }
    case AddColumn(field) => GrownHas(before, after, field.name, field.logical);
    case Widen(column, to) => GrownHas(before, after, column, to);
  }

  lemma AddingGrows(fields: seq<Field>, field: Field)
    requires Distinct(fields) && Added(fields, field).Ok?
    ensures var after := Added(fields, field).value;
            Distinct(after) && Grown(fields, after) && Has(after, field.name, field.logical)
  {
    var after := Added(fields, field).value;
    forall i: nat ensures GrownAt(fields, after, i) {
    }
    match Find(fields, field.name)
    case None => assert HasAt(after[|fields|], field.name, field.logical);
    case Some(i) => assert HasAt(after[i], field.name, field.logical);
  }

  lemma {:induction false} AddingAllGrows(fields: seq<Field>, declared: seq<Field>)
    requires Distinct(fields) && AddedAll(fields, declared).Ok?
    ensures var after := AddedAll(fields, declared).value;
            Distinct(after) && Grown(fields, after) && Reflects(after, Create(declared))
  {
    if declared == [] {
      assert forall i: nat :: GrownAt(fields, fields, i);
    } else {
      var init, last := declared[..|declared| - 1], declared[|declared| - 1];
      AddingAllGrows(fields, init);
      var before := AddedAll(fields, init).value;
      var after := Added(before, last).value;
      AddingGrows(before, last);
      GrownIsTransitive(fields, before, after);
      forall i: nat ensures DeclaredAt(after, declared, i) {
        assert DeclaredAt(before, init, i);
        if i < |init| {
          GrownHas(before, after, init[i].name, init[i].logical);
        }
      }
    }
  }

  lemma WideningGrows(fields: seq<Field>, column: nat, to: Type)
    requires Distinct(fields) && Widened(fields, column, to).Ok?
    ensures var after := Widened(fields, column, to).value;
            Distinct(after) && Grown(fields, after) && Has(after, column, to)
  {
    var i, after := Find(fields, column).value, Widened(fields, column, to).value;
    JoinIsLeast(fields[i].logical, to, Null);
    forall j: nat ensures GrownAt(fields, after, j) {
    }
    assert HasAt(after[i], column, to);
  }

  /** A change that succeeds leaves every column where it was, at a type that holds its own, and is
      reflected from then on. */
  lemma ChangingGrows(schema: Option<seq<Field>>, change: Change)
    requires schema.Some? ==> Distinct(schema.value)
    requires change.Create? ==> Distinct(change.declared)
    requires Changed(schema, change).Ok?
    ensures var after := Changed(schema, change).value;
            && Distinct(after) && Reflects(after, change)
            && (schema.Some? ==> Grown(schema.value, after))
  {
    if schema.None? {
      var declared := change.declared;
      forall i: nat ensures DeclaredAt(declared, declared, i) {
        assert i < |declared| ==> HasAt(declared[i], declared[i].name, declared[i].logical);
      }
    } else {
      match change
      case Create(declared) => AddingAllGrows(schema.value, declared);
      case AddColumn(field) => AddingGrows(schema.value, field);
      case Widen(column, to) => WideningGrows(schema.value, column, to);
    }
  }

  lemma HasIsFound(fields: seq<Field>, name: nat, logical: Type)
    requires Distinct(fields) && Has(fields, name, logical)
    ensures Find(fields, name).Some? && Within(logical, fields[Find(fields, name).value].logical)
  {
    var i :| 0 <= i < |fields| && HasAt(fields[i], name, logical);
    assert Find(fields, name).Some?;
  }

  lemma {:induction false} AddingAllAgain(fields: seq<Field>, declared: seq<Field>)
    requires Distinct(fields) && Reflects(fields, Create(declared))
    ensures AddedAll(fields, declared) == Ok(fields)
  {
    if declared != [] {
      var init, last := declared[..|declared| - 1], declared[|declared| - 1];
      forall i: nat ensures DeclaredAt(fields, init, i) {
        assert DeclaredAt(fields, declared, i);
      }
      AddingAllAgain(fields, init);
      assert DeclaredAt(fields, declared, |init|);
      HasIsFound(fields, last.name, last.logical);
    }
  }

  /** A change the columns reflect succeeds and changes nothing. */
  lemma ReflectedChangesNothing(fields: seq<Field>, change: Change)
    requires Distinct(fields) && Reflects(fields, change)
    ensures Changed(Some(fields), change) == Ok(fields)
  {
    match change
    case Create(declared) => AddingAllAgain(fields, declared);
    case AddColumn(field) => HasIsFound(fields, field.name, field.logical);
    case Widen(column, to) =>
      HasIsFound(fields, column, to);
      var i := Find(fields, column).value;
      assert fields[i := fields[i]] == fields;
  }

  // ----- When a change succeeds, and what it adds -----

  predicate Named(fields: seq<Field>, name: nat) { exists i | 0 <= i < |fields| :: fields[i].name == name }

  /** Whether no column of a declared one's name is too narrow for it. */
  ghost predicate Fit(fields: seq<Field>, declared: seq<Field>) {
    forall i, j | 0 <= i < |fields| && 0 <= j < |declared| && fields[i].name == declared[j].name ::
      Within(declared[j].logical, fields[i].logical)
  }

  /** The declared columns of whose names there is none, in order, made nullable. */
  function Missing(fields: seq<Field>, declared: seq<Field>): (missing: seq<Field>)
    ensures forall m | m in missing :: !Named(fields, m.name) && Named(declared, m.name)
  {
    if declared == [] then []
    else
      var init, last := declared[..|declared| - 1], declared[|declared| - 1];
      var missing := Missing(fields, init);
      assert forall m | m in missing :: Named(declared, m.name) by {
        assert forall i | 0 <= i < |init| :: init[i] == declared[i];
      }
      assert declared[|init|].name == last.name;
      if Named(fields, last.name) then missing else missing + [last.(nullable := true)]
  }

  lemma FitOfMore(fields: seq<Field>, declared: seq<Field>, i: nat)
    requires declared != [] && Distinct(fields)
    requires i < |fields| && fields[i].name == declared[|declared| - 1].name
    ensures Fit(fields, declared) <==>
            Fit(fields, declared[..|declared| - 1]) && Within(declared[|declared| - 1].logical, fields[i].logical)
  {
    var init := declared[..|declared| - 1];
    assert forall j | 0 <= j < |init| :: init[j] == declared[j];
  }

  lemma FitOfNew(fields: seq<Field>, declared: seq<Field>)
    requires declared != [] && !Named(fields, declared[|declared| - 1].name)
    ensures Fit(fields, declared) <==> Fit(fields, declared[..|declared| - 1])
  {
    var init := declared[..|declared| - 1];
    assert forall j | 0 <= j < |init| :: init[j] == declared[j];
  }

  /** Of columns with others added after them, the one of a name is where it was. */
  lemma FoundWhereItWas(fields: seq<Field>, more: seq<Field>, name: nat)
    requires Distinct(fields) && forall m | m in more :: m.name != name
    ensures var found := Find(fields + more, name);
            && (found.Some? <==> Named(fields, name))
            && (found.Some? ==> found.value < |fields| && fields[found.value].name == name)
  {
    forall k | |fields| <= k < |fields + more| ensures (fields + more)[k].name != name {
      assert (fields + more)[k] == more[k - |fields|];
    }
    if Named(fields, name) {
      var i :| 0 <= i < |fields| && fields[i].name == name;
      assert (fields + more)[i].name == name;
    }
  }

  /** A declaration succeeds exactly where no column of a declared one's name is too narrow for it, and adds
      exactly the columns there are none of, in order, after those there are. */
  lemma {:induction false} DeclaringAddsWhatIsMissing(fields: seq<Field>, declared: seq<Field>)
    requires Distinct(fields) && Distinct(declared)
    ensures AddedAll(fields, declared)
         == if Fit(fields, declared) then Ok(fields + Missing(fields, declared)) else Err(Conflict)
  {
    if declared == [] {
      assert fields + [] == fields;
    } else {
      var init, last := declared[..|declared| - 1], declared[|declared| - 1];
      DeclaringAddsWhatIsMissing(fields, init);
      var missing := Missing(fields, init);
      forall m | m in missing ensures m.name != last.name {
        assert Named(init, m.name);
        assert forall j | 0 <= j < |init| :: init[j].name != last.name;
      }
      FoundWhereItWas(fields, missing, last.name);
      var found := Find(fields + missing, last.name);
      if found.Some? {
        FitOfMore(fields, declared, found.value);
      } else {
        FitOfNew(fields, declared);
        assert fields + missing + [last.(nullable := true)] == fields + Missing(fields, declared);
      }
    }
  }

  /** To add a column is to declare it alone. */
  lemma AddingIsDeclaring(fields: seq<Field>, field: Field)
    ensures Changed(Some(fields), AddColumn(field)) == Changed(Some(fields), Create([field]))
  {
    assert [field][..0] == [];
    assert AddedAll(fields, []) == Ok(fields);
  }

  // ----- Replays -----

  function Applied(schema: Option<seq<Field>>, changes: seq<Change>): Result<Option<seq<Field>>, Refusal> {
    if changes == [] then Ok(schema)
    else
      var before := Applied(schema, changes[..|changes| - 1]);
      if before.Err? then before
      else
        var after := Changed(before.value, changes[|changes| - 1]);
        if after.Err? then Err(after.error) else Ok(Some(after.value))
  }

  ghost predicate Declares(changes: seq<Change>) {
    forall i | 0 <= i < |changes| && changes[i].Create? :: Distinct(changes[i].declared)
  }

  lemma {:induction false} AppliedReflects(changes: seq<Change>, k: nat)
    requires Declares(changes) && Applied(None, changes).Ok? && k < |changes|
    ensures var schema := Applied(None, changes).value;
            schema.Some? && Distinct(schema.value) && Reflects(schema.value, changes[k])
  {
    var init, last := changes[..|changes| - 1], changes[|changes| - 1];
    assert forall i | 0 <= i < |init| :: init[i] == changes[i];
    var before := Applied(None, init).value;
    if init != [] {
      AppliedReflects(init, if k < |init| then k else 0);
      ChangingGrows(before, last);
      if k < |init| {
        GrownReflects(before.value, Applied(None, changes).value.value, changes[k]);
      }
    } else {
      ChangingGrows(None, last);
    }
  }

  /** However changes that succeeded are replayed afterwards, any of them, any number of times and in
      any order, every one succeeds and the columns stay as they are. */
  lemma {:induction false} ReplaysChangeNothing(changes: seq<Change>, replayed: seq<Change>)
    requires Declares(changes) && Applied(None, changes).Ok? && changes != []
    requires forall change | change in replayed :: change in changes
    ensures Applied(Applied(None, changes).value, replayed) == Applied(None, changes)
  {
    if replayed != [] {
      var init, last := replayed[..|replayed| - 1], replayed[|replayed| - 1];
      ReplaysChangeNothing(changes, init);
      assert last in changes;
      var k: nat :| k < |changes| && changes[k] == last;
      AppliedReflects(changes, k);
      ReflectedChangesNothing(Applied(None, changes).value.value, last);
    }
  }

  // ----- Widenings converge -----

  function Widens(column: nat, types: seq<Type>): seq<Change> {
    seq(|types|, i requires 0 <= i < |types| => Widen(column, types[i]))
  }

  function JoinAll(logical: Type, types: seq<Type>): Type {
    if types == [] then logical else Join(JoinAll(logical, types[..|types| - 1]), types[|types| - 1])
  }

  lemma {:induction false} WideningJoins(fields: seq<Field>, column: nat, i: nat, types: seq<Type>)
    requires Distinct(fields) && i < |fields| && fields[i].name == column
    ensures Applied(Some(fields), Widens(column, types))
         == Ok(Some(fields[i := fields[i].(logical := JoinAll(fields[i].logical, types))]))
  {
    if types == [] {
      assert fields[i := fields[i]] == fields;
    } else {
      var init := types[..|types| - 1];
      WideningJoins(fields, column, i, init);
      assert Widens(column, types)[..|types| - 1] == Widens(column, init);
      var before := fields[i := fields[i].(logical := JoinAll(fields[i].logical, init))];
      assert before[i].name == column && forall j | 0 <= j < |before| :: before[j].name == fields[j].name;
      assert Find(before, column) == Some(i);
      var last := Join(before[i].logical, types[|types| - 1]);
      assert before[i := before[i].(logical := last)] == fields[i := fields[i].(logical := last)];
    }
  }

  predicate WithinAt(types: seq<Type>, holder: Type, i: nat) {
    i < |types| ==> Within(types[i], holder)
  }

  ghost predicate AllWithin(types: seq<Type>, holder: Type) {
    forall i: nat :: WithinAt(types, holder, i)
  }

  /** What widenings come to holds the column's type and each of theirs. */
  lemma {:induction false} JoinAllHolds(logical: Type, types: seq<Type>)
    ensures Within(logical, JoinAll(logical, types)) && AllWithin(types, JoinAll(logical, types))
  {
    if types != [] {
      var init, last := types[..|types| - 1], types[|types| - 1];
      var before, after := JoinAll(logical, init), JoinAll(logical, types);
      JoinAllHolds(logical, init);
      JoinIsLeast(before, last, after);
      WithinIsTransitive(logical, before, after);
      forall i: nat ensures WithinAt(types, after, i) {
        assert WithinAt(init, before, i);
        if i < |init| {
          WithinIsTransitive(init[i], before, after);
        }
      }
    }
  }

  /** And nothing that holds them all is narrower. */
  lemma {:induction false} JoinAllIsLeast(logical: Type, types: seq<Type>, holder: Type)
    requires Within(logical, holder) && AllWithin(types, holder)
    ensures Within(JoinAll(logical, types), holder)
  {
    if types != [] {
      var init, last := types[..|types| - 1], types[|types| - 1];
      forall i: nat ensures WithinAt(init, holder, i) {
        assert WithinAt(types, holder, i);
      }
      assert WithinAt(types, holder, |init|);
      JoinAllIsLeast(logical, init, holder);
      JoinIsLeast(JoinAll(logical, init), last, holder);
    }
  }

  /** Widenings of one column to the same types, in any order and however often each, come to the same
      columns. */
  lemma WideningsConverge(fields: seq<Field>, column: nat, some: seq<Type>, others: seq<Type>)
    requires Distinct(fields) && Find(fields, column).Some?
    requires forall logical :: logical in some <==> logical in others
    ensures Applied(Some(fields), Widens(column, some)).Ok?
    ensures Applied(Some(fields), Widens(column, some)) == Applied(Some(fields), Widens(column, others))
  {
    var i := Find(fields, column).value;
    var logical := fields[i].logical;
    WideningJoins(fields, column, i, some);
    WideningJoins(fields, column, i, others);
    JoinAllOfSame(logical, some, others);
  }

  lemma JoinAllOfSame(logical: Type, some: seq<Type>, others: seq<Type>)
    requires forall t :: t in some <==> t in others
    ensures JoinAll(logical, some) == JoinAll(logical, others)
  {
    var a, b := JoinAll(logical, some), JoinAll(logical, others);
    JoinAllHolds(logical, some);
    JoinAllHolds(logical, others);
    HeldByAll(some, others, b);
    HeldByAll(others, some, a);
    JoinAllIsLeast(logical, some, b);
    JoinAllIsLeast(logical, others, a);
    JoinCommutes(a, b);
  }

  lemma HeldByAll(some: seq<Type>, others: seq<Type>, holder: Type)
    requires (forall t | t in some :: t in others) && AllWithin(others, holder)
    ensures AllWithin(some, holder)
  {
    forall i: nat ensures WithinAt(some, holder, i) {
      if i < |some| {
        assert some[i] in some;
        var k: nat :| k < |others| && others[k] == some[i];
        assert WithinAt(others, holder, k);
      }
    }
  }
}
