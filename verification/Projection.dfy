/** Batches projected without a stream's excluded columns, keeping what was worked out for the schema
    met last. */
module Projection {
  import opened Wrappers
  import opened Flags

  datatype Field = Field(name: nat, logical: nat)

  /** The name of the column of unchanged flags. */
  const UNCHANGED: nat := 0

  /** A schema batches share: two are one where they are one object, and equal where their fields
      are. */
  class Schema {
    const fields: seq<Field>

    constructor (fields: seq<Field>)
      ensures this.fields == fields
    {
      this.fields := fields;
    }
  }

  /** A column's values, or a column of unchanged flags. */
  datatype Column = Values(values: nat) | Bitmaps(rows: seq<Option<Bitmap>>)

  datatype Batch = Batch(schema: Schema, columns: seq<Column>)

  /** What a batch holds, whatever object its schema is. */
  datatype Contents = Contents(fields: seq<Field>, columns: seq<Column>)

  function ContentsOf(batch: Batch): Contents { Contents(batch.schema.fields, batch.columns) }

  predicate WellFormed(contents: Contents) { |contents.columns| == |contents.fields| }

  // ----- What is kept -----

  /** Where each kept column of the first `n` sits, in order. */
  function Kept(fields: seq<Field>, exclusion: set<nat>, n: nat): (columns: seq<nat>)
    requires n <= |fields|
    ensures |columns| <= n && forall k | 0 <= k < |columns| :: columns[k] < n
  {
    if n == 0 then []
    else
      var before := Kept(fields, exclusion, n - 1);
      if fields[n - 1].name in exclusion then before else before + [n - 1]
  }

  /** Each of the first `n` columns' place in a projection, if it has one. */
  function Places(fields: seq<Field>, exclusion: set<nat>, n: nat): (places: seq<Option<nat>>)
    requires n <= |fields|
    ensures |places| == n
  {
    if n == 0 then []
    else
      Places(fields, exclusion, n - 1)
      + [if fields[n - 1].name in exclusion then None else Some(|Kept(fields, exclusion, n - 1)|)]
  }

  function At<T>(all: seq<T>, places: seq<nat>): (picked: seq<T>)
    requires forall k | 0 <= k < |places| :: places[k] < |all|
    ensures |picked| == |places| && forall k | 0 <= k < |places| :: picked[k] == all[places[k]]
  {
    seq(|places|, k requires 0 <= k < |places| => all[places[k]])
  }

  predicate Excludes(exclusion: set<nat>, fields: seq<Field>) {
    exists i | 0 <= i < |fields| :: fields[i].name in exclusion
  }

  function RemappedRows(rows: seq<Option<Bitmap>>, to: seq<Option<nat>>): (remapped: seq<Option<Bitmap>>)
    ensures |remapped| == |rows|
    ensures forall i | 0 <= i < |rows| ::
              remapped[i] == if rows[i].None? then None else Some(Remapped(rows[i].value, to))
  {
    seq(|rows|, i requires 0 <= i < |rows| => if rows[i].None? then None else Some(Remapped(rows[i].value, to)))
  }

  /** A column as it is kept: flags are moved to the ordinals the kept columns take. */
  function KeptColumn(field: Field, column: Column, places: seq<Option<nat>>): Column {
    if field.name == UNCHANGED && column.Bitmaps? then Bitmaps(RemappedRows(column.rows, places)) else column
  }

  /** A batch without the excluded columns, its flags moved where it is a change batch. */
  function Projected(contents: Contents, exclusion: set<nat>, changes: bool): Contents
    requires WellFormed(contents)
  {
    if !Excludes(exclusion, contents.fields) then contents
    else
      var kept := Kept(contents.fields, exclusion, |contents.fields|);
      var places := Places(contents.fields, exclusion, |contents.fields|);
      var fields, columns := At(contents.fields, kept), At(contents.columns, kept);
      Contents(fields, if changes then KeptColumns(fields, columns, places) else columns)
  }

  function KeptColumns(fields: seq<Field>, columns: seq<Column>, places: seq<Option<nat>>): (kept: seq<Column>)
    requires |fields| == |columns|
    ensures |kept| == |columns|
    ensures forall k | 0 <= k < |kept| :: kept[k] == KeptColumn(fields[k], columns[k], places)
  {
    seq(|columns|, k requires 0 <= k < |columns| => KeptColumn(fields[k], columns[k], places))
  }

  /** What was worked out for a schema: the schema its batches are projected to, which columns are
      kept, and where each goes; none where it holds no excluded column. */
  datatype Work = Work(schema: Schema, columns: seq<nat>, places: seq<Option<nat>>)

  datatype Last = Last(from: Schema, kept: Option<Work>)

  predicate IsWorkOf(work: Option<Work>, fields: seq<Field>, exclusion: set<nat>) {
    if !Excludes(exclusion, fields) then work.None?
    else
      && work.Some?
      && work.value.columns == Kept(fields, exclusion, |fields|)
      && work.value.places == Places(fields, exclusion, |fields|)
      && work.value.schema.fields == At(fields, work.value.columns)
  }

  class Projection {
    const exclusion: set<nat>
    var last: Option<Last>

    ghost predicate Valid()
      reads this
    {
      last.Some? ==> IsWorkOf(last.value.kept, last.value.from.fields, exclusion)
    }

    constructor (exclusion: set<nat>)
      ensures Valid() && this.exclusion == exclusion
    {
      this.exclusion := exclusion;
      last := None;
    }

    /** The projection of a schema, from the cache where it is for that schema or already made it. */
    method WorkFor(schema: Schema) returns (kept: Option<Work>)
      requires Valid()
      modifies this
      ensures Valid() && IsWorkOf(kept, schema.fields, exclusion)
    {
      if exclusion == {} {
        return None;
      }
      if last.Some? && last.value.kept.Some? && last.value.kept.value.schema == schema {
        KeptExcludesNone(last.value.from.fields, exclusion);
        return None;
      }
      var met := last.Some? && (last.value.from == schema || last.value.from.fields == schema.fields);
      if !met {
        var worked := WorkOut(schema, exclusion);
        last := Some(worked);
      }
      return last.value.kept;
    }

    method Arrow(batch: Batch) returns (projected: Batch)
      requires Valid() && WellFormed(ContentsOf(batch))
      modifies this
      ensures Valid() && ContentsOf(projected) == Projected(ContentsOf(batch), exclusion, false)
    {
      var kept := WorkFor(batch.schema);
      if kept.None? {
        return batch;
      }
      return Batch(kept.value.schema, At(batch.columns, kept.value.columns));
    }

    method Changes(batch: Batch) returns (projected: Batch)
      requires Valid() && WellFormed(ContentsOf(batch))
      modifies this
      ensures Valid() && ContentsOf(projected) == Projected(ContentsOf(batch), exclusion, true)
    {
      var kept := WorkFor(batch.schema);
      if kept.None? {
        return batch;
      }
      var work := kept.value;
      var columns := MoveFlags(work.schema.fields, At(batch.columns, work.columns), work.places);
      return Batch(work.schema, columns);
    }
  }

  /** The columns with each that holds flags over the kept columns' ordinals instead. */
  method MoveFlags(fields: seq<Field>, kept: seq<Column>, places: seq<Option<nat>>) returns (columns: seq<Column>)
    requires |fields| == |kept|
    ensures columns == KeptColumns(fields, kept, places)
  {
    columns := kept;
    for k := 0 to |columns|
      invariant |columns| == |kept|
      invariant forall i | 0 <= i < |columns| ::
                  columns[i] == if i < k then KeptColumn(fields[i], kept[i], places) else kept[i]
    {
      if fields[k].name == UNCHANGED && columns[k].Bitmaps? {
        var remapped := RemapUnchanged(columns[k].rows, places);
        assert remapped == RemappedRows(columns[k].rows, places);
        columns := columns[k := Bitmaps(remapped)];
      }
    }
  }

  method WorkOut(schema: Schema, exclusion: set<nat>) returns (last: Last)
    ensures last.from == schema && IsWorkOf(last.kept, schema.fields, exclusion)
  {
    var fields := schema.fields;
    var columns, places := [], [];
    for place := 0 to |fields|
      invariant columns == Kept(fields, exclusion, place) && places == Places(fields, exclusion, place)
      invariant |columns| == place <==> forall i | 0 <= i < place :: fields[i].name !in exclusion
    {
      if fields[place].name in exclusion {
        places := places + [None];
      } else {
        places := places + [Some(|columns|)];
        columns := columns + [place];
      }
    }
    if |columns| == |fields| {
      return Last(schema, None);
    }
    var kept := new Schema(At(fields, columns));
    return Last(schema, Some(Work(kept, columns, places)));
  }

  // ----- Twice is once -----

  lemma {:induction false} KeptIsNot(fields: seq<Field>, exclusion: set<nat>, n: nat)
    requires n <= |fields|
    ensures forall k | 0 <= k < |Kept(fields, exclusion, n)| ::
              fields[Kept(fields, exclusion, n)[k]].name !in exclusion
  {
    if n > 0 {
      KeptIsNot(fields, exclusion, n - 1);
      var before, kept := Kept(fields, exclusion, n - 1), Kept(fields, exclusion, n);
      forall k | 0 <= k < |kept| ensures fields[kept[k]].name !in exclusion {
        assert k < |before| ==> kept[k] == before[k];
      }
    }
  }

  lemma KeptExcludesNone(fields: seq<Field>, exclusion: set<nat>)
    ensures !Excludes(exclusion, At(fields, Kept(fields, exclusion, |fields|)))
  {
    KeptIsNot(fields, exclusion, |fields|);
    var kept := Kept(fields, exclusion, |fields|);
    forall k | 0 <= k < |kept| ensures At(fields, kept)[k].name !in exclusion {
      assert At(fields, kept)[k] == fields[kept[k]];
    }
  }

  /** A batch projected by its emitter and again by the sink is as projected once, whichever schema each
      met last. */
  lemma ProjectedTwice(contents: Contents, exclusion: set<nat>, changes: bool)
    requires WellFormed(contents)
    ensures WellFormed(Projected(contents, exclusion, changes))
    ensures Projected(Projected(contents, exclusion, changes), exclusion, changes)
         == Projected(contents, exclusion, changes)
  {
    KeptExcludesNone(contents.fields, exclusion);
  }

  // ----- Every kept column is itself -----

  /** How many of the first `n` columns are not excluded. */
  function KeptBefore(fields: seq<Field>, exclusion: set<nat>, n: nat): (count: nat)
    requires n <= |fields|
    ensures count <= n
  {
    if n == 0 then 0
    else KeptBefore(fields, exclusion, n - 1) + if fields[n - 1].name in exclusion then 0 else 1
  }

  lemma {:induction false} KeptCounts(fields: seq<Field>, exclusion: set<nat>, n: nat)
    requires n <= |fields|
    ensures |Kept(fields, exclusion, n)| == KeptBefore(fields, exclusion, n)
    ensures !Excludes(exclusion, fields) ==> KeptBefore(fields, exclusion, n) == n
  {
    if n > 0 {
      KeptCounts(fields, exclusion, n - 1);
      assert fields[n - 1].name in exclusion ==> Excludes(exclusion, fields);
    }
  }

  lemma {:induction false} KeptAtItsPlace(fields: seq<Field>, exclusion: set<nat>, n: nat, i: nat)
    requires i < n <= |fields| && fields[i].name !in exclusion
    ensures var place := KeptBefore(fields, exclusion, i);
            place < |Kept(fields, exclusion, n)| && Kept(fields, exclusion, n)[place] == i
  {
    if i == n - 1 {
      KeptCounts(fields, exclusion, i);
    } else {
      KeptAtItsPlace(fields, exclusion, n - 1, i);
    }
  }

  /** What is at a place of a projection: the field and the column that sit where that place was kept from. */
  lemma ProjectedAt(contents: Contents, exclusion: set<nat>, changes: bool, c: nat)
    requires WellFormed(contents) && Excludes(exclusion, contents.fields)
    requires c < |Kept(contents.fields, exclusion, |contents.fields|)|
    ensures var projected := Projected(contents, exclusion, changes);
            var i := Kept(contents.fields, exclusion, |contents.fields|)[c];
            && c < |projected.fields| == |projected.columns|
            && projected.fields[c] == contents.fields[i]
            && (|| projected.columns[c] == contents.columns[i]
                || (changes && contents.fields[i].name == UNCHANGED && contents.columns[i].Bitmaps?))
  {
  }

  /** A column that is not excluded is after those before it that are not either, its field and its values its
      own, whatever the batch; in a change batch the flags alone are not as they were. */
  lemma KeptColumnsAreTheirOwn(contents: Contents, exclusion: set<nat>, changes: bool, i: nat)
    requires WellFormed(contents) && i < |contents.fields| && contents.fields[i].name !in exclusion
    ensures var projected := Projected(contents, exclusion, changes);
            var c := KeptBefore(contents.fields, exclusion, i);
            && c < |projected.fields| == |projected.columns|
            && projected.fields[c] == contents.fields[i]
            && (|| projected.columns[c] == contents.columns[i]
                || (changes && contents.fields[i].name == UNCHANGED && contents.columns[i].Bitmaps?))
  {
    KeptCounts(contents.fields, exclusion, i);
    KeptAtItsPlace(contents.fields, exclusion, |contents.fields|, i);
    if Excludes(exclusion, contents.fields) {
      ProjectedAt(contents, exclusion, changes, KeptBefore(contents.fields, exclusion, i));
    }
  }

  lemma {:induction false} KeptFromItsPlace(fields: seq<Field>, exclusion: set<nat>, n: nat, c: nat)
    requires n <= |fields| && c < |Kept(fields, exclusion, n)|
    ensures var i := Kept(fields, exclusion, n)[c];
            fields[i].name !in exclusion && KeptBefore(fields, exclusion, i) == c
  {
    KeptCounts(fields, exclusion, n - 1);
    if c < |Kept(fields, exclusion, n - 1)| {
      KeptFromItsPlace(fields, exclusion, n - 1, c);
    }
  }

  /** Nothing else is in a projection: each of its columns is one that is not excluded, and all of those are
      there. */
  lemma OnlyKeptColumnsAreThere(contents: Contents, exclusion: set<nat>, changes: bool, c: nat) returns (i: nat)
    requires WellFormed(contents) && c < |Projected(contents, exclusion, changes).fields|
    ensures i < |contents.fields| && contents.fields[i].name !in exclusion
    ensures KeptBefore(contents.fields, exclusion, i) == c
    ensures |Projected(contents, exclusion, changes).fields|
         == KeptBefore(contents.fields, exclusion, |contents.fields|)
  {
    KeptCounts(contents.fields, exclusion, |contents.fields|);
    if Excludes(exclusion, contents.fields) {
      i := Kept(contents.fields, exclusion, |contents.fields|)[c];
      KeptFromItsPlace(contents.fields, exclusion, |contents.fields|, c);
    } else {
      i := c;
      KeptCounts(contents.fields, exclusion, c);
    }
  }

  // ----- Flags follow their columns -----

  lemma {:induction false} PlacesAreKept(fields: seq<Field>, exclusion: set<nat>, n: nat, i: nat)
    requires i < n <= |fields|
    ensures var place := Places(fields, exclusion, n)[i];
            && (place.None? <==> fields[i].name in exclusion)
            && (place.Some? ==>
                  place.value < |Kept(fields, exclusion, n)| && Kept(fields, exclusion, n)[place.value] == i)
  {
    if i < n - 1 {
      PlacesAreKept(fields, exclusion, n - 1, i);
    }
  }

  /** Each kept column is at its place, and is flagged unchanged in a projected change batch exactly
      where it was in the batch as it arrived, row by row, whatever the bitmaps' lengths. */
  lemma FlagsFollowTheirColumns(contents: Contents, exclusion: set<nat>, flags: nat, column: nat, row: nat)
    requires WellFormed(contents) && Excludes(exclusion, contents.fields)
    requires flags < |contents.fields| && column < |contents.fields|
    requires contents.fields[flags].name == UNCHANGED && UNCHANGED !in exclusion && contents.columns[flags].Bitmaps?
    requires contents.fields[column].name !in exclusion
    requires row < |contents.columns[flags].rows|
    ensures var projected := Projected(contents, exclusion, true);
            var places := Places(contents.fields, exclusion, |contents.fields|);
            && places[flags].Some? && places[column].Some?
            && var f, c := places[flags].value, places[column].value;
            && f < |projected.columns| && c < |projected.fields| && projected.fields[c] == contents.fields[column]
            && projected.columns[f].Bitmaps? && |projected.columns[f].rows| == |contents.columns[flags].rows|
            && var before, after := contents.columns[flags].rows[row], projected.columns[f].rows[row];
            && (before.None? <==> after.None?)
            && (before.Some? ==> (Contains(after.value, c) <==> Contains(before.value, column)))
  {
    var n := |contents.fields|;
    var places, kept := Places(contents.fields, exclusion, n), Kept(contents.fields, exclusion, n);
    PlacesAreKept(contents.fields, exclusion, n, flags);
    PlacesAreKept(contents.fields, exclusion, n, column);
    var before := contents.columns[flags].rows[row];
    if before.Some? {
      var c := places[column].value;
      RemappedContains(before.value, places, c);
      forall i: nat | i < n && places[i] == Some(c) ensures i == column {
        PlacesAreKept(contents.fields, exclusion, n, i);
      }
    }
  }
}
