/** What a commit of changes means: puts, deletes and truncates taken one by one in order of sequence, each
    without effect on a row that stands past it, with tombstones and a bound in place of rows that are
    gone. */
module Changes {
  import opened Wrappers

  type Cell = Option<nat>

  datatype Op = Put | Delete | Truncate

  /** One incoming row: what it does, its key, its sequence, its cells, and the columns it leaves
      unchanged; a truncate has no key. */
  datatype Change = Change(op: Op, key: nat, order: nat, cells: seq<Cell>, kept: Option<seq<bool>>)

  /** A table's columns: how many, which holds the sequence, and which the deletion time, where deletes
      are soft. */
  datatype Layout = Layout(width: nat, sequence: nat, deleted: Option<nat>) {
    predicate Valid() {
      && sequence < width
      && (deleted.Some? ==> deleted.value < width && deleted.value != sequence)
    }

    predicate Hard() { deleted.None? }
  }

  /** A row: its sequence, its cells, and whether a truncate of this merge, marking it, gave it its
      sequence. */
  datatype Row = Row(order: nat, cells: seq<Cell>, truncated: bool)

  predicate Fits(layout: Layout, change: Change) {
    && |change.cells| == layout.width
    && (change.kept.Some? ==> |change.kept.value| == layout.width)
  }

  ghost predicate AllFit(layout: Layout, rows: map<nat, Row>) {
    forall key | key in rows :: |rows[key].cells| == layout.width
  }

  // ----- One change at a time -----

  /** A row marked deleted by a change: it takes the change's sequence, and its deletion time where it
      has none. */
  function Marked(layout: Layout, row: Row, change: Change): Row
    requires layout.Valid() && !layout.Hard() && |row.cells| == layout.width == |change.cells|
  {
    var at := layout.deleted.value;
    var cells := row.cells[layout.sequence := change.cells[layout.sequence]];
    Row(change.order, if cells[at].None? then cells[at := change.cells[at]] else cells, false)
  }

  /** What a truncate makes of a row: one sequenced before it is removed, or marked where deletes are
      soft. */
  function Meeting(layout: Layout, row: Row, truncate: Change): Option<Row>
    requires layout.Valid() && |row.cells| == layout.width == |truncate.cells|
  {
    if truncate.order <= row.order then Some(row)
    else if layout.Hard() then None
    else Some(Marked(layout, row, truncate).(truncated := true))
  }

  ghost function Truncating(layout: Layout, rows: map<nat, Row>, truncate: Change): (left: map<nat, Row>)
    requires layout.Valid() && AllFit(layout, rows) && |truncate.cells| == layout.width
    ensures AllFit(layout, left)
  {
    map key | key in rows && Meeting(layout, rows[key], truncate).Some? :: Meeting(layout, rows[key], truncate).value
  }

  /** Whether a row stands at or past a change; one a truncate marked does not stand past a change at
      the truncate's own sequence, which is not before it. */
  predicate Behind(row: Row, change: Change) {
    change.order < row.order || (change.order == row.order && !row.truncated)
  }

  /** The cells a change leaves: its own, but for those it leaves unchanged. */
  function Composed(layout: Layout, current: Option<Row>, change: Change): (cells: seq<Cell>)
    requires Fits(layout, change) && (current.Some? ==> |current.value.cells| == layout.width)
    ensures |cells| == layout.width
  {
    if change.kept.None? then change.cells
    else
      seq(layout.width, i requires 0 <= i < layout.width =>
        if !change.kept.value[i] then change.cells[i]
        else if current.Some? then current.value.cells[i] else None)
  }

  /** Whether a change buried its key, wrote its row, or did neither. */
  datatype Did = Removed | Held | Nothing

  function At(rows: map<nat, Row>, key: nat): Option<Row> {
    if key in rows then Some(rows[key]) else None
  }

  /** What a change makes of its key's row, and what that is to its key. */
  function Changing(layout: Layout, current: Option<Row>, change: Change): (Option<Row>, Did)
    requires layout.Valid() && Fits(layout, change) && (current.Some? ==> |current.value.cells| == layout.width)
  {
    if current.Some? && Behind(current.value, change) then (current, Nothing)
    else if change.op.Delete? then
      if layout.Hard() then (None, Removed)
      else if current.None? then (None, Nothing)
      else (Some(Marked(layout, current.value, change)), Nothing)
    else (Some(Row(change.order, Composed(layout, current, change), false)), Held)
  }

  function Set<T>(m: map<nat, T>, key: nat, value: Option<T>): map<nat, T> {
    if value.None? then m - {key} else m[key := value.value]
  }

  lemma MapsAgree(a: map<nat, Row>, b: map<nat, Row>)
    requires forall key :: At(a, key) == At(b, key)
    ensures a == b
  {
    forall key ensures key in a <==> key in b
               ensures key in a ==> a[key] == b[key] {
      assert At(a, key) == At(b, key);
    }
  }

  /** A table: its rows by key; of the keys removed outright, the sequence that removed each; and the
      sequence of the latest hard truncate. */
  datatype State = State(rows: map<nat, Row>, stones: map<nat, nat>, bound: Option<nat>)

  predicate Bounded(bound: Option<nat>, order: nat) { bound.Some? && order < bound.value }

  /** Whether neither the bound nor a tombstone stops a change: the bound stops those below it, a tombstone
      also one level with it. */
  predicate Admits(s: State, change: Change) {
    && !Bounded(s.bound, change.order)
    && (!change.op.Truncate? && change.key in s.stones ==> s.stones[change.key] < change.order)
  }

  function Raised(bound: Option<nat>, order: nat): Option<nat> {
    if bound.Some? && bound.value >= order then bound else Some(order)
  }

  ghost function Step(layout: Layout, s: State, change: Change): (after: State)
    requires layout.Valid() && Fits(layout, change) && AllFit(layout, s.rows)
    ensures AllFit(layout, after.rows)
  {
    if !Admits(s, change) then s
    else if change.op.Truncate? then
      State(Truncating(layout, s.rows, change), s.stones,
            if layout.Hard() then Raised(s.bound, change.order) else s.bound)
    else
      var (row, did) := Changing(layout, At(s.rows, change.key), change);
      State(Set(s.rows, change.key, row),
            match did {
              case Removed => s.stones[change.key := change.order]
              case Held => s.stones - {change.key}
              case Nothing => s.stones
            }, s.bound)
  }

  ghost predicate AllChangesFit(layout: Layout, changes: seq<Change>) {
    forall i | 0 <= i < |changes| :: Fits(layout, changes[i])
  }

  ghost function Steps(layout: Layout, s: State, changes: seq<Change>): (after: State)
    requires layout.Valid() && AllChangesFit(layout, changes) && AllFit(layout, s.rows)
    ensures AllFit(layout, after.rows)
  {
    if changes == [] then s
    else Step(layout, Steps(layout, s, changes[..|changes| - 1]), changes[|changes| - 1])
  }

  // ----- A commit's changes, in sequence order -----

  /** Whether one change goes no later than another: by sequence, a truncate first. */
  predicate NoLater(a: Change, b: Change) {
    a.order < b.order || (a.order == b.order && (a.op.Truncate? || !b.op.Truncate?))
  }

  /** The changes with one more, after all that go no later. */
  function With(sorted: seq<Change>, change: Change): (more: seq<Change>)
    ensures multiset(more) == multiset(sorted) + multiset{change}
  {
    if sorted == [] || NoLater(sorted[|sorted| - 1], change) then sorted + [change]
    else
      var init, last := sorted[..|sorted| - 1], sorted[|sorted| - 1];
      assert sorted == init + [last];
      With(init, change) + [last]
  }

  function Sorted(changes: seq<Change>): (sorted: seq<Change>)
    ensures multiset(sorted) == multiset(changes)
  {
    if changes == [] then []
    else
      var init, last := changes[..|changes| - 1], changes[|changes| - 1];
      assert changes == init + [last];
      With(Sorted(init), last)
  }

  ghost predicate InOrder(changes: seq<Change>) {
    forall i, j | 0 <= i < j < |changes| :: NoLater(changes[i], changes[j])
  }

  lemma {:induction false} WithIsInOrder(sorted: seq<Change>, change: Change)
    requires InOrder(sorted)
    ensures InOrder(With(sorted, change))
  {
    if sorted != [] && !NoLater(sorted[|sorted| - 1], change) {
      var init, last := sorted[..|sorted| - 1], sorted[|sorted| - 1];
      WithIsInOrder(init, change);
      var more := With(init, change);
      forall i | 0 <= i < |more| ensures NoLater(more[i], last) {
        assert more[i] in multiset(more);
        assert more[i] in multiset(init) || more[i] == change;
        if more[i] != change {
          assert more[i] in init;
        }
      }
    }
  }

  lemma {:induction false} SortedIsInOrder(changes: seq<Change>)
    ensures InOrder(Sorted(changes))
  {
    if changes != [] {
      SortedIsInOrder(changes[..|changes| - 1]);
      WithIsInOrder(Sorted(changes[..|changes| - 1]), changes[|changes| - 1]);
    }
  }

  lemma SortedHas(changes: seq<Change>, change: Change)
    ensures change in Sorted(changes) <==> change in changes
  {
    assert change in multiset(Sorted(changes)) <==> change in multiset(changes);
  }

  lemma SortedFits(layout: Layout, changes: seq<Change>)
    requires AllChangesFit(layout, changes)
    ensures AllChangesFit(layout, Sorted(changes))
  {
    var sorted := Sorted(changes);
    forall i | 0 <= i < |sorted| ensures Fits(layout, sorted[i]) {
      assert sorted[i] in sorted;
      SortedHas(changes, sorted[i]);
    }
  }

  /** What a table stores: its rows, whoever marked them, and the tombstones its bound does not cover. */
  ghost function Stored(s: State): State {
    State(map key | key in s.rows :: s.rows[key].(truncated := false),
          map key | key in s.stones && !Bounded(s.bound, s.stones[key]) :: s.stones[key], s.bound)
  }

  /** The table once a commit's changes apply. */
  ghost function Merged(layout: Layout, s: State, incoming: seq<Change>): (after: State)
    requires layout.Valid() && AllChangesFit(layout, incoming) && AllFit(layout, s.rows)
    ensures AllFit(layout, after.rows)
  {
    SortedFits(layout, incoming);
    Stored(Steps(layout, s, Sorted(incoming)))
  }

  ghost predicate AllCommitsFit(layout: Layout, commits: seq<seq<Change>>) {
    forall i | 0 <= i < |commits| :: AllChangesFit(layout, commits[i])
  }

  ghost function After(layout: Layout, commits: seq<seq<Change>>): (s: State)
    requires layout.Valid() && AllCommitsFit(layout, commits)
    ensures AllFit(layout, s.rows)
  {
    if commits == [] then State(map[], map[], None)
    else Merged(layout, After(layout, commits[..|commits| - 1]), commits[|commits| - 1])
  }
}
