/** Where deletes are hard: what any history of changes leaves of each key, and exactly when every
    history of the same changes leaves the same table. */
module ChangesProof {
  import opened Wrappers
  import opened Common
  import opened Changes

  /** Whether a change is one of a key. */
  predicate Of(change: Change, key: nat) { !change.op.Truncate? && change.key == key }

  /** Whether `m` is the last, by sequence, of a key's changes: one of the last, where some tie. */
  ghost predicate IsLatest(done: seq<Change>, key: nat, m: Change) {
    m in done && Of(m, key) && forall c | c in done && Of(c, key) :: c.order <= m.order
  }

  ghost predicate Untouched(done: seq<Change>, key: nat) {
    forall c | c in done :: !Of(c, key)
  }

  /** Whether the bound is the last truncate's sequence. */
  ghost predicate IsBound(done: seq<Change>, bound: Option<nat>) {
    && (forall c | c in done && c.op.Truncate? :: bound.Some? && c.order <= bound.value)
    && (bound.Some? ==> exists c :: c in done && c.op.Truncate? && c.order == bound.value)
  }

  /** Whether a change leaves a column as it is. */
  predicate Leaves(change: Change, i: nat) {
    change.kept.Some? && i < |change.kept.value| && change.kept.value[i]
  }

  /** Whether `p` puts a row of the same key, sequenced before `m`. */
  predicate IsEarlier(p: Change, m: Change) {
    p.op.Put? && p.key == m.key && p.order < m.order
  }

  /** Whether a cell is one an earlier put of the key set. */
  ghost predicate Inherited(done: seq<Change>, m: Change, i: nat, cell: Cell) {
    exists p :: p in done && IsEarlier(p, m) && !Leaves(p, i) && i < |p.cells| && p.cells[i] == cell
  }

  /** A cell of the row `m` left: `m`'s own, or, where it leaves the column, none or an earlier put's. */
  ghost predicate CellFrom(done: seq<Change>, m: Change, cells: seq<Cell>, i: nat) {
    i < |cells| && i < |m.cells| ==>
      if Leaves(m, i) then cells[i].None? || Inherited(done, m, i, cells[i]) else cells[i] == m.cells[i]
  }

  ghost predicate CellsFrom(done: seq<Change>, m: Change, cells: seq<Cell>) {
    |cells| == |m.cells| && forall i: nat :: CellFrom(done, m, cells, i)
  }

  /** Whether a table holds a key's last change: its row, or its tombstone, or neither where it is before
      the bound. */
  ghost predicate HoldsLatest(s: State, done: seq<Change>, m: Change) {
    if Bounded(s.bound, m.order) then m.key !in s.rows && (m.key in s.stones ==> Bounded(s.bound, s.stones[m.key]))
    else if m.op.Put? then
      && m.key !in s.stones && m.key in s.rows
      && s.rows[m.key].order == m.order && !s.rows[m.key].truncated && CellsFrom(done, m, s.rows[m.key].cells)
    else m.key !in s.rows && m.key in s.stones && s.stones[m.key] == m.order
  }

  ghost predicate HoldsAt(s: State, done: seq<Change>, key: nat) {
    if Untouched(done, key) then key !in s.rows && key !in s.stones
    else exists m :: IsLatest(done, key, m) && HoldsLatest(s, done, m)
  }

  /** Whether a table holds of each key one of its last changes, where that is not before the last
      truncate. */
  ghost predicate Holds(s: State, done: seq<Change>) {
    IsBound(done, s.bound) && forall key :: HoldsAt(s, done, key)
  }

  lemma {:induction false} SomeIsLatest(done: seq<Change>, key: nat) returns (m: Change)
    requires !Untouched(done, key)
    ensures IsLatest(done, key, m)
  {
    var init, last := done[..|done| - 1], done[|done| - 1];
    assert done == init + [last];
    if Untouched(init, key) {
      m := last;
    } else {
      m := SomeIsLatest(init, key);
      if Of(last, key) && last.order > m.order {
        m := last;
      }
    }
  }

  /** What holds by some changes holds by more of them. */
  lemma CellsFromMore(done: seq<Change>, more: seq<Change>, m: Change, cells: seq<Cell>)
    requires CellsFrom(done, m, cells) && forall c | c in done :: c in more
    ensures CellsFrom(more, m, cells)
  {
    forall i: nat ensures CellFrom(more, m, cells, i) {
      assert CellFrom(done, m, cells, i);
      if i < |cells| && Leaves(m, i) && cells[i].Some? {
        var p :| p in done && IsEarlier(p, m) && !Leaves(p, i) && i < |p.cells| && p.cells[i] == cells[i];
        assert p in more;
      }
    }
  }

  lemma HoldsLatestMore(s: State, done: seq<Change>, more: seq<Change>, m: Change)
    requires HoldsLatest(s, done, m) && forall c | c in done :: c in more
    ensures HoldsLatest(s, more, m)
  {
    if !Bounded(s.bound, m.order) && m.op.Put? {
      CellsFromMore(done, more, m, s.rows[m.key].cells);
    }
  }

  // ----- A truncate -----

  lemma TruncateBounds(layout: Layout, s: State, done: seq<Change>, t: Change)
    requires layout.Valid() && layout.Hard() && Fits(layout, t) && AllFit(layout, s.rows) && t.op.Truncate?
    requires IsBound(done, s.bound)
    ensures IsBound(done + [t], Step(layout, s, t).bound)
  {
    var after := Step(layout, s, t).bound;
    if after == s.bound {
      var c :| c in done && c.op.Truncate? && c.order == s.bound.value;
      assert c in done + [t];
    } else {
      assert t in done + [t];
    }
  }

  lemma TruncateHolds(layout: Layout, s: State, done: seq<Change>, t: Change, m: Change)
    requires layout.Valid() && layout.Hard() && Fits(layout, t) && AllFit(layout, s.rows) && t.op.Truncate?
    requires HoldsLatest(s, done, m)
    ensures HoldsLatest(Step(layout, s, t), done, m)
  {
  }

  /** The last of a key's changes stays the last where a change is none of the key's. */
  lemma LatestStays(done: seq<Change>, change: Change, key: nat)
    requires !Of(change, key)
    ensures Untouched(done + [change], key) <==> Untouched(done, key)
    ensures forall m :: IsLatest(done, key, m) ==> IsLatest(done + [change], key, m)
  {
    assert forall c | c in done :: c in done + [change];
  }

  lemma TruncateKeeps(layout: Layout, s: State, done: seq<Change>, t: Change, key: nat)
    requires layout.Valid() && layout.Hard() && Fits(layout, t) && AllFit(layout, s.rows) && t.op.Truncate?
    requires HoldsAt(s, done, key)
    ensures HoldsAt(Step(layout, s, t), done + [t], key)
  {
    LatestStays(done, t, key);
    if !Untouched(done, key) {
      var m :| IsLatest(done, key, m) && HoldsLatest(s, done, m);
      TruncateHolds(layout, s, done, t, m);
      HoldsLatestMore(Step(layout, s, t), done, done + [t], m);
      assert IsLatest(done + [t], key, m);
    }
  }

  // ----- A change of a key -----

  lemma OtherKeyHolds(layout: Layout, s: State, done: seq<Change>, change: Change, m: Change)
    requires layout.Valid() && Fits(layout, change) && AllFit(layout, s.rows)
    requires !change.op.Truncate? && change.key != m.key && HoldsLatest(s, done, m)
    ensures HoldsLatest(Step(layout, s, change), done, m)
  {
  }

  lemma OtherKeysKeep(layout: Layout, s: State, done: seq<Change>, change: Change, key: nat)
    requires layout.Valid() && Fits(layout, change) && AllFit(layout, s.rows)
    requires !change.op.Truncate? && change.key != key && HoldsAt(s, done, key)
    ensures HoldsAt(Step(layout, s, change), done + [change], key)
  {
    LatestStays(done, change, key);
    if !Untouched(done, key) {
      var m :| IsLatest(done, key, m) && HoldsLatest(s, done, m);
      OtherKeyHolds(layout, s, done, change, m);
      HoldsLatestMore(Step(layout, s, change), done, done + [change], m);
      assert IsLatest(done + [change], key, m);
    }
  }

  /** A change no later than its key's last leaves the table as it is. */
  lemma NoLaterChangesNothing(layout: Layout, s: State, done: seq<Change>, m: Change, change: Change)
    requires layout.Valid() && layout.Hard() && Fits(layout, change) && AllFit(layout, s.rows)
    requires !m.op.Truncate? && Of(change, m.key) && change.order <= m.order && HoldsLatest(s, done, m)
    ensures Step(layout, s, change) == s
  {
    assert m.key in s.rows ==> s.rows[m.key := s.rows[m.key]] == s.rows;
  }

  /** Whether a key's row and tombstone are both before a change, or covered by the bound. */
  predicate IsPassed(s: State, change: Change) {
    && (change.key in s.rows ==> s.rows[change.key].order < change.order && !Bounded(s.bound, change.order))
    && (change.key in s.stones ==> s.stones[change.key] < change.order || Bounded(s.bound, s.stones[change.key]))
  }

  lemma LastIsPassed(s: State, done: seq<Change>, m: Change, change: Change)
    requires !m.op.Truncate? && Of(change, m.key) && m.order < change.order && HoldsLatest(s, done, m)
    ensures IsPassed(s, change)
  {
  }

  /** The cells a change past its key's last leaves come from it and from earlier puts. */
  lemma ComposedFrom(layout: Layout, done: seq<Change>, current: Option<Row>, m: Change, change: Change)
    requires layout.Valid() && Fits(layout, change) && (current.Some? ==> |current.value.cells| == layout.width)
    requires current.Some? ==>
               m in done && m.op.Put? && IsEarlier(m, change) && CellsFrom(done, m, current.value.cells)
    ensures CellsFrom(done + [change], change, Composed(layout, current, change))
  {
    var cells, all := Composed(layout, current, change), done + [change];
    forall i: nat ensures CellFrom(all, change, cells, i) {
      if i < layout.width && Leaves(change, i) && current.Some? {
        assert CellFrom(done, m, current.value.cells, i);
        if !Leaves(m, i) {
          assert m in all;
        } else if cells[i].Some? {
          var p :| p in done && IsEarlier(p, m) && !Leaves(p, i) && i < |p.cells| && p.cells[i] == cells[i];
          assert p in all;
        }
      }
    }
  }

  /** A change past its key's last takes its place. */
  lemma LaterTakesItsPlace(layout: Layout, s: State, done: seq<Change>, change: Change, m: Change)
    requires layout.Valid() && layout.Hard() && Fits(layout, change) && AllFit(layout, s.rows)
    requires !change.op.Truncate? && IsPassed(s, change)
    requires change.key in s.rows ==>
               m in done && m.op.Put? && IsEarlier(m, change) && CellsFrom(done, m, s.rows[change.key].cells)
    ensures HoldsLatest(Step(layout, s, change), done + [change], change)
  {
    ComposedFrom(layout, done, At(s.rows, change.key), m, change);
  }

  lemma ChangeKeeps(layout: Layout, s: State, done: seq<Change>, change: Change)
    requires layout.Valid() && layout.Hard() && Fits(layout, change) && AllFit(layout, s.rows)
    requires !change.op.Truncate? && HoldsAt(s, done, change.key)
    ensures HoldsAt(Step(layout, s, change), done + [change], change.key)
  {
    var key, after, all := change.key, Step(layout, s, change), done + [change];
    assert change in all && forall c | c in done :: c in all;
    if Untouched(done, key) {
      LaterTakesItsPlace(layout, s, done, change, change);
      assert IsLatest(all, key, change);
    } else {
      var m :| IsLatest(done, key, m) && HoldsLatest(s, done, m);
      if change.order <= m.order {
        NoLaterChangesNothing(layout, s, done, m, change);
        HoldsLatestMore(s, done, all, m);
        assert IsLatest(all, key, m);
      } else {
        LastIsPassed(s, done, m, change);
        LaterTakesItsPlace(layout, s, done, change, m);
        assert IsLatest(all, key, change);
      }
    }
  }

  lemma BoundStays(done: seq<Change>, change: Change, bound: Option<nat>)
    requires IsBound(done, bound) && !change.op.Truncate?
    ensures IsBound(done + [change], bound)
  {
    if bound.Some? {
      var c :| c in done && c.op.Truncate? && c.order == bound.value;
      assert c in done + [change];
    }
  }

  lemma StepKeeps(layout: Layout, s: State, done: seq<Change>, change: Change)
    requires layout.Valid() && layout.Hard() && Fits(layout, change) && AllFit(layout, s.rows) && Holds(s, done)
    ensures Holds(Step(layout, s, change), done + [change])
  {
    var after, all := Step(layout, s, change), done + [change];
    if change.op.Truncate? {
      TruncateBounds(layout, s, done, change);
      forall key ensures HoldsAt(after, all, key) {
        assert HoldsAt(s, done, key);
        TruncateKeeps(layout, s, done, change, key);
      }
    } else {
      BoundStays(done, change, s.bound);
      forall key ensures HoldsAt(after, all, key) {
        assert HoldsAt(s, done, key);
        if key == change.key {
          ChangeKeeps(layout, s, done, change);
        } else {
          OtherKeysKeep(layout, s, done, change, key);
        }
      }
    }
  }

  // ----- Commits -----

  lemma {:induction false} StepsKeep(layout: Layout, s: State, done: seq<Change>, changes: seq<Change>)
    requires layout.Valid() && layout.Hard() && AllChangesFit(layout, changes) && AllFit(layout, s.rows)
    requires Holds(s, done)
    ensures Holds(Steps(layout, s, changes), done + changes)
  {
    if changes == [] {
      assert done + changes == done;
    } else {
      var init, last := changes[..|changes| - 1], changes[|changes| - 1];
      assert done + changes == done + init + [last];
      StepsKeep(layout, s, done, init);
      StepKeeps(layout, Steps(layout, s, init), done + init, last);
    }
  }

  /** What a table holds depends on which changes were applied, not on their order. */
  lemma HoldsAny(s: State, done: seq<Change>, others: seq<Change>)
    requires Holds(s, done) && forall c :: c in done <==> c in others
    ensures Holds(s, others)
  {
    forall key ensures HoldsAt(s, others, key) {
      assert HoldsAt(s, done, key);
      if !Untouched(done, key) {
        var m :| IsLatest(done, key, m) && HoldsLatest(s, done, m);
        HoldsLatestMore(s, done, others, m);
        assert IsLatest(others, key, m);
      }
    }
    if s.bound.Some? {
      var c :| c in done && c.op.Truncate? && c.order == s.bound.value;
      assert c in others;
    }
  }

  ghost predicate Clean(s: State) {
    forall key | key in s.stones :: !Bounded(s.bound, s.stones[key])
  }

  lemma StoredHolds(s: State, done: seq<Change>)
    requires Holds(s, done)
    ensures Holds(Stored(s), done) && Clean(Stored(s))
  {
    forall key ensures HoldsAt(Stored(s), done, key) {
      assert HoldsAt(s, done, key);
      if !Untouched(done, key) {
        var m :| IsLatest(done, key, m) && HoldsLatest(s, done, m);
        assert HoldsLatest(Stored(s), done, m);
      }
    }
  }

  /** After any commits, the table holds of each key one of its last changes, where that is not before the
      last truncate. */
  lemma {:induction false} AfterHolds(layout: Layout, commits: seq<seq<Change>>)
    requires layout.Valid() && layout.Hard() && AllCommitsFit(layout, commits)
    ensures Holds(After(layout, commits), Flat(commits)) && Clean(After(layout, commits))
  {
    if commits != [] {
      var init, last := commits[..|commits| - 1], commits[|commits| - 1];
      var before, sorted := After(layout, init), Sorted(last);
      AfterHolds(layout, init);
      SortedFits(layout, last);
      forall c ensures c in Flat(init) + sorted <==> c in Flat(commits) {
        SortedHas(last, c);
      }
      StepsKeep(layout, before, Flat(init), sorted);
      HoldsAny(Steps(layout, before, sorted), Flat(init) + sorted, Flat(commits));
      StoredHolds(Steps(layout, before, sorted), Flat(commits));
    }
  }

  /** Whether a truncate among changes is past one of them. */
  ghost predicate Past(done: seq<Change>, m: Change) {
    exists t :: t in done && t.op.Truncate? && t.order > m.order
  }

  /** A key has a row if and only if one of its last changes puts it and no truncate is past it; and the
      row's cells are that change's, but for columns it leaves, which hold nothing or an earlier put's. */
  lemma LastWriterWins(layout: Layout, commits: seq<seq<Change>>, key: nat) returns (m: Change)
    requires layout.Valid() && layout.Hard() && AllCommitsFit(layout, commits) && !Untouched(Flat(commits), key)
    ensures IsLatest(Flat(commits), key, m)
    ensures key in After(layout, commits).rows <==> m.op.Put? && !Past(Flat(commits), m)
    ensures key in After(layout, commits).rows ==>
              After(layout, commits).rows[key].order == m.order
              && CellsFrom(Flat(commits), m, After(layout, commits).rows[key].cells)
  {
    AfterHolds(layout, commits);
    var s, done := After(layout, commits), Flat(commits);
    assert HoldsAt(s, done, key);
    m :| IsLatest(done, key, m) && HoldsLatest(s, done, m);
    BoundIsPast(s, done, m);
  }

  lemma BoundIsPast(s: State, done: seq<Change>, m: Change)
    requires IsBound(done, s.bound)
    ensures Bounded(s.bound, m.order) <==> Past(done, m)
  {
  }

  // ----- When every history agrees -----

  /** The cell a put leaves in a column on no row: its own, or none where it leaves the column. */
  function Bare(m: Change, i: nat): Cell
    requires i < |m.cells|
  {
    if Leaves(m, i) then None else m.cells[i]
  }

  predicate SameBare(m: Change, n: Change, i: nat) {
    i < |m.cells| && i < |n.cells| ==> Bare(m, i) == Bare(n, i)
  }

  /** Whether two changes leave the same of a key that has no row. */
  ghost predicate Alike(m: Change, n: Change) {
    m.op == n.op && (m.op.Put? ==> forall i: nat :: SameBare(m, n, i))
  }

  predicate Silent(m: Change, p: Change, i: nat) {
    Leaves(m, i) && !Leaves(p, i) && i < |p.cells| ==> p.cells[i].None?
  }

  /** Whether no earlier put of its key sets a cell the change leaves. */
  ghost predicate Unfed(done: seq<Change>, m: Change) {
    m.op.Put? ==> forall p | p in done && IsEarlier(p, m) :: forall i: nat :: Silent(m, p, i)
  }

  /** Whether a key's last changes, where no truncate is past them, are all deletes, or all puts that leave
      the same cells, and none leaves a column an earlier put sets. */
  ghost predicate Decided(done: seq<Change>, key: nat) {
    forall m, n | IsLatest(done, key, m) && IsLatest(done, key, n) && !Past(done, m) ::
      Alike(m, n) && Unfed(done, m)
  }

  /** The cells of a row that holds an unfed change are the change's own. */
  lemma UnfedCells(done: seq<Change>, m: Change, cells: seq<Cell>, i: nat)
    requires CellsFrom(done, m, cells) && m.op.Put? && Unfed(done, m) && i < |cells|
    ensures cells[i] == Bare(m, i)
  {
    assert CellFrom(done, m, cells, i);
    if Leaves(m, i) && cells[i].Some? {
      var p :| p in done && IsEarlier(p, m) && !Leaves(p, i) && i < |p.cells| && p.cells[i] == cells[i];
      UnfedAt(done, m, p, i);
    }
  }

  lemma UnfedAt(done: seq<Change>, m: Change, p: Change, i: nat)
    requires m.op.Put? && Unfed(done, m) && p in done && IsEarlier(p, m)
    ensures Silent(m, p, i)
  {
  }

  lemma OneBound(done: seq<Change>, a: Option<nat>, b: Option<nat>)
    requires IsBound(done, a) && IsBound(done, b)
    ensures a == b
  {
  }

  lemma OneRow(done: seq<Change>, m: Change, n: Change, a: seq<Cell>, b: seq<Cell>)
    requires CellsFrom(done, m, a) && CellsFrom(done, n, b) && m.op.Put? && |a| == |b|
    requires Alike(m, n) && Unfed(done, m) && Unfed(done, n)
    ensures a == b
  {
    forall i | 0 <= i < |a| ensures a[i] == b[i] {
      UnfedCells(done, m, a, i);
      UnfedCells(done, n, b, i);
      assert SameBare(m, n, i);
    }
  }

  lemma OneKey(layout: Layout, a: State, b: State, done: seq<Change>, key: nat)
    requires HoldsAt(a, done, key) && HoldsAt(b, done, key) && Clean(a) && Clean(b) && a.bound == b.bound
    requires IsBound(done, a.bound) && Decided(done, key) && AllFit(layout, a.rows) && AllFit(layout, b.rows)
    ensures At(a.rows, key) == At(b.rows, key) && (key in a.stones <==> key in b.stones)
    ensures key in a.stones ==> a.stones[key] == b.stones[key]
  {
    if !Untouched(done, key) {
      var m :| IsLatest(done, key, m) && HoldsLatest(a, done, m);
      var n :| IsLatest(done, key, n) && HoldsLatest(b, done, n);
      BoundIsPast(a, done, m);
      BoundIsPast(b, done, n);
      assert m.order == n.order;
      if !Past(done, m) && m.op.Put? {
        assert Alike(m, n) && Alike(n, m);
        OneRow(done, m, n, a.rows[key].cells, b.rows[key].cells);
      }
    }
  }

  lemma OneTable(layout: Layout, a: State, b: State, done: seq<Change>)
    requires Holds(a, done) && Holds(b, done) && Clean(a) && Clean(b)
    requires AllFit(layout, a.rows) && AllFit(layout, b.rows) && forall key :: Decided(done, key)
    ensures a == b
  {
    OneBound(done, a.bound, b.bound);
    forall key ensures At(a.rows, key) == At(b.rows, key) && (key in a.stones <==> key in b.stones)
               ensures key in a.stones ==> a.stones[key] == b.stones[key] {
      assert HoldsAt(a, done, key) && HoldsAt(b, done, key) && Decided(done, key);
      OneKey(layout, a, b, done, key);
    }
    MapsAgree(a.rows, b.rows);
    assert a.stones == b.stones;
  }

  /** Whether commits carry some changes and no others, in any order and each however often. */
  ghost predicate Carry(layout: Layout, commits: seq<seq<Change>>, changes: seq<Change>) {
    AllCommitsFit(layout, commits) && forall c :: c in Flat(commits) <==> c in changes
  }

  ghost predicate Agree(layout: Layout, changes: seq<Change>, some: seq<seq<Change>>, others: seq<seq<Change>>)
    requires layout.Valid()
  {
    Carry(layout, some, changes) && Carry(layout, others, changes) ==> After(layout, some) == After(layout, others)
  }

  lemma DecidedAgree(layout: Layout, changes: seq<Change>, some: seq<seq<Change>>, others: seq<seq<Change>>)
    requires layout.Valid() && layout.Hard() && forall key :: Decided(changes, key)
    ensures Agree(layout, changes, some, others)
  {
    if Carry(layout, some, changes) && Carry(layout, others, changes) {
      AfterHolds(layout, some);
      AfterHolds(layout, others);
      HoldsAny(After(layout, some), Flat(some), changes);
      HoldsAny(After(layout, others), Flat(others), changes);
      OneTable(layout, After(layout, some), After(layout, others), changes);
    }
  }

  // ----- And when they do not -----

  /** A row that no change of its key and no truncate is past stays as it is. */
  lemma RowStays(layout: Layout, s: State, change: Change, key: nat)
    requires layout.Valid() && Fits(layout, change) && AllFit(layout, s.rows)
    requires key in s.rows && !s.rows[key].truncated
    requires Of(change, key) || change.op.Truncate? ==> change.order <= s.rows[key].order
    ensures At(Step(layout, s, change).rows, key) == Some(s.rows[key])
  {
  }

  lemma StoneStays(layout: Layout, s: State, change: Change, key: nat)
    requires layout.Valid() && layout.Hard() && Fits(layout, change) && AllFit(layout, s.rows)
    requires key !in s.rows && key in s.stones && (Of(change, key) ==> change.order <= s.stones[key])
    ensures var after := Step(layout, s, change);
            key !in after.rows && key in after.stones && after.stones[key] == s.stones[key]
  {
  }

  /** Whether no change of a key and no truncate is past a sequence. */
  ghost predicate NonePast(changes: seq<Change>, key: nat, order: nat) {
    forall c | c in changes && (Of(c, key) || c.op.Truncate?) :: c.order <= order
  }

  lemma {:induction false} RowStaysThrough(layout: Layout, s: State, changes: seq<Change>, key: nat)
    requires layout.Valid() && AllChangesFit(layout, changes) && AllFit(layout, s.rows)
    requires key in s.rows && !s.rows[key].truncated && NonePast(changes, key, s.rows[key].order)
    ensures At(Steps(layout, s, changes).rows, key) == Some(s.rows[key])
  {
    if changes != [] {
      var init, last := changes[..|changes| - 1], changes[|changes| - 1];
      assert last in changes && forall c | c in init :: c in changes;
      RowStaysThrough(layout, s, init, key);
      RowStays(layout, Steps(layout, s, init), last, key);
    }
  }

  lemma {:induction false} StoneStaysThrough(layout: Layout, s: State, changes: seq<Change>, key: nat)
    requires layout.Valid() && layout.Hard() && AllChangesFit(layout, changes) && AllFit(layout, s.rows)
    requires key !in s.rows && key in s.stones && NonePast(changes, key, s.stones[key])
    ensures var after := Steps(layout, s, changes);
            key !in after.rows && key in after.stones && after.stones[key] == s.stones[key]
  {
    if changes != [] {
      var init, last := changes[..|changes| - 1], changes[|changes| - 1];
      assert last in changes && forall c | c in init :: c in changes;
      StoneStaysThrough(layout, s, init, key);
      StoneStays(layout, Steps(layout, s, init), last, key);
    }
  }

  lemma SortedNonePast(changes: seq<Change>, key: nat, order: nat)
    requires NonePast(changes, key, order)
    ensures NonePast(Sorted(changes), key, order)
  {
    forall c | c in Sorted(changes) ensures c in changes {
      SortedHas(changes, c);
    }
  }

  /** What a row, stored, is after a commit in which nothing is past it. */
  lemma RowOutlasts(layout: Layout, s: State, incoming: seq<Change>, key: nat)
    requires layout.Valid() && AllChangesFit(layout, incoming) && AllFit(layout, s.rows)
    requires key in s.rows && !s.rows[key].truncated && NonePast(incoming, key, s.rows[key].order)
    ensures At(Merged(layout, s, incoming).rows, key) == Some(s.rows[key])
  {
    SortedFits(layout, incoming);
    SortedNonePast(incoming, key, s.rows[key].order);
    RowStaysThrough(layout, s, Sorted(incoming), key);
  }

  lemma StoneOutlasts(layout: Layout, s: State, incoming: seq<Change>, key: nat)
    requires layout.Valid() && layout.Hard() && AllChangesFit(layout, incoming) && AllFit(layout, s.rows)
    requires key !in s.rows && key in s.stones && NonePast(incoming, key, s.stones[key])
    ensures key !in Merged(layout, s, incoming).rows
  {
    SortedFits(layout, incoming);
    SortedNonePast(incoming, key, s.stones[key]);
    StoneStaysThrough(layout, s, Sorted(incoming), key);
  }

  lemma SortedOfOne(c: Change)
    ensures Sorted([c]) == [c]
  {
    assert [c][..0] == [];
  }

  lemma MergedOne(layout: Layout, s: State, c: Change)
    requires layout.Valid() && Fits(layout, c) && AllFit(layout, s.rows)
    ensures Merged(layout, s, [c]) == Stored(Step(layout, s, c))
  {
    SortedOfOne(c);
    assert [c][..0] == [];
    assert Steps(layout, s, []) == s;
  }

  const EMPTY := State(map[], map[], None)

  /** A history with one change more, in a commit of its own. */
  lemma ThenOne(layout: Layout, commits: seq<seq<Change>>, m: Change) returns (more: seq<seq<Change>>)
    requires layout.Valid() && AllCommitsFit(layout, commits) && Fits(layout, m)
    ensures AllCommitsFit(layout, more) && Flat(more) == Flat(commits) + [m]
    ensures After(layout, more) == Stored(Step(layout, After(layout, commits), m))
  {
    more := commits + [[m]];
    assert more[..|commits|] == commits;
    MergedOne(layout, After(layout, commits), m);
  }

  /** A history of some of the changes, with all of them in one commit more. */
  lemma ThenAll(layout: Layout, commits: seq<seq<Change>>, all: seq<Change>) returns (more: seq<seq<Change>>)
    requires layout.Valid() && AllCommitsFit(layout, commits) && AllChangesFit(layout, all)
    requires forall c | c in Flat(commits) :: c in all
    ensures Carry(layout, more, all) && After(layout, more) == Merged(layout, After(layout, commits), all)
  {
    more := commits + [all];
    assert more[..|commits|] == commits;
    assert Flat(more) == Flat(commits) + all;
  }

  /** A history of one change first, and then all of them. */
  lemma FirstThenAll(layout: Layout, m: Change, all: seq<Change>) returns (commits: seq<seq<Change>>)
    requires layout.Valid() && AllChangesFit(layout, all) && m in all
    ensures Fits(layout, m) && Carry(layout, commits, all)
    ensures After(layout, commits) == Merged(layout, Stored(Step(layout, EMPTY, m)), all)
  {
    FitsOne(layout, all, m);
    var first := ThenOne(layout, [], m);
    commits := ThenAll(layout, first, all);
  }

  lemma FitsOne(layout: Layout, all: seq<Change>, m: Change)
    requires AllChangesFit(layout, all) && m in all
    ensures Fits(layout, m)
  {
    var i :| 0 <= i < |all| && all[i] == m;
  }

  /** A history of two changes first, one after the other, and then all of them. */
  lemma SecondThenAll(layout: Layout, p: Change, m: Change, all: seq<Change>) returns (commits: seq<seq<Change>>)
    requires layout.Valid() && AllChangesFit(layout, all) && p in all && m in all
    ensures Fits(layout, p) && Fits(layout, m) && Carry(layout, commits, all)
    ensures var first := Stored(Step(layout, EMPTY, p));
            After(layout, commits) == Merged(layout, Stored(Step(layout, first, m)), all)
  {
    FitsOne(layout, all, p);
    FitsOne(layout, all, m);
    var first := ThenOne(layout, [], p);
    var second := ThenOne(layout, first, m);
    commits := ThenAll(layout, second, all);
  }

  /** What a change leaves of a table of nothing. */
  lemma FirstOnNothing(layout: Layout, m: Change)
    requires layout.Valid() && layout.Hard() && Fits(layout, m) && !m.op.Truncate?
    ensures var s := Stored(Step(layout, EMPTY, m));
            if m.op.Put? then
              && m.key in s.rows && s.rows[m.key].order == m.order && !s.rows[m.key].truncated && s.stones == map[]
              && s.bound.None? && |s.rows[m.key].cells| == layout.width
              && forall i | 0 <= i < layout.width :: s.rows[m.key].cells[i] == Bare(m, i)
            else m.key !in s.rows && m.key in s.stones && s.stones[m.key] == m.order
  {
  }

  /** What an update leaves of a row before it. */
  lemma SecondOnRow(layout: Layout, s: State, m: Change)
    requires layout.Valid() && layout.Hard() && Fits(layout, m) && AllFit(layout, s.rows) && m.op.Put?
    requires s.stones == map[] && s.bound.None? && m.key in s.rows && s.rows[m.key].order < m.order
    ensures var after := Stored(Step(layout, s, m));
            && m.key in after.rows && after.rows[m.key].order == m.order && !after.rows[m.key].truncated
            && |after.rows[m.key].cells| == layout.width
            && forall i | 0 <= i < layout.width && Leaves(m, i) :: after.rows[m.key].cells[i] == s.rows[m.key].cells[i]
  {
  }

  /** Where one of a key's last changes arrives first, it is what the key is left with. */
  lemma FirstDecides(layout: Layout, m: Change, all: seq<Change>) returns (commits: seq<seq<Change>>)
    requires layout.Valid() && layout.Hard() && AllChangesFit(layout, all)
    requires IsLatest(all, m.key, m) && !Past(all, m)
    ensures Carry(layout, commits, all)
    ensures var rows := After(layout, commits).rows;
            && (m.op.Delete? ==> m.key !in rows)
            && (m.op.Put? ==> m.key in rows && |rows[m.key].cells| == layout.width == |m.cells|
                              && forall i | 0 <= i < layout.width :: rows[m.key].cells[i] == Bare(m, i))
  {
    commits := FirstThenAll(layout, m, all);
    FirstOnNothing(layout, m);
    var s := Stored(Step(layout, EMPTY, m));
    assert NonePast(all, m.key, m.order);
    if m.op.Put? {
      RowOutlasts(layout, s, all, m.key);
    } else {
      StoneOutlasts(layout, s, all, m.key);
    }
  }

  /** Where an earlier put arrives before it, a change that leaves a column leaves that put's cell. */
  lemma FedDecides(layout: Layout, p: Change, m: Change, all: seq<Change>, i: nat)
    returns (commits: seq<seq<Change>>)
    requires layout.Valid() && layout.Hard() && AllChangesFit(layout, all) && p in all
    requires IsLatest(all, m.key, m) && !Past(all, m) && m.op.Put? && IsEarlier(p, m)
    requires i < layout.width && Leaves(m, i) && !Leaves(p, i)
    ensures Carry(layout, commits, all)
    ensures var rows := After(layout, commits).rows;
            m.key in rows && |rows[m.key].cells| == layout.width == |p.cells| && rows[m.key].cells[i] == p.cells[i]
  {
    commits := SecondThenAll(layout, p, m, all);
    var first := Stored(Step(layout, EMPTY, p));
    FirstOnNothing(layout, p);
    SecondOnRow(layout, first, m);
    var s := Stored(Step(layout, first, m));
    assert NonePast(all, m.key, m.order);
    RowOutlasts(layout, s, all, m.key);
  }

  /** Two histories of the same changes that leave different tables, where some key is not decided. */
  lemma UndecidedDisagree(layout: Layout, changes: seq<Change>, key: nat)
    returns (some: seq<seq<Change>>, others: seq<seq<Change>>)
    requires layout.Valid() && layout.Hard() && AllChangesFit(layout, changes) && !Decided(changes, key)
    ensures !Agree(layout, changes, some, others)
  {
    var m, n :| IsLatest(changes, key, m) && IsLatest(changes, key, n) && !Past(changes, m)
                && !(Alike(m, n) && Unfed(changes, m));
    others := FirstDecides(layout, m, changes);
    if !Alike(m, n) {
      some := FirstDecides(layout, n, changes);
      if m.op.Put? && n.op.Put? {
        var i: nat :| !SameBare(m, n, i);
        assert After(layout, some).rows[key].cells[i] != After(layout, others).rows[key].cells[i];
      }
    } else {
      var p, i: nat :| p in changes && IsEarlier(p, m) && !Silent(m, p, i);
      FitsOne(layout, changes, p);
      some := FedDecides(layout, p, m, changes, i);
      assert After(layout, some).rows[key].cells[i] != After(layout, others).rows[key].cells[i];
    }
  }

  /** Every history of the same changes, in whatever order, grouping and repetition, leaves the same rows,
      tombstones and bound, if and only if each key is decided by the changes themselves. */
  lemma ConvergesExactlyWhenDecided(layout: Layout, changes: seq<Change>)
    requires layout.Valid() && layout.Hard() && AllChangesFit(layout, changes)
    ensures (forall some, others :: Agree(layout, changes, some, others)) <==> forall key :: Decided(changes, key)
  {
    if forall key :: Decided(changes, key) {
      forall some, others ensures Agree(layout, changes, some, others) {
        DecidedAgree(layout, changes, some, others);
      }
    } else {
      var key :| !Decided(changes, key);
      var some, others := UndecidedDisagree(layout, changes, key);
    }
  }

  /** Two puts of one key and sequence: the first to arrive stays. */
  lemma TiedPutsDisagree() returns (some: seq<seq<Change>>, others: seq<seq<Change>>)
    ensures var layout := Layout(2, 0, None);
            var a, b := Change(Put, 1, 5, [Some(5), Some(1)], None), Change(Put, 1, 5, [Some(5), Some(2)], None);
            !Agree(layout, [a, b], some, others)
  {
    var layout := Layout(2, 0, None);
    var a, b := Change(Put, 1, 5, [Some(5), Some(1)], None), Change(Put, 1, 5, [Some(5), Some(2)], None);
    assert a in [a, b] && b in [a, b];
    some := FirstDecides(layout, a, [a, b]);
    others := FirstDecides(layout, b, [a, b]);
    assert Bare(a, 1) != Bare(b, 1);
  }

  /** An update that leaves a column takes it from whichever row it finds. */
  lemma LeftColumnsDisagree() returns (some: seq<seq<Change>>, others: seq<seq<Change>>)
    ensures var layout := Layout(2, 0, None);
            var p, m := Change(Put, 1, 5, [Some(5), Some(1)], None),
                        Change(Put, 1, 7, [Some(7), None], Some([false, true]));
            !Agree(layout, [p, m], some, others)
  {
    var layout := Layout(2, 0, None);
    var p, m := Change(Put, 1, 5, [Some(5), Some(1)], None), Change(Put, 1, 7, [Some(7), None], Some([false, true]));
    assert p in [p, m] && m in [p, m];
    others := FirstDecides(layout, m, [p, m]);
    some := FedDecides(layout, p, m, [p, m], 1);
    assert Bare(m, 1) == None;
  }
}
