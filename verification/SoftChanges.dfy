/** Where deletes are soft: exactly when every history of the same changes leaves the same table. */
module SoftChanges {
  import opened Wrappers
  import opened Common
  import opened Changes
  import opened ChangesProof
  import opened ChangesReplayed

  /** A change as it is written where deletes are soft: a put is of a live row and leaves neither its
      sequence nor its deletion time, and a delete or a truncate says when. */
  predicate IsTimed(layout: Layout, c: Change)
    requires layout.Valid() && !layout.Hard() && Fits(layout, c)
  {
    var at := layout.deleted.value;
    if c.op.Put? then !Leaves(c, layout.sequence) && !Leaves(c, at) && c.cells[at].None? else c.cells[at].Some?
  }

  ghost predicate AllTimed(layout: Layout, changes: seq<Change>)
    requires layout.Valid() && !layout.Hard() && AllChangesFit(layout, changes)
  {
    forall i | 0 <= i < |changes| :: IsTimed(layout, changes[i])
  }

  lemma TimedOne(layout: Layout, changes: seq<Change>, c: Change)
    requires layout.Valid() && !layout.Hard() && AllChangesFit(layout, changes) && AllTimed(layout, changes)
    requires c in changes
    ensures Fits(layout, c) && IsTimed(layout, c)
  {
    var i :| 0 <= i < |changes| && changes[i] == c;
  }

  predicate IsPut(c: Change, key: nat) { c.op.Put? && c.key == key }

  /** Whether a change is a delete of a key, or a truncate. */
  predicate Removes(c: Change, key: nat) { !c.op.Put? && Touches(c, key) }

  /** Whether `q` is a put of a key past which there is none. */
  ghost predicate IsTop(all: seq<Change>, key: nat, q: Change) {
    q in all && IsPut(q, key) && forall c | c in all && IsPut(c, key) :: c.order <= q.order
  }

  /** Whether nothing removes a key past its last put. */
  ghost predicate Unremoved(all: seq<Change>, key: nat, q: Change) {
    forall d | d in all && Removes(d, key) :: d.order <= q.order
  }

  /** Whether, where something removes the key at its last put's own sequence, no put is before it. */
  ghost predicate Untied(all: seq<Change>, key: nat, q: Change) {
    forall d, p | d in all && p in all && Removes(d, key) && d.order == q.order && IsPut(p, key) :: p.order == q.order
  }

  /** Whether a key's last puts leave the same cells, none of which an earlier put sets where they leave it;
      nothing removes the key past them; and nothing does at their own sequence where a put is before them. */
  ghost predicate SoftDecided(all: seq<Change>, key: nat) {
    forall q, r | IsTop(all, key, q) && IsTop(all, key, r) ::
      Alike(q, r) && Unfed(all, q) && Unremoved(all, key, q) && Untied(all, key, q)
  }

  /** Of changes as they are written, a truncate and one no earlier, of one sequence cell where they are of one
      sequence, come to the same in one commit or two if and only if the truncate does not give the change's
      row its sequence, or the change is a delete. */
  lemma WrittenInALaterCommit(layout: Layout, s: State, t: Change, c: Change)
    requires layout.Valid() && !layout.Hard() && Fits(layout, t) && Fits(layout, c) && IsStored(layout, s)
    requires t.op.Truncate? && !c.op.Truncate? && t.order <= c.order && IsTimed(layout, t) && IsTimed(layout, c)
    requires t.order == c.order ==> t.cells[layout.sequence] == c.cells[layout.sequence]
    ensures Merged(layout, Merged(layout, s, [t]), [c]) == Merged(layout, s, [t, c])
            <==> !Tied(s, t, c) || c.op.Delete?
  {
    SameSequenceInALaterCommit(layout, s, t, c);
    if Tied(s, t, c) && c.op.Put? {
      assert !PutsMarked(layout, s.rows[c.key], t, c, layout.deleted.value);
    }
  }

  // ----- What every history leaves -----

  predicate IsMarked(layout: Layout, row: Row)
    requires layout.Valid() && !layout.Hard() && |row.cells| == layout.width
  {
    row.cells[layout.deleted.value].Some?
  }

  /** Whether a row stands at a change that touches its key: a put where it is live, a removal where it is not. */
  ghost predicate StandsAt(layout: Layout, row: Row, done: seq<Change>, key: nat)
    requires layout.Valid() && !layout.Hard() && |row.cells| == layout.width
  {
    exists c :: c in done && Touches(c, key) && c.order == row.order && (c.op.Put? <==> !IsMarked(layout, row))
  }

  /** Whether a key has a row exactly where a change put it, one no put of it is past. */
  ghost predicate RowHolds(layout: Layout, s: State, done: seq<Change>, key: nat)
    requires IsSoft(layout, s)
  {
    && (key in s.rows <==> exists p :: p in done && IsPut(p, key))
    && (key in s.rows ==> (forall p | p in done && IsPut(p, key) :: p.order <= s.rows[key].order)
                          && StandsAt(layout, s.rows[key], done, key))
  }

  lemma StepHolds(layout: Layout, s: State, done: seq<Change>, c: Change, key: nat)
    requires IsSoft(layout, s) && Fits(layout, c) && IsTimed(layout, c) && RowHolds(layout, s, done, key)
    ensures IsSoft(layout, Step(layout, s, c)) && RowHolds(layout, Step(layout, s, c), done + [c], key)
  {
    SoftStep(layout, s, c, key);
    assert forall p :: p in done + [c] <==> p in done || p == c;
    var after := Step(layout, s, c).rows;
    if key in after {
      if key in s.rows && after[key].order == s.rows[key].order
         && IsMarked(layout, after[key]) == IsMarked(layout, s.rows[key]) {
        var d :| d in done && Touches(d, key) && d.order == s.rows[key].order
                 && (d.op.Put? <==> !IsMarked(layout, s.rows[key]));
        assert d in done + [c];
      } else {
        WroteBy(layout, s, c, key);
        assert c in done + [c];
      }
    }
    if exists p :: p in done && IsPut(p, key) {
      var p :| p in done && IsPut(p, key);
      assert p in done + [c];
    }
  }

  /** A change that gives a key's row another sequence, or marks or unmarks it, gives it its own. */
  lemma WroteBy(layout: Layout, s: State, c: Change, key: nat)
    requires IsSoft(layout, s) && Fits(layout, c) && IsTimed(layout, c) && key in Step(layout, s, c).rows
    requires var row := Step(layout, s, c).rows[key];
             key !in s.rows || row.order != s.rows[key].order || IsMarked(layout, row) != IsMarked(layout, s.rows[key])
    ensures var row := Step(layout, s, c).rows[key];
            Touches(c, key) && c.order == row.order && (c.op.Put? <==> !IsMarked(layout, row))
  {
  }

  lemma {:induction false} StepsHold(layout: Layout, s: State, done: seq<Change>, changes: seq<Change>, key: nat)
    requires IsSoft(layout, s) && AllChangesFit(layout, changes) && AllTimed(layout, changes)
    requires RowHolds(layout, s, done, key)
    ensures IsSoft(layout, Steps(layout, s, changes))
    ensures RowHolds(layout, Steps(layout, s, changes), done + changes, key)
  {
    if changes == [] {
      assert done + changes == done;
    } else {
      var init, last := changes[..|changes| - 1], changes[|changes| - 1];
      StepsHold(layout, s, done, init, key);
      StepHolds(layout, Steps(layout, s, init), done + init, last, key);
      assert done + init + [last] == done + changes;
    }
  }

  lemma HoldsStored(layout: Layout, s: State, done: seq<Change>, others: seq<Change>, key: nat)
    requires IsSoft(layout, s) && RowHolds(layout, s, done, key) && forall c :: c in done <==> c in others
    ensures IsSoft(layout, Stored(s)) && RowHolds(layout, Stored(s), others, key)
  {
    if key in s.rows {
      var d :| d in done && Touches(d, key) && d.order == s.rows[key].order
               && (d.op.Put? <==> !IsMarked(layout, s.rows[key]));
      assert d in others;
    }
  }

  lemma SortedTimed(layout: Layout, changes: seq<Change>)
    requires layout.Valid() && !layout.Hard() && AllChangesFit(layout, changes) && AllTimed(layout, changes)
    ensures AllChangesFit(layout, Sorted(changes)) && AllTimed(layout, Sorted(changes))
  {
    SortedFits(layout, changes);
    forall i | 0 <= i < |Sorted(changes)| ensures IsTimed(layout, Sorted(changes)[i]) {
      SortedHas(changes, Sorted(changes)[i]);
      TimedOne(layout, changes, Sorted(changes)[i]);
    }
  }

  ghost predicate CommitTimed(layout: Layout, commits: seq<seq<Change>>, i: nat)
    requires layout.Valid() && !layout.Hard() && AllCommitsFit(layout, commits)
  {
    i < |commits| ==> AllChangesFit(layout, commits[i]) && AllTimed(layout, commits[i])
  }

  /** Over every history, a key has a row exactly where a change put it; no put of it is past that row; and
      the row is live or marked as the change it stands at is a put of its key or removes it. */
  lemma {:induction false} LastToWrite(layout: Layout, commits: seq<seq<Change>>, key: nat)
    requires layout.Valid() && !layout.Hard() && AllCommitsFit(layout, commits)
    requires forall i: nat :: CommitTimed(layout, commits, i)
    ensures IsSoft(layout, After(layout, commits)) && RowHolds(layout, After(layout, commits), Flat(commits), key)
  {
    if commits != [] {
      var init, last := commits[..|commits| - 1], commits[|commits| - 1];
      forall i: nat ensures CommitTimed(layout, init, i) {
        assert CommitTimed(layout, commits, i);
      }
      LastToWrite(layout, init, key);
      assert CommitTimed(layout, commits, |commits| - 1);
      SortedTimed(layout, last);
      forall c ensures c in Sorted(last) <==> c in last {
        SortedHas(last, c);
      }
      StepsHold(layout, After(layout, init), Flat(init), Sorted(last), key);
      HoldsStored(layout, Steps(layout, After(layout, init), Sorted(last)), Flat(init) + Sorted(last),
                  Flat(commits), key);
    }
  }

  // ----- A decided key comes to its last put -----

  ghost predicate Topped(all: seq<Change>, done: seq<Change>, key: nat) {
    exists r :: r in done && IsTop(all, key, r)
  }

  /** Whether a row has a put of its key at or before it. */
  ghost predicate HasPut(all: seq<Change>, s: State, key: nat) {
    key in s.rows ==> exists p :: p in all && IsPut(p, key) && p.order <= s.rows[key].order
  }

  /** Whether a row's cell is none, or one that a put at or before the row sets. */
  ghost predicate CellSourced(all: seq<Change>, row: Row, key: nat, i: nat)
    requires i < |row.cells|
  {
    row.cells[i].Some? ==>
      exists p :: p in all && IsPut(p, key) && p.order <= row.order && !Leaves(p, i) && i < |p.cells|
                  && p.cells[i] == row.cells[i]
  }

  ghost predicate RowSourced(layout: Layout, all: seq<Change>, row: Row, key: nat)
    requires layout.Valid() && !layout.Hard() && |row.cells| == layout.width
  {
    forall i: nat | i < layout.width && i != layout.sequence && i != layout.deleted.value ::
      CellSourced(all, row, key, i)
  }

  ghost predicate Sourced(layout: Layout, all: seq<Change>, s: State, key: nat)
    requires IsSoft(layout, s)
  {
    key in s.rows ==> RowSourced(layout, all, s.rows[key], key)
  }

  /** The cells a put leaves on no row. */
  function BareCells(m: Change): seq<Cell> { seq(|m.cells|, i requires 0 <= i < |m.cells| => Bare(m, i)) }

  /** What a table holds of a decided key: its last put's row once one of them arrived, and until then a row
      before it, or none. */
  ghost predicate Stands(layout: Layout, all: seq<Change>, s: State, done: seq<Change>, q: Change)
    requires IsSoft(layout, s)
  {
    && HasPut(all, s, q.key) && Sourced(layout, all, s, q.key)
    && (if Topped(all, done, q.key) then q.key in s.rows && s.rows[q.key] == Row(q.order, BareCells(q), false)
        else q.key in s.rows ==> s.rows[q.key].order < q.order)
  }

  lemma CellStays(all: seq<Change>, row: Row, later: Row, key: nat, i: nat)
    requires i < |row.cells| && CellSourced(all, row, key, i)
    requires i < |later.cells| && later.cells[i] == row.cells[i] && row.order <= later.order
    ensures CellSourced(all, later, key, i)
  {
    if row.cells[i].Some? {
      var p :| p in all && IsPut(p, key) && p.order <= row.order && !Leaves(p, i) && i < |p.cells|
               && p.cells[i] == row.cells[i];
    }
  }

  /** A row that a removal marks, or nothing changes, keeps its data. */
  lemma RowStaysSourced(layout: Layout, all: seq<Change>, row: Row, later: Row, key: nat)
    requires layout.Valid() && !layout.Hard() && |row.cells| == layout.width == |later.cells|
    requires RowSourced(layout, all, row, key) && row.order <= later.order
    requires forall i | 0 <= i < layout.width && i != layout.sequence && i != layout.deleted.value ::
               later.cells[i] == row.cells[i]
    ensures RowSourced(layout, all, later, key)
  {
    forall i: nat | i < layout.width && i != layout.sequence && i != layout.deleted.value
      ensures CellSourced(all, later, key, i) {
      CellStays(all, row, later, key, i);
    }
  }

  lemma PutSourced(layout: Layout, all: seq<Change>, current: Option<Row>, c: Change)
    requires layout.Valid() && !layout.Hard() && Fits(layout, c) && c in all && c.op.Put?
    requires current.Some? ==> |current.value.cells| == layout.width && current.value.order <= c.order
                               && RowSourced(layout, all, current.value, c.key)
    ensures RowSourced(layout, all, Row(c.order, Composed(layout, current, c), false), c.key)
  {
    var later := Row(c.order, Composed(layout, current, c), false);
    forall i: nat | i < layout.width && i != layout.sequence && i != layout.deleted.value
      ensures CellSourced(all, later, c.key, i) {
      if Leaves(c, i) && current.Some? {
        CellStays(all, current.value, later, c.key, i);
      }
    }
  }

  lemma SourcedStays(layout: Layout, all: seq<Change>, s: State, c: Change, key: nat)
    requires IsSoft(layout, s) && Fits(layout, c) && c in all && Sourced(layout, all, s, key)
    ensures IsSoft(layout, Step(layout, s, c)) && Sourced(layout, all, Step(layout, s, c), key)
  {
    SoftStep(layout, s, c, key);
    if Touches(c, key) && !(key in s.rows && Behind(s.rows[key], c)) {
      if c.op.Put? {
        PutSourced(layout, all, At(s.rows, key), c);
      } else if key in s.rows {
        RowStaysSourced(layout, all, s.rows[key], Step(layout, s, c).rows[key], key);
      }
    }
  }

  lemma HasPutStays(layout: Layout, all: seq<Change>, s: State, c: Change, key: nat)
    requires IsSoft(layout, s) && Fits(layout, c) && c in all && HasPut(all, s, key)
    ensures HasPut(all, Step(layout, s, c), key)
  {
    SoftStep(layout, s, c, key);
    if key in s.rows {
      var p :| p in all && IsPut(p, key) && p.order <= s.rows[key].order;
    }
  }

  lemma ToppedOneMore(all: seq<Change>, done: seq<Change>, c: Change, key: nat)
    ensures Topped(all, done + [c], key) <==> Topped(all, done, key) || IsTop(all, key, c)
  {
    if Topped(all, done, key) {
      var r :| r in done && IsTop(all, key, r);
      assert r in done + [c];
    }
    if IsTop(all, key, c) {
      assert c in done + [c];
    }
  }

  /** A key whose last put arrived keeps its row. */
  lemma ToppedStays(layout: Layout, all: seq<Change>, s: State, q: Change, c: Change)
    requires IsSoft(layout, s) && Fits(layout, c) && c in all && IsTop(all, q.key, q) && Unremoved(all, q.key, q)
    requires q.key in s.rows && s.rows[q.key] == Row(q.order, BareCells(q), false)
    ensures At(Step(layout, s, c).rows, q.key) == Some(s.rows[q.key])
  {
    RowStays(layout, s, c, q.key);
  }

  lemma TopCell(layout: Layout, all: seq<Change>, row: Row, c: Change, i: nat)
    requires layout.Valid() && !layout.Hard() && Fits(layout, c) && IsTimed(layout, c) && c.op.Put? && Unfed(all, c)
    requires |row.cells| == layout.width && RowSourced(layout, all, row, c.key) && row.order < c.order
    requires i < layout.width && Leaves(c, i)
    ensures row.cells[i] == None
  {
    assert CellSourced(all, row, c.key, i);
    if row.cells[i].Some? {
      var p :| p in all && IsPut(p, c.key) && p.order <= row.order && !Leaves(p, i) && i < |p.cells|
               && p.cells[i] == row.cells[i];
      UnfedAt(all, c, p, i);
    }
  }

  /** A last put that arrives makes the key's row its own. */
  lemma TopArrives(layout: Layout, all: seq<Change>, s: State, c: Change)
    requires IsSoft(layout, s) && Fits(layout, c) && IsTimed(layout, c) && c.op.Put? && Unfed(all, c)
    requires Sourced(layout, all, s, c.key) && (c.key in s.rows ==> s.rows[c.key].order < c.order)
    ensures At(Step(layout, s, c).rows, c.key) == Some(Row(c.order, BareCells(c), false))
  {
    var cells := Composed(layout, At(s.rows, c.key), c);
    forall i | 0 <= i < layout.width ensures cells[i] == BareCells(c)[i] {
      if Leaves(c, i) && c.key in s.rows {
        TopCell(layout, all, s.rows[c.key], c, i);
      }
    }
    assert cells == BareCells(c);
  }

  lemma AlikeCells(m: Change, n: Change)
    requires Alike(m, n) && m.op.Put? && |m.cells| == |n.cells|
    ensures BareCells(m) == BareCells(n)
  {
    forall i | 0 <= i < |m.cells| ensures Bare(m, i) == Bare(n, i) {
      assert SameBare(m, n, i);
    }
  }

  /** Any other change leaves the key a row before its last put, or none. */
  lemma OtherStaysBefore(layout: Layout, s: State, c: Change, key: nat, order: nat)
    requires IsSoft(layout, s) && Fits(layout, c)
    requires key in s.rows ==> s.rows[key].order < order
    requires IsPut(c, key) || (Removes(c, key) && key in s.rows) ==> c.order < order
    ensures key in Step(layout, s, c).rows ==> Step(layout, s, c).rows[key].order < order
  {
  }

  lemma StandsOn(layout: Layout, all: seq<Change>, s: State, done: seq<Change>, q: Change, c: Change)
    requires IsSoft(layout, s) && AllChangesFit(layout, all) && AllTimed(layout, all) && c in all
    requires IsTop(all, q.key, q) && SoftDecided(all, q.key) && Stands(layout, all, s, done, q)
    ensures Fits(layout, c) && IsSoft(layout, Step(layout, s, c))
    ensures Stands(layout, all, Step(layout, s, c), done + [c], q)
  {
    TimedOne(layout, all, c);
    TimedOne(layout, all, q);
    HasPutStays(layout, all, s, c, q.key);
    SourcedStays(layout, all, s, c, q.key);
    ToppedOneMore(all, done, c, q.key);
    if Topped(all, done, q.key) {
      assert Unremoved(all, q.key, q);
      ToppedStays(layout, all, s, q, c);
    } else if IsTop(all, q.key, c) {
      assert Alike(c, q) && Unfed(all, c);
      TopArrives(layout, all, s, c);
      AlikeCells(c, q);
    } else {
      OthersBefore(all, s, q, c);
      OtherStaysBefore(layout, s, c, q.key, q.order);
    }
  }

  lemma OthersBefore(all: seq<Change>, s: State, q: Change, c: Change)
    requires IsTop(all, q.key, q) && SoftDecided(all, q.key) && c in all && !IsTop(all, q.key, c)
    requires HasPut(all, s, q.key) && (q.key in s.rows ==> s.rows[q.key].order < q.order)
    ensures IsPut(c, q.key) || (Removes(c, q.key) && q.key in s.rows) ==> c.order < q.order
  {
    assert Unremoved(all, q.key, q) && Untied(all, q.key, q);
    if Removes(c, q.key) && q.key in s.rows {
      var p :| p in all && IsPut(p, q.key) && p.order <= s.rows[q.key].order;
    }
  }

  lemma {:induction false} StepsStand(layout: Layout, all: seq<Change>, s: State, done: seq<Change>, q: Change,
                                      changes: seq<Change>)
    requires IsSoft(layout, s) && AllChangesFit(layout, changes) && AllChangesFit(layout, all) && AllTimed(layout, all)
    requires forall c | c in changes :: c in all
    requires IsTop(all, q.key, q) && SoftDecided(all, q.key) && Stands(layout, all, s, done, q)
    ensures IsSoft(layout, Steps(layout, s, changes))
    ensures Stands(layout, all, Steps(layout, s, changes), done + changes, q)
  {
    if changes == [] {
      assert done + changes == done;
    } else {
      var init, last := changes[..|changes| - 1], changes[|changes| - 1];
      assert last in changes && forall c | c in init :: c in changes;
      StepsStand(layout, all, s, done, q, init);
      SoftSteps(layout, s, init, last, q.key);
      StandsOn(layout, all, Steps(layout, s, init), done + init, q, last);
      assert done + init + [last] == done + changes;
    }
  }

  lemma StandsStored(layout: Layout, all: seq<Change>, s: State, done: seq<Change>, others: seq<Change>, q: Change)
    requires IsSoft(layout, s) && Stands(layout, all, s, done, q) && forall c :: c in done <==> c in others
    ensures IsSoft(layout, Stored(s)) && Stands(layout, all, Stored(s), others, q)
  {
    assert Topped(all, done, q.key) <==> Topped(all, others, q.key);
    if q.key in s.rows {
      var p :| p in all && IsPut(p, q.key) && p.order <= s.rows[q.key].order;
      RowStaysSourced(layout, all, s.rows[q.key], Stored(s).rows[q.key], q.key);
    }
  }

  lemma {:induction false} AfterStands(layout: Layout, all: seq<Change>, commits: seq<seq<Change>>, q: Change)
    requires layout.Valid() && !layout.Hard() && AllCommitsFit(layout, commits)
    requires AllChangesFit(layout, all) && AllTimed(layout, all) && forall c | c in Flat(commits) :: c in all
    requires IsTop(all, q.key, q) && SoftDecided(all, q.key)
    ensures IsSoft(layout, After(layout, commits)) && Stands(layout, all, After(layout, commits), Flat(commits), q)
  {
    if commits != [] {
      var init, last := commits[..|commits| - 1], commits[|commits| - 1];
      AfterStands(layout, all, init, q);
      SortedFits(layout, last);
      forall c ensures c in Sorted(last) <==> c in last {
        SortedHas(last, c);
      }
      StepsStand(layout, all, After(layout, init), Flat(init), q, Sorted(last));
      StandsStored(layout, all, Steps(layout, After(layout, init), Sorted(last)), Flat(init) + Sorted(last),
                   Flat(commits), q);
    }
  }

  /** No row is of a key no change puts. */
  lemma NoRowUnput(layout: Layout, s: State, c: Change, key: nat)
    requires IsSoft(layout, s) && Fits(layout, c) && key !in s.rows && !IsPut(c, key)
    ensures key !in Step(layout, s, c).rows
  {
  }

  lemma {:induction false} NoRowUnputThrough(layout: Layout, s: State, changes: seq<Change>, key: nat)
    requires IsSoft(layout, s) && AllChangesFit(layout, changes) && key !in s.rows
    requires forall c | c in changes :: !IsPut(c, key)
    ensures key !in Steps(layout, s, changes).rows
  {
    if changes != [] {
      var init, last := changes[..|changes| - 1], changes[|changes| - 1];
      assert last in changes && forall c | c in init :: c in changes;
      NoRowUnputThrough(layout, s, init, key);
      SoftSteps(layout, s, init, last, key);
      NoRowUnput(layout, Steps(layout, s, init), last, key);
    }
  }

  lemma {:induction false} NoRowUnputEver(layout: Layout, commits: seq<seq<Change>>, key: nat)
    requires layout.Valid() && !layout.Hard() && AllCommitsFit(layout, commits)
    requires forall c | c in Flat(commits) :: !IsPut(c, key)
    ensures key !in After(layout, commits).rows
  {
    if commits != [] {
      var init, last := commits[..|commits| - 1], commits[|commits| - 1];
      NoRowUnputEver(layout, init, key);
      SortedFits(layout, last);
      forall c | c in Sorted(last) ensures !IsPut(c, key) {
        SortedHas(last, c);
        assert c in Flat(commits);
      }
      AfterIsSoft(layout, init);
      NoRowUnputThrough(layout, After(layout, init), Sorted(last), key);
    }
  }

  lemma AfterIsSoft(layout: Layout, commits: seq<seq<Change>>)
    requires layout.Valid() && !layout.Hard() && AllCommitsFit(layout, commits)
    ensures IsSoft(layout, After(layout, commits))
  {
    AfterIsStored(layout, commits);
  }

  lemma {:induction false} SomeIsTop(all: seq<Change>, key: nat) returns (q: Change)
    requires exists c :: c in all && IsPut(c, key)
    ensures IsTop(all, key, q)
  {
    var init, last := all[..|all| - 1], all[|all| - 1];
    assert all == init + [last];
    if exists c :: c in init && IsPut(c, key) {
      q := SomeIsTop(init, key);
      if IsPut(last, key) && last.order > q.order {
        q := last;
      }
    } else {
      q := last;
    }
  }

  /** Whether a row, or none, is what the changes decide of a key: its last put's, or none where none puts it. */
  ghost predicate IsOutcome(all: seq<Change>, key: nat, row: Option<Row>) {
    match row
    case Some(r) => exists q :: IsTop(all, key, q) && r == Row(q.order, BareCells(q), false)
    case None => forall c | c in all :: !IsPut(c, key)
  }

  lemma OneOutcome(layout: Layout, all: seq<Change>, key: nat, a: Option<Row>, b: Option<Row>)
    requires AllChangesFit(layout, all) && SoftDecided(all, key) && IsOutcome(all, key, a) && IsOutcome(all, key, b)
    ensures a == b
  {
    if a.Some? && b.Some? {
      var q :| IsTop(all, key, q) && a.value == Row(q.order, BareCells(q), false);
      var r :| IsTop(all, key, r) && b.value == Row(r.order, BareCells(r), false);
      FitsOne(layout, all, q);
      FitsOne(layout, all, r);
      assert Alike(q, r);
      AlikeCells(q, r);
    }
  }

  /** What every history of changes leaves of a decided key. */
  lemma DecidedRow(layout: Layout, all: seq<Change>, commits: seq<seq<Change>>, key: nat)
    requires layout.Valid() && !layout.Hard() && AllChangesFit(layout, all) && AllTimed(layout, all)
    requires Carry(layout, commits, all) && SoftDecided(all, key)
    ensures IsOutcome(all, key, At(After(layout, commits).rows, key))
  {
    if exists c :: c in all && IsPut(c, key) {
      var q := SomeIsTop(all, key);
      AfterStands(layout, all, commits, q);
      assert q in Flat(commits);
      assert Topped(all, Flat(commits), key);
    } else {
      NoRowUnputEver(layout, commits, key);
    }
  }

  lemma RowsAgree(layout: Layout, all: seq<Change>, some: seq<seq<Change>>, others: seq<seq<Change>>, key: nat)
    requires layout.Valid() && !layout.Hard() && AllChangesFit(layout, all) && AllTimed(layout, all)
    requires SoftDecided(all, key) && Carry(layout, some, all) && Carry(layout, others, all)
    ensures At(After(layout, some).rows, key) == At(After(layout, others).rows, key)
  {
    DecidedRow(layout, all, some, key);
    DecidedRow(layout, all, others, key);
    OneOutcome(layout, all, key, At(After(layout, some).rows, key), At(After(layout, others).rows, key));
  }

  lemma SoftDecidedAgree(layout: Layout, all: seq<Change>, some: seq<seq<Change>>, others: seq<seq<Change>>)
    requires layout.Valid() && !layout.Hard() && AllChangesFit(layout, all) && AllTimed(layout, all)
    requires forall key :: SoftDecided(all, key)
    ensures Agree(layout, all, some, others)
  {
    if Carry(layout, some, all) && Carry(layout, others, all) {
      AfterIsSoft(layout, some);
      AfterIsSoft(layout, others);
      forall key ensures At(After(layout, some).rows, key) == At(After(layout, others).rows, key) {
        assert SoftDecided(all, key);
        RowsAgree(layout, all, some, others, key);
      }
      MapsAgree(After(layout, some).rows, After(layout, others).rows);
    }
  }

  // ----- And one that is not does not -----

  /** The puts among changes, or the others. */
  function Only(all: seq<Change>, puts: bool): (some: seq<Change>)
    ensures forall c :: c in some <==> c in all && c.op.Put? == puts
  {
    if all == [] then []
    else
      var before, last := Only(all[..|all| - 1], puts), all[|all| - 1];
      assert all == all[..|all| - 1] + [last];
      if last.op.Put? == puts then before + [last] else before
  }

  lemma OnlyFits(layout: Layout, all: seq<Change>, puts: bool)
    requires AllChangesFit(layout, all)
    ensures AllChangesFit(layout, Only(all, puts))
  {
    forall i | 0 <= i < |Only(all, puts)| ensures Fits(layout, Only(all, puts)[i]) {
      FitsOne(layout, all, Only(all, puts)[i]);
    }
  }

  lemma {:induction false} PutsStayBelow(layout: Layout, s: State, changes: seq<Change>, key: nat, order: nat)
    requires IsSoft(layout, s) && AllChangesFit(layout, changes)
    requires key in s.rows ==> s.rows[key].order <= order
    requires forall c | c in changes :: c.op.Put? && (c.key == key ==> c.order <= order)
    ensures key in Steps(layout, s, changes).rows ==> Steps(layout, s, changes).rows[key].order <= order
  {
    if changes != [] {
      var init, last := changes[..|changes| - 1], changes[|changes| - 1];
      assert last in changes && forall c | c in init :: c in changes;
      PutsStayBelow(layout, s, init, key, order);
      SoftSteps(layout, s, init, last, key);
    }
  }

  lemma NoCommits(layout: Layout) returns (none: seq<seq<Change>>)
    requires layout.Valid()
    ensures AllCommitsFit(layout, none) && Flat(none) == [] && After(layout, none) == EMPTY
  {
    none := [];
  }

  lemma ThenOneCommit(layout: Layout, commits: seq<seq<Change>>, a: seq<Change>) returns (more: seq<seq<Change>>)
    requires layout.Valid() && AllCommitsFit(layout, commits) && AllChangesFit(layout, a)
    ensures AllCommitsFit(layout, more) && Flat(more) == Flat(commits) + a
    ensures After(layout, more) == Merged(layout, After(layout, commits), a)
  {
    more := commits + [a];
    assert more[..|more| - 1] == commits;
  }

  /** A history in which every delete and truncate arrives before any row leaves each key its last put. */
  lemma RemovalsFirst(layout: Layout, all: seq<Change>, q: Change) returns (commits: seq<seq<Change>>)
    requires layout.Valid() && !layout.Hard() && AllChangesFit(layout, all) && IsTop(all, q.key, q)
    ensures Carry(layout, commits, all)
    ensures q.key in After(layout, commits).rows ==> After(layout, commits).rows[q.key].order <= q.order
  {
    var removals, puts := Only(all, false), Only(all, true);
    OnlyFits(layout, all, false);
    OnlyFits(layout, all, true);
    var none := NoCommits(layout);
    var first := ThenOneCommit(layout, none, removals);
    SettledMergeIsNothing(layout, EMPTY, removals);
    commits := ThenOneCommit(layout, first, puts);
    SortedFits(layout, puts);
    forall c | c in Sorted(puts) ensures c.op.Put? && (c.key == q.key ==> c.order <= q.order) {
      SortedHas(puts, c);
    }
    PutsStayBelow(layout, EMPTY, Sorted(puts), q.key, q.order);
  }

  /** A removal past the last put marks its row, where it arrives after it, and leaves no trace where it
      arrives before it. */
  lemma RemovedDisagree(layout: Layout, all: seq<Change>, q: Change, d: Change)
    returns (some: seq<seq<Change>>, others: seq<seq<Change>>)
    requires layout.Valid() && !layout.Hard() && AllChangesFit(layout, all) && IsTop(all, q.key, q)
    requires d in all && Removes(d, q.key) && d.order > q.order
    ensures !Agree(layout, all, some, others)
  {
    others := RemovalsFirst(layout, all, q);
    some := SecondThenAll(layout, q, d, all);
    var first := Stored(Step(layout, EMPTY, q));
    var second := Stored(Step(layout, first, d));
    PutOnEmpty(layout, q);
    SoftStep(layout, first, d, q.key);
    assert IsSoft(layout, second) by {
      assert second.stones == map[];
    }
    SoftMerge(layout, second, all, d, q.key);
  }

  lemma PutOnEmpty(layout: Layout, q: Change)
    requires layout.Valid() && !layout.Hard() && Fits(layout, q) && q.op.Put?
    ensures var s := Stored(Step(layout, EMPTY, q));
            && IsSoft(layout, s) && q.key in s.rows && s.rows[q.key].order == q.order && !s.rows[q.key].truncated
            && s.rows[q.key].cells == BareCells(q)
  {
    assert Composed(layout, None, q) == BareCells(q);
    assert Stored(Step(layout, EMPTY, q)).stones == map[];
  }

  /** A last put that arrives first stays. */
  lemma TopFirst(layout: Layout, all: seq<Change>, q: Change) returns (commits: seq<seq<Change>>)
    requires layout.Valid() && !layout.Hard() && AllChangesFit(layout, all) && IsTop(all, q.key, q)
    requires Unremoved(all, q.key, q)
    ensures Carry(layout, commits, all)
    ensures At(After(layout, commits).rows, q.key) == Some(Row(q.order, BareCells(q), false))
  {
    commits := FirstThenAll(layout, q, all);
    PutOnEmpty(layout, q);
    assert NonePast(all, q.key, q.order);
    RowOutlasts(layout, Stored(Step(layout, EMPTY, q)), all, q.key);
  }

  /** An earlier put that a removal at the last one's sequence marks keeps the last one out. */
  lemma MarkedFirst(layout: Layout, all: seq<Change>, q: Change, p: Change, d: Change)
    returns (commits: seq<seq<Change>>)
    requires layout.Valid() && !layout.Hard() && AllChangesFit(layout, all) && IsTop(all, q.key, q)
    requires Unremoved(all, q.key, q) && p in all && d in all && IsPut(p, q.key) && p.order < q.order
    requires Removes(d, q.key) && d.order == q.order && Fits(layout, d) && d.cells[layout.deleted.value].Some?
    ensures Carry(layout, commits, all)
    ensures var rows := After(layout, commits).rows;
            q.key in rows && |rows[q.key].cells| == layout.width && rows[q.key].cells[layout.deleted.value].Some?
  {
    commits := SecondThenAll(layout, p, d, all);
    var first := Stored(Step(layout, EMPTY, p));
    PutOnEmpty(layout, p);
    MarkedRow(layout, first, d, q.key);
    assert NonePast(all, q.key, q.order);
    RowOutlasts(layout, Stored(Step(layout, first, d)), all, q.key);
  }

  lemma MarkedRow(layout: Layout, s: State, d: Change, key: nat)
    requires IsSoft(layout, s) && Fits(layout, d) && key in s.rows && s.rows[key].order < d.order && Removes(d, key)
    requires d.cells[layout.deleted.value].Some?
    ensures var rows := Stored(Step(layout, s, d)).rows;
            && key in rows && rows[key].order == d.order && !rows[key].truncated
            && |rows[key].cells| == layout.width && rows[key].cells[layout.deleted.value].Some?
  {
  }

  /** An earlier put that arrives first sets a cell the last one leaves. */
  lemma FedFirst(layout: Layout, all: seq<Change>, q: Change, p: Change, i: nat) returns (commits: seq<seq<Change>>)
    requires layout.Valid() && !layout.Hard() && AllChangesFit(layout, all) && IsTop(all, q.key, q)
    requires Unremoved(all, q.key, q) && p in all && IsPut(p, q.key) && p.order < q.order
    requires i < layout.width && Leaves(q, i) && !Leaves(p, i)
    ensures Carry(layout, commits, all)
    ensures var rows := After(layout, commits).rows;
            q.key in rows && |rows[q.key].cells| == layout.width == |p.cells| && rows[q.key].cells[i] == p.cells[i]
  {
    commits := SecondThenAll(layout, p, q, all);
    var first := Stored(Step(layout, EMPTY, p));
    PutOnEmpty(layout, p);
    PutOnRow(layout, first, q);
    assert NonePast(all, q.key, q.order);
    RowOutlasts(layout, Stored(Step(layout, first, q)), all, q.key);
  }

  lemma PutOnRow(layout: Layout, s: State, q: Change)
    requires IsSoft(layout, s) && Fits(layout, q) && q.op.Put? && q.key in s.rows && s.rows[q.key].order < q.order
    ensures var rows := Stored(Step(layout, s, q)).rows;
            && q.key in rows && rows[q.key].order == q.order && !rows[q.key].truncated
            && |rows[q.key].cells| == layout.width
            && forall i | 0 <= i < layout.width && Leaves(q, i) :: rows[q.key].cells[i] == s.rows[q.key].cells[i]
  {
  }

  lemma SoftUndecidedDisagree(layout: Layout, all: seq<Change>, key: nat)
    returns (some: seq<seq<Change>>, others: seq<seq<Change>>)
    requires layout.Valid() && !layout.Hard() && AllChangesFit(layout, all) && AllTimed(layout, all)
    requires !SoftDecided(all, key)
    ensures !Agree(layout, all, some, others)
  {
    var q, r :| IsTop(all, key, q) && IsTop(all, key, r)
                && !(Alike(q, r) && Unfed(all, q) && Unremoved(all, key, q) && Untied(all, key, q));
    if !Unremoved(all, key, q) {
      var d :| d in all && Removes(d, key) && d.order > q.order;
      some, others := RemovedDisagree(layout, all, q, d);
    } else if !Alike(q, r) {
      others := TopFirst(layout, all, q);
      some := TopFirst(layout, all, r);
      UnlikeCells(layout, all, q, r);
    } else if !Unfed(all, q) {
      some, others := FedDisagree(layout, all, q);
    } else {
      var d, p :| d in all && p in all && Removes(d, key) && d.order == q.order && IsPut(p, key) && p.order != q.order;
      others := TopFirst(layout, all, q);
      TimedOne(layout, all, q);
      TimedOne(layout, all, d);
      some := MarkedFirst(layout, all, q, p, d);
    }
  }

  lemma UnlikeCells(layout: Layout, all: seq<Change>, q: Change, r: Change)
    requires AllChangesFit(layout, all) && q in all && r in all && q.op.Put? && r.op.Put? && !Alike(q, r)
    ensures BareCells(q) != BareCells(r)
  {
    FitsOne(layout, all, q);
    FitsOne(layout, all, r);
    var i: nat :| !SameBare(q, r, i);
    assert BareCells(q)[i] != BareCells(r)[i];
  }

  lemma FedDisagree(layout: Layout, all: seq<Change>, q: Change)
    returns (some: seq<seq<Change>>, others: seq<seq<Change>>)
    requires layout.Valid() && !layout.Hard() && AllChangesFit(layout, all) && IsTop(all, q.key, q)
    requires Unremoved(all, q.key, q) && !Unfed(all, q)
    ensures !Agree(layout, all, some, others)
  {
    var p, i: nat :| p in all && IsEarlier(p, q) && !Silent(q, p, i);
    FitsOne(layout, all, p);
    others := TopFirst(layout, all, q);
    some := FedFirst(layout, all, q, p, i);
    assert After(layout, some).rows[q.key].cells[i] != After(layout, others).rows[q.key].cells[i];
  }

  /** Every history of the same changes leaves the same table where deletes are soft, if and only if each
      key is decided by the changes themselves: a delete or a truncate that arrives before its key's row
      leaves no trace. */
  lemma SoftConvergesExactlyWhenDecided(layout: Layout, all: seq<Change>)
    requires layout.Valid() && !layout.Hard() && AllChangesFit(layout, all) && AllTimed(layout, all)
    ensures (forall some, others :: Agree(layout, all, some, others)) <==> forall key :: SoftDecided(all, key)
  {
    if forall key :: SoftDecided(all, key) {
      forall some, others ensures Agree(layout, all, some, others) {
        SoftDecidedAgree(layout, all, some, others);
      }
    } else {
      var key :| !SoftDecided(all, key);
      var some, others := SoftUndecidedDisagree(layout, all, key);
    }
  }

  /** A row at five and its delete at seven: deleted where the row arrives first, and live where it does not. */
  lemma ADeleteBeforeItsRowLeavesNoTrace() returns (some: seq<seq<Change>>, others: seq<seq<Change>>)
    ensures var layout := Layout(3, 0, Some(2));
            var q, d := Change(Put, 1, 5, [Some(5), Some(8), None], None),
                        Change(Delete, 1, 7, [Some(7), None, Some(9)], None);
            !Agree(layout, [q, d], some, others)
  {
    var layout := Layout(3, 0, Some(2));
    var q, d := Change(Put, 1, 5, [Some(5), Some(8), None], None),
                Change(Delete, 1, 7, [Some(7), None, Some(9)], None);
    assert q in [q, d] && d in [q, d];
    some, others := RemovedDisagree(layout, [q, d], q, d);
  }
}
