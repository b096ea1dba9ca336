/** What sending changes again does to a change stream's table, and what grouping them otherwise into
    commits does, whether deletes are hard or soft. */
module ChangesReplayed {
  import opened Wrappers
  import opened Common
  import opened Changes
  import opened ChangesProof

  /** A table as it is stored: no row marked by a truncate, no tombstone the bound covers, no row before
      the bound; and where deletes are soft, neither tombstones nor a bound. */
  ghost predicate IsStored(layout: Layout, s: State) {
    && AllFit(layout, s.rows) && Clean(s)
    && (forall key | key in s.rows :: !s.rows[key].truncated && !Bounded(s.bound, s.rows[key].order))
    && (!layout.Hard() ==> s.stones == map[] && s.bound == None)
  }

  /** Whether a table is at or past a change already: its bound, its key's row or its key's tombstone is;
      and where deletes are soft, every row is past a truncate, and a delete has a row to mark. */
  ghost predicate Settled(layout: Layout, s: State, c: Change) {
    || Bounded(s.bound, c.order)
    || (if c.op.Truncate? then
          if layout.Hard() then s.bound.Some? && c.order <= s.bound.value
          else forall key | key in s.rows :: c.order <= s.rows[key].order
        else
          || (c.key in s.rows && c.order <= s.rows[c.key].order)
          || (c.key in s.stones && c.order <= s.stones[c.key])
          || (!layout.Hard() && c.op.Delete? && c.key !in s.rows))
  }

  // ----- A settled change changes nothing -----

  lemma SettledIsNothing(layout: Layout, s: State, c: Change)
    requires layout.Valid() && Fits(layout, c) && IsStored(layout, s) && Settled(layout, s, c)
    ensures Step(layout, s, c) == s
  {
    if Admits(s, c) {
      if c.op.Truncate? {
        MapsAgree(Truncating(layout, s.rows, c), s.rows);
      } else {
        assert c.key in s.rows ==> s.rows[c.key := s.rows[c.key]] == s.rows;
      }
    }
  }

  ghost predicate AllSettled(layout: Layout, s: State, changes: seq<Change>) {
    forall c | c in changes :: Settled(layout, s, c)
  }

  lemma {:induction false} SettledStepsAreNothing(layout: Layout, s: State, changes: seq<Change>)
    requires layout.Valid() && AllChangesFit(layout, changes) && IsStored(layout, s) && AllSettled(layout, s, changes)
    ensures Steps(layout, s, changes) == s
  {
    if changes != [] {
      SettledStepsAreNothing(layout, s, changes[..|changes| - 1]);
      SettledIsNothing(layout, s, changes[|changes| - 1]);
    }
  }

  lemma StoredAgain(layout: Layout, s: State)
    requires IsStored(layout, s)
    ensures Stored(s) == s
  {
    MapsAgree(Stored(s).rows, s.rows);
    assert Stored(s).stones == s.stones;
  }

  lemma SettledMergeIsNothing(layout: Layout, s: State, again: seq<Change>)
    requires layout.Valid() && AllChangesFit(layout, again) && IsStored(layout, s) && AllSettled(layout, s, again)
    ensures Merged(layout, s, again) == s
  {
    SortedFits(layout, again);
    forall c | c in Sorted(again) ensures Settled(layout, s, c) {
      SortedHas(again, c);
    }
    SettledStepsAreNothing(layout, s, Sorted(again));
    StoredAgain(layout, s);
  }

  // ----- Hard deletes: a change settles, and stays so -----

  lemma StepSettles(layout: Layout, s: State, c: Change)
    requires layout.Valid() && layout.Hard() && Fits(layout, c) && AllFit(layout, s.rows)
    ensures Settled(layout, Step(layout, s, c), c)
  {
  }

  lemma SettledStays(layout: Layout, s: State, c: Change, d: Change)
    requires layout.Valid() && layout.Hard() && Fits(layout, c) && AllFit(layout, s.rows) && Settled(layout, s, d)
    ensures Settled(layout, Step(layout, s, c), d)
  {
  }

  lemma {:induction false} StepsSettle(layout: Layout, s: State, done: seq<Change>, changes: seq<Change>)
    requires layout.Valid() && layout.Hard() && AllChangesFit(layout, changes) && AllFit(layout, s.rows)
    requires AllSettled(layout, s, done)
    ensures AllSettled(layout, Steps(layout, s, changes), done + changes)
  {
    if changes != [] {
      var init, last := changes[..|changes| - 1], changes[|changes| - 1];
      StepsSettle(layout, s, done, init);
      var before := Steps(layout, s, init);
      StepSettles(layout, before, last);
      forall d | d in done + changes ensures Settled(layout, Step(layout, before, last), d) {
        if d != last {
          assert d in done + init;
          SettledStays(layout, before, last, d);
        }
      }
    }
  }

  lemma StoringSettles(layout: Layout, s: State, c: Change)
    requires layout.Hard() && Settled(layout, s, c)
    ensures Settled(layout, Stored(s), c)
  {
  }

  lemma MergingSettles(layout: Layout, s: State, done: seq<Change>, incoming: seq<Change>)
    requires layout.Valid() && layout.Hard() && AllChangesFit(layout, incoming) && AllFit(layout, s.rows)
    requires AllSettled(layout, s, done)
    ensures AllSettled(layout, Merged(layout, s, incoming), done + incoming)
  {
    SortedFits(layout, incoming);
    StepsSettle(layout, s, done, Sorted(incoming));
    var after := Steps(layout, s, Sorted(incoming));
    forall c | c in done + incoming ensures Settled(layout, Stored(after), c) {
      SortedHas(incoming, c);
      assert c in done + Sorted(incoming);
      StoringSettles(layout, after, c);
    }
  }

  // ----- Soft deletes: rows stay, and only rise -----

  /** Whether a change is one of a key, or a truncate. */
  predicate Touches(c: Change, key: nat) { c.op.Truncate? || c.key == key }

  ghost predicate IsSoft(layout: Layout, s: State) {
    layout.Valid() && !layout.Hard() && AllFit(layout, s.rows) && s.stones == map[] && s.bound == None
  }

  lemma SoftStep(layout: Layout, s: State, c: Change, key: nat)
    requires IsSoft(layout, s) && Fits(layout, c)
    ensures IsSoft(layout, Step(layout, s, c))
    ensures var after := Step(layout, s, c).rows;
            && (key in s.rows ==> key in after && after[key].order >= s.rows[key].order)
            && (key in s.rows && Touches(c, key) ==> after[key].order >= c.order)
            && (c.op.Put? && c.key == key ==> key in after && after[key].order >= c.order)
  {
  }

  lemma {:induction false} SoftSteps(layout: Layout, s: State, changes: seq<Change>, c: Change, key: nat)
    requires IsSoft(layout, s) && AllChangesFit(layout, changes)
    ensures IsSoft(layout, Steps(layout, s, changes))
    ensures var after := Steps(layout, s, changes).rows;
            && (key in s.rows ==> key in after && after[key].order >= s.rows[key].order)
            && (key in s.rows && c in changes && Touches(c, key) ==> after[key].order >= c.order)
            && (c in changes && c.op.Put? && c.key == key ==> key in after && after[key].order >= c.order)
  {
    if changes != [] {
      var init, last := changes[..|changes| - 1], changes[|changes| - 1];
      assert changes == init + [last];
      SoftSteps(layout, s, init, c, key);
      SoftStep(layout, Steps(layout, s, init), last, key);
    }
  }

  lemma SoftMerge(layout: Layout, s: State, incoming: seq<Change>, c: Change, key: nat)
    requires IsSoft(layout, s) && AllChangesFit(layout, incoming)
    ensures IsSoft(layout, Merged(layout, s, incoming))
    ensures var after := Merged(layout, s, incoming).rows;
            && (key in s.rows ==> key in after && after[key].order >= s.rows[key].order)
            && (key in s.rows && c in incoming && Touches(c, key) ==> after[key].order >= c.order)
            && (c in incoming && c.op.Put? && c.key == key ==> key in after && after[key].order >= c.order)
  {
    SortedFits(layout, incoming);
    SortedHas(incoming, c);
    SoftSteps(layout, s, Sorted(incoming), c, key);
    assert Stored(Steps(layout, s, Sorted(incoming))).stones == map[];
  }

  /** What a merge that changes nothing was of: a row of an unsettled change would have risen, or come. */
  lemma SoftUnsettledChanges(layout: Layout, s: State, again: seq<Change>, c: Change)
    requires IsSoft(layout, s) && IsStored(layout, s) && AllChangesFit(layout, again)
    requires c in again && !Settled(layout, s, c)
    ensures Merged(layout, s, again) != s
  {
    var key := if c.op.Truncate? then var k :| k in s.rows && s.rows[k].order < c.order; k else c.key;
    SoftMerge(layout, s, again, c, key);
  }

  // ----- Exactly when a merge changes nothing -----

  /** A merge leaves a stored table as it is, if and only if the table is at or past each of its changes
      already. */
  lemma NothingChangesExactlyWhenSettled(layout: Layout, s: State, again: seq<Change>)
    requires layout.Valid() && IsStored(layout, s) && AllChangesFit(layout, again)
    ensures Merged(layout, s, again) == s <==> AllSettled(layout, s, again)
  {
    if AllSettled(layout, s, again) {
      SettledMergeIsNothing(layout, s, again);
    } else if layout.Hard() {
      MergingSettles(layout, s, [], again);
      assert [] + again == again;
    } else {
      var c :| c in again && !Settled(layout, s, c);
      SoftUnsettledChanges(layout, s, again, c);
    }
  }

  // ----- Every table a history leaves is stored -----

  ghost predicate PastBound(layout: Layout, s: State) {
    && (forall key | key in s.rows :: !Bounded(s.bound, s.rows[key].order))
    && (!layout.Hard() ==> s.stones == map[] && s.bound == None)
  }

  lemma StepPastBound(layout: Layout, s: State, c: Change)
    requires layout.Valid() && Fits(layout, c) && AllFit(layout, s.rows) && PastBound(layout, s)
    ensures PastBound(layout, Step(layout, s, c))
  {
  }

  lemma {:induction false} StepsPastBound(layout: Layout, s: State, changes: seq<Change>)
    requires layout.Valid() && AllChangesFit(layout, changes) && AllFit(layout, s.rows) && PastBound(layout, s)
    ensures PastBound(layout, Steps(layout, s, changes))
  {
    if changes != [] {
      StepsPastBound(layout, s, changes[..|changes| - 1]);
      StepPastBound(layout, Steps(layout, s, changes[..|changes| - 1]), changes[|changes| - 1]);
    }
  }

  lemma MergedIsStored(layout: Layout, s: State, incoming: seq<Change>)
    requires layout.Valid() && AllChangesFit(layout, incoming) && IsStored(layout, s)
    ensures IsStored(layout, Merged(layout, s, incoming))
  {
    SortedFits(layout, incoming);
    StepsPastBound(layout, s, Sorted(incoming));
    assert !layout.Hard() ==> Merged(layout, s, incoming).stones == map[];
  }

  lemma {:induction false} AfterIsStored(layout: Layout, commits: seq<seq<Change>>)
    requires layout.Valid() && AllCommitsFit(layout, commits)
    ensures IsStored(layout, After(layout, commits))
  {
    if commits != [] {
      AfterIsStored(layout, commits[..|commits| - 1]);
      MergedIsStored(layout, After(layout, commits[..|commits| - 1]), commits[|commits| - 1]);
    }
  }

  // ----- Replays -----

  lemma {:induction false} HistoriesSettle(layout: Layout, commits: seq<seq<Change>>)
    requires layout.Valid() && layout.Hard() && AllCommitsFit(layout, commits)
    ensures AllSettled(layout, After(layout, commits), Flat(commits))
  {
    if commits != [] {
      var init := commits[..|commits| - 1];
      HistoriesSettle(layout, init);
      MergingSettles(layout, After(layout, init), Flat(init), commits[|commits| - 1]);
    }
  }

  /** Where deletes are hard, sending again any changes already merged changes nothing, whatever they are
      and however the history went. */
  lemma ReplaysChangeNothing(layout: Layout, commits: seq<seq<Change>>, again: seq<Change>)
    requires layout.Valid() && layout.Hard() && AllCommitsFit(layout, commits)
    requires AllChangesFit(layout, again) && forall c | c in again :: c in Flat(commits)
    ensures Merged(layout, After(layout, commits), again) == After(layout, commits)
  {
    HistoriesSettle(layout, commits);
    AfterIsStored(layout, commits);
    SettledMergeIsNothing(layout, After(layout, commits), again);
  }

  lemma {:induction false} PutsSettle(layout: Layout, commits: seq<seq<Change>>, c: Change)
    requires layout.Valid() && !layout.Hard() && AllCommitsFit(layout, commits)
    ensures IsSoft(layout, After(layout, commits))
    ensures c in Flat(commits) && c.op.Put? ==>
              c.key in After(layout, commits).rows && After(layout, commits).rows[c.key].order >= c.order
  {
    if commits != [] {
      var init, last := commits[..|commits| - 1], commits[|commits| - 1];
      PutsSettle(layout, init, c);
      SoftMerge(layout, After(layout, init), last, c, c.key);
    }
  }

  /** Whether a row is sequenced before a truncate among changes, or before a delete of its key. */
  ghost predicate IsBehind(s: State, changes: seq<Change>) {
    exists c, key :: c in changes && !c.op.Put? && Touches(c, key) && key in s.rows && s.rows[key].order < c.order
  }

  /** Where deletes are soft, sending again changes already merged changes nothing, if and only if no row is
      sequenced before a truncate sent again, or before a delete of its own key. */
  lemma SoftReplaysChangeNothingExactly(layout: Layout, commits: seq<seq<Change>>, again: seq<Change>)
    requires layout.Valid() && !layout.Hard() && AllCommitsFit(layout, commits)
    requires AllChangesFit(layout, again) && forall c | c in again :: c in Flat(commits)
    ensures Merged(layout, After(layout, commits), again) == After(layout, commits)
            <==> !IsBehind(After(layout, commits), again)
  {
    var s := After(layout, commits);
    AfterIsStored(layout, commits);
    NothingChangesExactlyWhenSettled(layout, s, again);
    forall c | c in again && c.op.Put? ensures Settled(layout, s, c) {
      PutsSettle(layout, commits, c);
    }
    SettledIsNotBehind(layout, s, again);
  }

  lemma SettledIsNotBehind(layout: Layout, s: State, again: seq<Change>)
    requires layout.Valid() && !layout.Hard() && IsStored(layout, s)
    requires forall c | c in again && c.op.Put? :: Settled(layout, s, c)
    ensures AllSettled(layout, s, again) <==> !IsBehind(s, again)
  {
    if AllSettled(layout, s, again) {
      forall c, key | c in again && !c.op.Put? && Touches(c, key) && key in s.rows
        ensures c.order <= s.rows[key].order {
        assert Settled(layout, s, c);
      }
    } else {
      var c :| c in again && !Settled(layout, s, c);
      var key := if c.op.Truncate? then var k :| k in s.rows && s.rows[k].order < c.order; k else c.key;
      assert Touches(c, key);
    }
  }

  /** A truncate sent again marks a row that arrived after it, sequenced before it: whatever the two
      are. */
  lemma SentAgainMarksALateRow(layout: Layout, t: Change, p: Change) returns (commits: seq<seq<Change>>)
    requires layout.Valid() && !layout.Hard() && Fits(layout, t) && Fits(layout, p)
    requires t.op.Truncate? && p.op.Put? && p.order < t.order
    ensures AllCommitsFit(layout, commits) && Flat(commits) == [t] + [p]
    ensures Merged(layout, After(layout, commits), [t]) != After(layout, commits)
  {
    var first := ThenOne(layout, [], t);
    NoRowsToTruncate(layout, t);
    commits := ThenOne(layout, first, p);
    LateRowIsMarked(layout, t, p);
  }

  lemma LateRowIsMarked(layout: Layout, t: Change, p: Change)
    requires layout.Valid() && !layout.Hard() && Fits(layout, t) && Fits(layout, p)
    requires t.op.Truncate? && p.op.Put? && p.order < t.order
    ensures Merged(layout, Stored(Step(layout, EMPTY, p)), [t]) != Stored(Step(layout, EMPTY, p))
  {
    var s := Stored(Step(layout, EMPTY, p));
    assert p.key in s.rows && s.rows[p.key].order == p.order && s.stones == map[];
    SoftUnsettledChanges(layout, s, [t], t);
  }

  lemma NoRowsToTruncate(layout: Layout, t: Change)
    requires layout.Valid() && !layout.Hard() && Fits(layout, t) && t.op.Truncate?
    ensures Stored(Step(layout, EMPTY, t)) == EMPTY
  {
  }

  /** Such a row, and such a truncate. */
  lemma ATruncateAtTenSentAgainMarksARowAtFive() returns (commits: seq<seq<Change>>)
    ensures var layout := Layout(2, 0, Some(1));
            var t, p := Change(Truncate, 0, 10, [Some(10), Some(99)], None), Change(Put, 1, 5, [Some(5), None], None);
            && AllCommitsFit(layout, commits) && Flat(commits) == [t] + [p]
            && Merged(layout, After(layout, commits), [t]) != After(layout, commits)
  {
    commits := SentAgainMarksALateRow(Layout(2, 0, Some(1)), Change(Truncate, 0, 10, [Some(10), Some(99)], None),
                                      Change(Put, 1, 5, [Some(5), None], None));
  }

  // ----- Grouping otherwise -----

  /** The changes of later commits are all sequenced after those of earlier ones. */
  ghost predicate AllBefore(earlier: seq<Change>, later: seq<Change>) {
    forall a, b | a in earlier && b in later :: a.order < b.order
  }

  lemma {:induction false} WithAfter(first: seq<Change>, rest: seq<Change>, c: Change)
    requires forall a | a in first :: NoLater(a, c)
    ensures With(first + rest, c) == first + With(rest, c)
  {
    if rest == [] {
      assert first + rest == first;
      assert first != [] ==> first[|first| - 1] in first;
    } else if !NoLater(rest[|rest| - 1], c) {
      var init, last := rest[..|rest| - 1], rest[|rest| - 1];
      assert (first + rest)[..|first + rest| - 1] == first + init;
      WithAfter(first, init, c);
      assert first + With(init, c) + [last] == first + (With(init, c) + [last]);
    }
  }

  /** Changes sequenced after others are applied after them, in one commit as in two. */
  lemma {:induction false} SortedInTwo(a: seq<Change>, b: seq<Change>)
    requires AllBefore(a, b)
    ensures Sorted(a + b) == Sorted(a) + Sorted(b)
  {
    if b == [] {
      assert a + b == a;
    } else {
      var init, last := b[..|b| - 1], b[|b| - 1];
      assert last in b && forall c | c in init :: c in b;
      assert (a + b)[..|a + b| - 1] == a + init;
      SortedInTwo(a, init);
      forall c | c in Sorted(a) ensures NoLater(c, last) {
        SortedHas(a, c);
      }
      WithAfter(Sorted(a), Sorted(init), last);
    }
  }

  lemma {:induction false} StepsInTwo(layout: Layout, s: State, a: seq<Change>, b: seq<Change>)
    requires layout.Valid() && AllChangesFit(layout, a) && AllChangesFit(layout, b) && AllFit(layout, s.rows)
    ensures AllChangesFit(layout, a + b) && Steps(layout, s, a + b) == Steps(layout, Steps(layout, s, a), b)
  {
    if b == [] {
      assert a + b == a;
    } else {
      assert (a + b)[..|a + b| - 1] == a + b[..|b| - 1];
      StepsInTwo(layout, s, a, b[..|b| - 1]);
    }
  }

  /** A table and the same one stored, as changes after all its marked rows find them: the rows are the
      same but for what marked them, and so are the tombstones the bound does not cover. */
  ghost predicate SameRow(x: State, y: State, later: seq<Change>, key: nat) {
    && (key in x.rows <==> key in y.rows)
    && (key in x.rows ==>
          && x.rows[key].order == y.rows[key].order && x.rows[key].cells == y.rows[key].cells
          && (x.rows[key].truncated != y.rows[key].truncated ==>
                forall c | c in later :: x.rows[key].order < c.order))
  }

  ghost predicate SameStone(x: State, y: State, key: nat) {
    && (key in y.stones ==> key in x.stones && x.stones[key] == y.stones[key])
    && (key in x.stones && !Bounded(x.bound, x.stones[key]) ==> key in y.stones)
  }

  ghost predicate Same(x: State, y: State, later: seq<Change>) {
    && x.bound == y.bound
    && (forall key :: SameRow(x, y, later, key))
    && (forall key :: SameStone(x, y, key))
  }

  lemma SameAdmits(x: State, y: State, later: seq<Change>, c: Change)
    requires Same(x, y, later)
    ensures Admits(x, c) <==> Admits(y, c)
  {
    assert SameStone(x, y, c.key);
  }

  lemma TruncateSame(layout: Layout, x: State, y: State, later: seq<Change>, c: Change)
    requires layout.Valid() && Fits(layout, c) && AllFit(layout, x.rows) && AllFit(layout, y.rows)
    requires Same(x, y, later) && c in later && c.op.Truncate?
    ensures Same(Step(layout, x, c), Step(layout, y, c), later)
  {
    SameAdmits(x, y, later, c);
    var x', y' := Step(layout, x, c), Step(layout, y, c);
    forall key ensures SameRow(x', y', later, key) {
      assert SameRow(x, y, later, key);
    }
    forall key ensures SameStone(x', y', key) {
      assert SameStone(x, y, key);
    }
  }

  /** A change makes the same of a row, whatever marked it, where it is past it. */
  lemma ChangingSame(layout: Layout, x: Option<Row>, y: Option<Row>, c: Change)
    requires layout.Valid() && Fits(layout, c) && !c.op.Truncate?
    requires x.Some? <==> y.Some?
    requires x.Some? ==>
               && |x.value.cells| == layout.width && y.value.order == x.value.order && y.value.cells == x.value.cells
               && (x.value.truncated != y.value.truncated ==> x.value.order < c.order)
    ensures var (a, did), (b, done) := Changing(layout, x, c), Changing(layout, y, c);
            && did == done && (a.Some? <==> b.Some?)
            && (a.Some? ==> a.value.order == b.value.order && a.value.cells == b.value.cells)
            && (a.Some? && a.value.truncated != b.value.truncated ==> a == x && b == y)
  {
  }

  lemma ChangeSame(layout: Layout, x: State, y: State, later: seq<Change>, c: Change)
    requires layout.Valid() && Fits(layout, c) && AllFit(layout, x.rows) && AllFit(layout, y.rows)
    requires Same(x, y, later) && c in later && !c.op.Truncate?
    ensures Same(Step(layout, x, c), Step(layout, y, c), later)
  {
    SameAdmits(x, y, later, c);
    assert SameRow(x, y, later, c.key);
    if Admits(x, c) {
      ChangingSame(layout, At(x.rows, c.key), At(y.rows, c.key), c);
      var x', y' := Step(layout, x, c), Step(layout, y, c);
      forall key ensures SameRow(x', y', later, key) {
        assert SameRow(x, y, later, key);
      }
      forall key ensures SameStone(x', y', key) {
        assert SameStone(x, y, key);
      }
    }
  }

  lemma {:induction false} StepsSame(layout: Layout, x: State, y: State, later: seq<Change>, changes: seq<Change>)
    requires layout.Valid() && AllChangesFit(layout, changes) && AllFit(layout, x.rows) && AllFit(layout, y.rows)
    requires Same(x, y, later) && forall c | c in changes :: c in later
    ensures Same(Steps(layout, x, changes), Steps(layout, y, changes), later)
  {
    if changes != [] {
      var init, last := changes[..|changes| - 1], changes[|changes| - 1];
      assert last in changes && forall c | c in init :: c in changes;
      StepsSame(layout, x, y, later, init);
      if last.op.Truncate? {
        TruncateSame(layout, Steps(layout, x, init), Steps(layout, y, init), later, last);
      } else {
        ChangeSame(layout, Steps(layout, x, init), Steps(layout, y, init), later, last);
      }
    }
  }

  lemma SameStored(x: State, y: State, later: seq<Change>)
    requires Same(x, y, later)
    ensures Stored(x) == Stored(y)
  {
    forall key ensures At(Stored(x).rows, key) == At(Stored(y).rows, key) {
      assert SameRow(x, y, later, key);
    }
    MapsAgree(Stored(x).rows, Stored(y).rows);
    forall key ensures key in Stored(x).stones <==> key in Stored(y).stones
               ensures key in Stored(x).stones ==> Stored(x).stones[key] == Stored(y).stones[key] {
      assert SameStone(x, y, key);
    }
    assert Stored(x).stones == Stored(y).stones;
  }

  ghost predicate MarkedBy(s: State, changes: seq<Change>, key: nat) {
    key in s.rows && s.rows[key].truncated ==> exists c :: c in changes && c.order == s.rows[key].order
  }

  /** A row a truncate marked has the sequence of a change applied. */
  lemma {:induction false} StepsMark(layout: Layout, s: State, changes: seq<Change>, key: nat)
    requires layout.Valid() && AllChangesFit(layout, changes) && AllFit(layout, s.rows)
    requires forall k | k in s.rows :: !s.rows[k].truncated
    ensures MarkedBy(Steps(layout, s, changes), changes, key)
  {
    if changes != [] {
      var init, last := changes[..|changes| - 1], changes[|changes| - 1];
      assert last in changes && forall c | c in init :: c in changes;
      StepsMark(layout, s, init, key);
      var before, after := Steps(layout, s, init), Steps(layout, s, changes);
      if key in after.rows && after.rows[key].truncated && At(before.rows, key) == At(after.rows, key) {
        var c :| c in init && c.order == before.rows[key].order;
        assert c in changes;
      }
    }
  }

  lemma StoredIsSame(layout: Layout, s: State, earlier: seq<Change>, later: seq<Change>)
    requires (forall key :: MarkedBy(s, earlier, key)) && AllBefore(earlier, later)
    ensures Same(s, Stored(s), later)
  {
    forall key ensures SameRow(s, Stored(s), later, key) {
      assert MarkedBy(s, earlier, key);
    }
    forall key ensures SameStone(s, Stored(s), key) {
    }
  }

  /** Two commits, the second's changes all sequenced after the first's, are one commit of both: whether
      deletes are hard or soft, and whatever columns updates leave. */
  lemma CommitsInSequenceAreOne(layout: Layout, s: State, a: seq<Change>, b: seq<Change>)
    requires layout.Valid() && AllChangesFit(layout, a) && AllChangesFit(layout, b) && IsStored(layout, s)
    requires AllBefore(a, b)
    ensures AllChangesFit(layout, a + b) && Merged(layout, Merged(layout, s, a), b) == Merged(layout, s, a + b)
  {
    SortedFits(layout, a);
    SortedFits(layout, b);
    SortedInTwo(a, b);
    StepsInTwo(layout, s, Sorted(a), Sorted(b));
    var met := Steps(layout, s, Sorted(a));
    SortedBefore(a, b);
    forall key ensures MarkedBy(met, Sorted(a), key) {
      StepsMark(layout, s, Sorted(a), key);
    }
    StoredIsSame(layout, met, Sorted(a), Sorted(b));
    StepsSame(layout, met, Stored(met), Sorted(b), Sorted(b));
    SameStored(Steps(layout, met, Sorted(b)), Steps(layout, Stored(met), Sorted(b)), Sorted(b));
  }

  lemma SortedBefore(a: seq<Change>, b: seq<Change>)
    requires AllBefore(a, b)
    ensures AllBefore(Sorted(a), Sorted(b))
  {
    forall x, y | x in Sorted(a) && y in Sorted(b) ensures x.order < y.order {
      SortedHas(a, x);
      SortedHas(b, y);
    }
  }

  /** Whether each commit's changes are sequenced after all those of the commits before it. */
  ghost predicate InSequence(commits: seq<seq<Change>>) {
    commits != [] ==>
      InSequence(commits[..|commits| - 1]) && AllBefore(Flat(commits[..|commits| - 1]), commits[|commits| - 1])
  }

  lemma {:induction false} FlatFits(layout: Layout, commits: seq<seq<Change>>)
    requires AllCommitsFit(layout, commits)
    ensures AllChangesFit(layout, Flat(commits))
  {
    if commits != [] {
      FlatFits(layout, commits[..|commits| - 1]);
    }
  }

  /** A history in sequence leaves what one commit of all its changes does, hard or soft. */
  lemma {:induction false} HistoriesInSequenceAreOne(layout: Layout, commits: seq<seq<Change>>)
    requires layout.Valid() && AllCommitsFit(layout, commits) && InSequence(commits)
    ensures AllChangesFit(layout, Flat(commits))
    ensures After(layout, commits) == Merged(layout, EMPTY, Flat(commits))
  {
    FlatFits(layout, commits);
    if commits == [] {
      assert Steps(layout, EMPTY, []) == EMPTY;
      StoredAgain(layout, EMPTY);
    } else {
      var init, last := commits[..|commits| - 1], commits[|commits| - 1];
      HistoriesInSequenceAreOne(layout, init);
      CommitsInSequenceAreOne(layout, EMPTY, Flat(init), last);
    }
  }

  // ----- A truncate's own sequence -----

  lemma MergedTwo(layout: Layout, s: State, t: Change, c: Change)
    requires layout.Valid() && Fits(layout, t) && Fits(layout, c) && AllFit(layout, s.rows) && NoLater(t, c)
    ensures Merged(layout, s, [t, c]) == Stored(Step(layout, Step(layout, s, t), c))
  {
    assert [t, c][..1] == [t] && [t][..0] == [];
    SortedOfOne(t);
    assert Sorted([t, c]) == [t, c];
    assert Steps(layout, s, []) == s;
    assert Steps(layout, s, [t]) == Step(layout, s, t);
  }

  lemma WithOne(a: Change, b: Change)
    ensures With([a], b) == if NoLater(a, b) then [a, b] else [b, a]
  {
    if !NoLater(a, b) {
      assert [a][..0] == [];
      assert With([], b) == [b];
    }
  }

  lemma SortedOfTwo(a: Change, b: Change)
    ensures Sorted([a, b]) == if NoLater(a, b) then [a, b] else [b, a]
  {
    assert [a, b][..1] == [a];
    SortedOfOne(a);
    WithOne(a, b);
  }

  /** A truncate goes before a change of its sequence, wherever it is in the commit. */
  lemma TruncatesGoFirst(t: Change, c: Change)
    requires t.op.Truncate? && !c.op.Truncate? && t.order == c.order
    ensures Sorted([c, t]) == [t, c] && Sorted([t, c]) == [t, c]
  {
    SortedOfTwo(c, t);
    SortedOfTwo(t, c);
  }

  /** Whether a table holds the row a put leaves: its sequence, and the cells it sets. */
  ghost predicate HoldsPut(layout: Layout, rows: map<nat, Row>, c: Change)
    requires Fits(layout, c) && AllFit(layout, rows)
  {
    && c.key in rows && rows[c.key].order == c.order
    && forall i | 0 <= i < layout.width && !Leaves(c, i) :: rows[c.key].cells[i] == c.cells[i]
  }

  lemma PutsStand(layout: Layout, s: State, t: Change, c: Change)
    requires layout.Valid() && Fits(layout, t) && Fits(layout, c) && AllFit(layout, s.rows)
    requires t.op.Truncate? && c.op.Put? && t.order == c.order && Admits(s, c)
    requires c.key in s.rows ==> s.rows[c.key].order < c.order
    ensures HoldsPut(layout, Step(layout, Step(layout, s, t), c).rows, c)
  {
    var met := Step(layout, s, t);
    assert Admits(met, c);
    assert c.key in met.rows ==> met.rows[c.key].truncated && met.rows[c.key].order == c.order;
    assert At(met.rows, c.key).Some? ==> !Behind(met.rows[c.key], c);
  }

  /** A put at a truncate's sequence stands, with the cells it sets, whichever of the two comes first in the
      commit, unless what the table holds of its key is past it. */
  lemma PutsStandAtATruncatesSequence(layout: Layout, s: State, t: Change, c: Change)
    requires layout.Valid() && Fits(layout, t) && Fits(layout, c) && AllFit(layout, s.rows)
    requires t.op.Truncate? && c.op.Put? && t.order == c.order && Admits(s, c)
    requires c.key in s.rows ==> s.rows[c.key].order < c.order
    ensures Merged(layout, s, [c, t]) == Merged(layout, s, [t, c])
    ensures HoldsPut(layout, Merged(layout, s, [t, c]).rows, c)
  {
    TruncatesGoFirst(t, c);
    MergedTwo(layout, s, t, c);
    PutsStand(layout, s, t, c);
  }

  /** Whether a truncate gives a stored row the change's own sequence. */
  predicate Tied(s: State, t: Change, c: Change) {
    c.key in s.rows && s.rows[c.key].order < t.order == c.order
  }

  function Plain(row: Option<Row>): Option<Row> {
    if row.None? then None else Some(row.value.(truncated := false))
  }

  /** The cell a truncate's mark leaves in a column. */
  function MarkedCell(layout: Layout, row: Row, t: Change, i: nat): Cell
    requires layout.Valid() && !layout.Hard() && |row.cells| == layout.width && Fits(layout, t) && i < layout.width
  {
    if i == layout.sequence || (i == layout.deleted.value && row.cells[i].None?) then t.cells[i] else row.cells[i]
  }

  predicate PutsMarked(layout: Layout, row: Row, t: Change, c: Change, i: nat)
    requires layout.Valid() && !layout.Hard() && |row.cells| == layout.width && Fits(layout, t) && Fits(layout, c)
  {
    i < layout.width && !Leaves(c, i) ==> c.cells[i] == MarkedCell(layout, row, t, i)
  }

  /** Whether a change's own cells are those a truncate's mark leaves of its key's row: for a delete, its
      sequence, and a deletion time only where the mark has one; for a put, every cell it sets. */
  ghost predicate SetsMarked(layout: Layout, row: Row, t: Change, c: Change)
    requires layout.Valid() && !layout.Hard() && |row.cells| == layout.width && Fits(layout, t) && Fits(layout, c)
  {
    var at := layout.deleted.value;
    if c.op.Delete? then
      && c.cells[layout.sequence] == t.cells[layout.sequence]
      && (row.cells[at].Some? || t.cells[at].Some? || c.cells[at].None?)
    else forall i: nat :: PutsMarked(layout, row, t, c, i)
  }

  /** A change at a truncate's sequence leaves the row the truncate marked exactly where it sets the cells it
      has. */
  lemma MarkStaysExactly(layout: Layout, row: Row, t: Change, c: Change)
    requires layout.Valid() && !layout.Hard() && |row.cells| == layout.width && Fits(layout, t) && Fits(layout, c)
    requires t.order == c.order && !c.op.Truncate?
    ensures var marked := Marked(layout, row, t).(truncated := true);
            Plain(Changing(layout, Some(marked), c).0) == Plain(Some(marked)) <==> SetsMarked(layout, row, t, c)
  {
    var marked := Marked(layout, row, t).(truncated := true);
    assert forall i | 0 <= i < layout.width :: marked.cells[i] == MarkedCell(layout, row, t, i);
    if c.op.Delete? {
      DeleteStays(layout, row, t, c, marked);
    } else {
      PutStays(layout, row, t, c, marked);
    }
  }

  lemma DeleteStays(layout: Layout, row: Row, t: Change, c: Change, marked: Row)
    requires layout.Valid() && !layout.Hard() && |row.cells| == layout.width && Fits(layout, t) && Fits(layout, c)
    requires marked == Marked(layout, row, t).(truncated := true) && t.order == c.order && c.op.Delete?
    ensures Plain(Changing(layout, Some(marked), c).0) == Plain(Some(marked)) <==> SetsMarked(layout, row, t, c)
  {
    var again, at := Marked(layout, marked, c), layout.deleted.value;
    assert again.cells[layout.sequence] == c.cells[layout.sequence];
    assert again.cells[at] == if marked.cells[at].None? then c.cells[at] else marked.cells[at];
    if SetsMarked(layout, row, t, c) {
      assert again.cells == marked.cells;
    }
  }

  lemma PutStays(layout: Layout, row: Row, t: Change, c: Change, marked: Row)
    requires layout.Valid() && !layout.Hard() && |row.cells| == layout.width && Fits(layout, t) && Fits(layout, c)
    requires marked == Marked(layout, row, t).(truncated := true) && t.order == c.order && c.op.Put?
    requires forall i | 0 <= i < layout.width :: marked.cells[i] == MarkedCell(layout, row, t, i)
    ensures Plain(Changing(layout, Some(marked), c).0) == Plain(Some(marked)) <==> SetsMarked(layout, row, t, c)
  {
    var cells := Composed(layout, Some(marked), c);
    if SetsMarked(layout, row, t, c) {
      forall i | 0 <= i < layout.width ensures cells[i] == marked.cells[i] {
        assert PutsMarked(layout, row, t, c, i);
      }
      assert cells == marked.cells;
    } else {
      var i: nat :| !PutsMarked(layout, row, t, c, i);
      assert cells[i] != marked.cells[i];
    }
  }

  /** A change at a truncate's own sequence is not before it, and applies; but in a commit after the
      truncate's it does not, where the truncate marked its key's row: what tells the two apart is not
      stored. So a truncate and a change no earlier come to the same in one commit or two, if and only if
      the truncate does not give the change's row its sequence, or the change sets the cells that row has. */
  lemma SameSequenceInALaterCommit(layout: Layout, s: State, t: Change, c: Change)
    requires layout.Valid() && !layout.Hard() && Fits(layout, t) && Fits(layout, c) && IsStored(layout, s)
    requires t.op.Truncate? && !c.op.Truncate? && t.order <= c.order
    ensures Merged(layout, Merged(layout, s, [t]), [c]) == Merged(layout, s, [t, c])
            <==> !Tied(s, t, c) || SetsMarked(layout, s.rows[c.key], t, c)
  {
    var met := Step(layout, s, t);
    MergedOne(layout, s, t);
    MergedOne(layout, Stored(met), c);
    MergedTwo(layout, s, t, c);
    MeetingStored(layout, s, t, c);
    StoringFirst(layout, met, c);
    if Tied(s, t, c) {
      MarkStaysExactly(layout, s.rows[c.key], t, c);
    }
  }

  /** A row at three, a truncate at five, and a put of the row's key at five: live in the truncate's commit,
      and deleted where it comes in the next. */
  lemma APutAtATruncatesSequenceIsLostLater()
    ensures var layout, row := Layout(2, 0, Some(1)), Row(3, [Some(3), None], false);
            var s := State(map[1 := row], map[], None);
            var t, c := Change(Truncate, 0, 5, [Some(5), Some(9)], None), Change(Put, 1, 5, [Some(5), None], None);
            Merged(layout, Merged(layout, s, [t]), [c]) != Merged(layout, s, [t, c])
  {
    var layout, row := Layout(2, 0, Some(1)), Row(3, [Some(3), None], false);
    var s := State(map[1 := row], map[], None);
    var t, c := Change(Truncate, 0, 5, [Some(5), Some(9)], None), Change(Put, 1, 5, [Some(5), None], None);
    assert MarkedCell(layout, row, t, 1) == Some(9);
    assert !PutsMarked(layout, row, t, c, 1);
    SameSequenceInALaterCommit(layout, s, t, c);
  }

  /** The row a truncate leaves of a change's key. */
  lemma MeetingStored(layout: Layout, s: State, t: Change, c: Change)
    requires layout.Valid() && !layout.Hard() && Fits(layout, t) && IsStored(layout, s) && t.op.Truncate?
    ensures var met := Step(layout, s, t);
            && met.stones == map[] && met.bound == None
            && (c.key in met.rows <==> c.key in s.rows)
            && (c.key in s.rows ==>
                  met.rows[c.key] == if s.rows[c.key].order < t.order
                                     then Marked(layout, s.rows[c.key], t).(truncated := true) else s.rows[c.key])
  {
  }

  lemma StoredRows(s: State)
    ensures forall key :: At(Stored(s).rows, key) == Plain(At(s.rows, key))
  {
  }

  /** Storing a table before a change, or after it alone, is alike, unless the change applies to its key's
      row at the row's own sequence, and changes it. */
  lemma StoringFirst(layout: Layout, s: State, c: Change)
    requires layout.Valid() && !layout.Hard() && Fits(layout, c) && AllFit(layout, s.rows)
    requires s.stones == map[] && s.bound == None && !c.op.Truncate?
    ensures Stored(Step(layout, Stored(s), c)) == Stored(Step(layout, s, c)) <==>
              !(c.key in s.rows && s.rows[c.key].truncated && s.rows[c.key].order == c.order)
              || Plain(Changing(layout, At(s.rows, c.key), c).0) == Plain(At(s.rows, c.key))
  {
    var two, one := Stored(Step(layout, Stored(s), c)), Stored(Step(layout, s, c));
    StoredRows(s);
    StoredRows(Step(layout, s, c));
    StoredRows(Step(layout, Stored(s), c));
    forall key | key != c.key ensures At(two.rows, key) == At(one.rows, key) {
    }
    assert At(Stored(s).rows, c.key) == Plain(At(s.rows, c.key));
    assert two.stones == map[] == one.stones;
    if At(two.rows, c.key) == At(one.rows, c.key) {
      MapsAgree(two.rows, one.rows);
    }
  }
}
