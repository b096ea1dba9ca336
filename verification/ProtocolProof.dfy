/** What every run of the commit protocol keeps: the published rows are exactly the source's rows
    before the committed cursors, each once. */
module ProtocolProof {
  import opened Wrappers
  import opened Landed
  import opened Protocol

  // ----- Counting staged rows -----

  lemma CopiesOfTwo(a: seq<StagedRow>, b: seq<StagedRow>, row: Row)
    ensures Copies(a + b, row) == Copies(a, row) + Copies(b, row)
  {
    if b == [] {
      assert a + b == a;
    } else {
      assert (a + b)[..|a + b| - 1] == a + b[..|b| - 1];
    }
  }

  lemma SelectedOfNext(rows: seq<StagedRow>, staged: StagedRow, epoch: nat, segments: set<nat>)
    ensures Selected(rows + [staged], epoch, segments)
         == if staged.epoch == epoch && staged.segment in segments
            then Selected(rows, epoch, segments) + [staged] else Selected(rows, epoch, segments)
  {
    assert (rows + [staged])[..|rows|] == rows;
  }

  lemma {:induction false} SelectedWithout(rows: seq<StagedRow>, epoch: nat, gone: set<nat>, kept: set<nat>)
    requires gone !! kept
    ensures Selected(Without(rows, epoch, gone), epoch, kept) == Selected(rows, epoch, kept)
  {
    if rows != [] {
      var last, init := rows[|rows| - 1], rows[..|rows| - 1];
      SelectedWithout(init, epoch, gone, kept);
      if !(last.epoch == epoch && last.segment in gone) {
        SelectedOfNext(Without(init, epoch, gone), last, epoch, kept);
      }
    }
  }

  lemma {:induction false} SelectedSince(rows: seq<StagedRow>, since: nat, epoch: nat, segments: set<nat>)
    requires since <= epoch
    ensures Selected(Since(rows, since), epoch, segments) == Selected(rows, epoch, segments)
  {
    if rows != [] {
      var last, init := rows[|rows| - 1], rows[..|rows| - 1];
      SelectedSince(init, since, epoch, segments);
      if since <= last.epoch {
        SelectedOfNext(Since(init, since), last, epoch, segments);
      }
    }
  }

  lemma {:induction false} CopiesOfBoth(rows: seq<StagedRow>, epoch: nat, a: set<nat>, b: set<nat>, row: Row)
    requires a !! b
    ensures Copies(Selected(rows, epoch, a + b), row)
         == Copies(Selected(rows, epoch, a), row) + Copies(Selected(rows, epoch, b), row)
  {
    if rows != [] {
      var last, init := rows[|rows| - 1], rows[..|rows| - 1];
      CopiesOfBoth(init, epoch, a, b, row);
      forall segments: set<nat>
        ensures Copies(Selected(rows, epoch, segments), row)
             == Copies(Selected(init, epoch, segments), row)
                + if last.epoch == epoch && last.segment in segments && last.row == row then 1 else 0
      {
        CopiesOfTwo(Selected(init, epoch, segments), [last], row);
        assert Copies([last], row) == if last.row == row then 1 else 0;
      }
    }
  }

  lemma {:induction false} SelectedNone(rows: seq<StagedRow>, epoch: nat, segments: set<nat>)
    requires forall staged | staged in rows :: staged.epoch == epoch ==> staged.segment !in segments
    ensures Selected(rows, epoch, segments) == []
  {
    if rows != [] {
      SelectedNone(rows[..|rows| - 1], epoch, segments);
    }
  }

  lemma KeptRowsAreRows(rows: seq<StagedRow>, epoch: nat, segments: set<nat>)
    ensures forall staged | staged in Without(rows, epoch, segments) :: staged in rows
    ensures forall staged | staged in Since(rows, epoch) :: staged in rows && epoch <= staged.epoch
    ensures forall staged | staged in Selected(rows, epoch, segments) :: staged in rows && staged.epoch == epoch
  {
  }

  /** `rows` hold each partition's rows from its cursor in `first` up to its cursor in `end`, each
      once, and no other row. */
  ghost predicate Holds(rows: seq<StagedRow>, first: Cursors, end: Cursors) {
    forall p: nat, i: nat ::
      Copies(rows, Row(p, i)) == if CursorOf(first, p) <= i < CursorOf(end, p) then 1 else 0
  }

  /** `rows` hold what `open`, the segment partition `p` fills, was written. */
  ghost predicate Fills(rows: seq<StagedRow>, p: nat, open: OpenSegment) {
    forall q: nat, i: nat ::
      Copies(rows, Row(q, i)) == if q == p && open.first <= i < open.next then 1 else 0
  }

  /** No cursor of `end` is behind the same cursor of `first`. */
  ghost predicate Forward(first: Cursors, end: Cursors) {
    forall p: nat :: CursorOf(first, p) <= CursorOf(end, p)
  }

  // ----- The invariant -----

  ghost function InFlight(s: Session): set<nat> {
    if s.pending.Some? then s.pending.value.segments else {}
  }

  ghost function LetGo(s: Session): set<nat> {
    s.abandoned + if s.pending.Some? then s.pending.value.abandoned else {}
  }

  /** Each segment of a session is in one place: in flight, sealed, let go, or filled by one
      partition. */
  ghost predicate Apart(s: Session) {
    && InFlight(s) !! s.sealed
    && LetGo(s) !! InFlight(s)
    && LetGo(s) !! s.sealed
    && (forall id | id in InFlight(s) :: id < s.unused)
    && (forall id | id in s.sealed :: id < s.unused)
    && (forall id | id in LetGo(s) :: id < s.unused)
    && (forall p | p in s.reading :: Filling(s, s.reading[p].id))
    && (forall p, q | p in s.reading && q in s.reading && p != q :: s.reading[p].id != s.reading[q].id)
  }

  ghost predicate Filling(s: Session, id: nat) {
    id < s.unused && id !in InFlight(s) && id !in s.sealed && id !in LetGo(s)
  }

  /** Partition `p`'s open segment holds what was written to it, on from its cursor in `end`. */
  ghost predicate ReadsAt(rows: seq<StagedRow>, epoch: nat, p: nat, open: OpenSegment, end: Cursors) {
    && Fills(Selected(rows, epoch, {open.id}), p, open)
    && open.first == CursorOf(end, p)
    && open.first <= open.next
  }

  ghost predicate Reads(rows: seq<StagedRow>, epoch: nat, reading: map<nat, OpenSegment>, end: Cursors) {
    forall p | p in reading :: ReadsAt(rows, epoch, p, reading[p], end)
  }

  /** Segment ids staged at `epoch` are below `unused`. */
  ghost predicate Allotted(rows: seq<StagedRow>, epoch: nat, unused: nat) {
    forall staged | staged in rows && staged.epoch == epoch :: staged.segment < unused
  }

  /** What the newest session staged is in staging, whole, until it is published. */
  ghost predicate Staged(w: World, epoch: nat, s: Session) {
    && Allotted(w.staging, epoch, s.unused)
    && (s.pending.Some? && w.fence.LandedKey() != Some(s.key) ==>
          Holds(Selected(w.staging, epoch, s.pending.value.segments), s.base, Taken(s)))
    && Holds(Selected(w.staging, epoch, s.sealed), Taken(s), Taken(s) + s.moved)
    && Reads(w.staging, epoch, s.reading, Taken(s) + s.moved)
    && Forward(s.base, Taken(s))
    && Forward(Taken(s), Taken(s) + s.moved)
  }

  /** The newest session knows the landed key and the committed state, but for its commit in
      flight. */
  ghost predicate Synced(w: World, s: Session) {
    var landed := w.fence.LandedKey();
    && Precedes(s.after, s.key)
    && s.key.place >= 1
    && (s.key.place > 1 ==> s.after == Some(s.key.(place := s.key.place - 1)))
    && (s.pending.None? ==> landed == s.after && w.cursors == s.base)
    && (s.pending.Some? ==>
          && s.pending.value.key == s.key
          && s.pending.value.after == s.after
          && ((landed == s.after && w.cursors == s.base)
              || (landed == Some(s.key) && w.cursors == Taken(s))))
  }

  /** Every commit sent is an earlier one of its session, or the one in flight. */
  ghost predicate Sent(w: World, meta: Meta) {
    && Precedes(meta.after, meta.key)
    && meta.key.place >= 1
    && meta.key.epoch in w.sessions
    && var s := w.sessions[meta.key.epoch];
       meta.key.place < s.key.place || s.pending == Some(meta)
  }

  ghost predicate AtOrBelow(key: CommitKey, landed: Option<CommitKey>) {
    landed.Some? && (key == landed.value || key.Below(landed.value))
  }

  ghost predicate Known(w: World) {
    && (forall e | e in w.sessions ::
          && e <= w.fence.epoch
          && w.sessions[e].key.epoch == e
          && w.sessions[e].key.place >= 1
          && Precedes(w.sessions[e].after, w.sessions[e].key)
          && (w.sessions[e].pending.Some? ==> w.sessions[e].pending.value.key == w.sessions[e].key))
    && (forall meta | meta in w.messages :: Sent(w, meta))
    && (w.fence.landed.Some? ==> w.fence.landed.value.key.epoch <= w.fence.epoch)
    && (forall receipt | receipt in w.answers :: AtOrBelow(receipt.key, w.fence.LandedKey()))
    && (w.sessions == map[] ==> w.fence.landed.None?)
    && (w.sessions != map[] ==> w.fence.epoch in w.sessions)
  }

  /** Staged rows are never from a session that had not opened; published rows are of the session
      that was newest when they were staged. */
  ghost predicate Dated(w: World) {
    && (forall staged | staged in w.staging :: staged.epoch <= staged.under <= w.fence.epoch)
    && (forall row | row in w.published :: row.epoch == row.under)
  }

  /** What the newest session's place in the protocol is. */
  ghost predicate Newest(w: World, epoch: nat, s: Session) {
    Synced(w, s) && Apart(s) && Staged(w, epoch, s)
  }

  ghost predicate Inv(w: World) {
    && Known(w)
    && Dated(w)
    && Holds(w.published, map[], w.cursors)
    && (w.sessions != map[] ==> Newest(w, w.fence.epoch, w.sessions[w.fence.epoch]))
  }

  // ----- Each step keeps it -----

  /** A session's own step, which sends nothing, keeps what is known of every session. */
  lemma SessionStepKeepsKnown(w: World, epoch: nat, s': Session)
    requires Known(w) && epoch in w.sessions
    requires s'.key.epoch == epoch && s'.key.place >= 1 && Precedes(s'.after, s'.key)
    requires s'.pending.Some? ==> s'.pending.value.key == s'.key
    requires var s := w.sessions[epoch];
             (s'.key == s.key && s'.pending == s.pending)
             || (s'.key.place > s.key.place)
    ensures Known(WithSession(w, epoch, s'))
  {
    var w' := WithSession(w, epoch, s');
    assert epoch in w'.sessions;
    forall meta | meta in w'.messages ensures Sent(w', meta) {
      assert Sent(w, meta);
    }
  }

  /** What is known of the sessions rests on the fence row, the commits sent and their answers. */
  lemma SameKnown(w: World, w': World)
    requires Known(w)
    requires w'.fence == w.fence && w'.sessions == w.sessions
    requires w'.messages == w.messages && w'.answers == w.answers
    ensures Known(w')
  {
    forall meta | meta in w'.messages ensures Sent(w', meta) {
      assert Sent(w, meta);
    }
  }

  /** What the newest session rests on, where nothing staged at its epoch changes. */
  lemma SameNewest(w: World, w': World, epoch: nat, s: Session)
    requires Newest(w, epoch, s)
    requires w'.fence == w.fence && w'.cursors == w.cursors
    requires forall staged | staged in w'.staging && staged.epoch == epoch :: staged in w.staging
    requires forall segments: set<nat> ::
               Selected(w'.staging, epoch, segments) == Selected(w.staging, epoch, segments)
    ensures Newest(w', epoch, s)
  {
  }

  /** A step of one session, `s'` after it, that publishes nothing and leaves the staging. */
  lemma SessionStepKeeps(w: World, epoch: nat, s': Session)
    requires Inv(w) && epoch in w.sessions
    requires Known(WithSession(w, epoch, s'))
    requires epoch == w.fence.epoch ==> Newest(w, epoch, s')
    ensures Inv(WithSession(w, epoch, s'))
  {
    var w' := WithSession(w, epoch, s');
    assert epoch in w'.sessions;
    if epoch == w.fence.epoch {
      SameNewest(w, w', epoch, s');
    } else {
      SameNewest(w, w', w.fence.epoch, w.sessions[w.fence.epoch]);
    }
  }

  lemma OpeningKeeps(w: World, epoch: nat)
    requires Inv(w) && Enabled(w, Opening(epoch))
    ensures Inv(Opened(w, epoch))
  {
    var w' := Opened(w, epoch);
    var s := w'.sessions[epoch];
    assert Known(w') by {
      forall meta | meta in w'.messages ensures Sent(w', meta) {
        assert Sent(w, meta);
      }
    }
    SelectedNone(w.staging, epoch, s.sealed);
    assert Taken(s) + s.moved == w.cursors;
    assert Staged(w', epoch, s);
  }

  lemma DiscardingKeeps(w: World, epoch: nat)
    requires Inv(w) && epoch in w.sessions
    ensures Inv(w.(staging := Since(w.staging, epoch)))
  {
    KeptRowsAreRows(w.staging, epoch, {});
    forall segments: set<nat>
      ensures Selected(Since(w.staging, epoch), w.fence.epoch, segments)
           == Selected(w.staging, w.fence.epoch, segments)
    {
      SelectedSince(w.staging, epoch, w.fence.epoch, segments);
    }
    var w' := w.(staging := Since(w.staging, epoch));
    SameKnown(w, w');
    SameNewest(w, w', w.fence.epoch, w.sessions[w.fence.epoch]);
  }

  lemma StartedApart(s: Session, p: nat)
    requires Apart(s) && p !in s.reading
    ensures Apart(Started(s, p))
  {
    var s' := Started(s, p);
    assert InFlight(s') == InFlight(s) && LetGo(s') == LetGo(s);
  }

  lemma StartedStaged(w: World, epoch: nat, s: Session, p: nat)
    requires Staged(w, epoch, s)
    requires p !in s.reading && p !in s.moved && (s.pending.Some? ==> p !in s.pending.value.delta)
    ensures Staged(w, epoch, Started(s, p))
  {
    var s', first := Started(s, p), CursorOf(s.base, p);
    assert Taken(s') == Taken(s) && CursorOf(Taken(s) + s.moved, p) == first;
    SelectedNone(w.staging, epoch, {s.unused});
    assert Fills([], p, OpenSegment(s.unused, first, first));
    assert ReadsAt(w.staging, epoch, p, s'.reading[p], Taken(s) + s.moved);
  }

  lemma StartingKeeps(w: World, epoch: nat, p: nat)
    requires Inv(w) && Enabled(w, Starting(epoch, p))
    ensures Inv(Next(w, Starting(epoch, p)))
  {
    var s := w.sessions[epoch];
    var s' := Started(s, p);
    SessionStepKeepsKnown(w, epoch, s');
    if epoch == w.fence.epoch {
      StartedApart(s, p);
      StartedStaged(w, epoch, s, p);
    }
    SessionStepKeeps(w, epoch, s');
  }

  lemma AbandonedApart(s: Session, p: nat)
    requires Apart(s) && p in s.reading
    ensures Apart(Abandoned(s, p))
  {
    var s' := Abandoned(s, p);
    assert InFlight(s') == InFlight(s) && LetGo(s') == LetGo(s) + {s.reading[p].id};
  }

  lemma AbandonedStaged(w: World, epoch: nat, s: Session, p: nat)
    requires Staged(w, epoch, s) && p in s.reading
    ensures Staged(w, epoch, Abandoned(s, p))
  {
    assert Taken(Abandoned(s, p)) == Taken(s);
  }

  lemma AbandoningKeeps(w: World, epoch: nat, p: nat)
    requires Inv(w) && Enabled(w, Abandoning(epoch, p))
    ensures Inv(Next(w, Abandoning(epoch, p)))
  {
    var s := w.sessions[epoch];
    var s' := Abandoned(s, p);
    SessionStepKeepsKnown(w, epoch, s');
    if epoch == w.fence.epoch {
      AbandonedApart(s, p);
      AbandonedStaged(w, epoch, s, p);
    }
    SessionStepKeeps(w, epoch, s');
  }

  lemma CrashingKeeps(w: World, epoch: nat)
    requires Inv(w) && Enabled(w, Crashing(epoch))
    ensures Inv(Next(w, Crashing(epoch)))
  {
    var s := w.sessions[epoch];
    var s' := s.(alive := false);
    SessionStepKeepsKnown(w, epoch, s');
    if epoch == w.fence.epoch {
      assert Taken(s') == Taken(s);
    }
    SessionStepKeeps(w, epoch, s');
  }

  ghost function Wrote(s: Session, p: nat): Session
    requires p in s.reading
  {
    s.(reading := s.reading[p := s.reading[p].(next := s.reading[p].next + 1)])
  }

  lemma FillsOn(rows: seq<StagedRow>, p: nat, open: OpenSegment, staged: StagedRow)
    requires Fills(rows, p, open) && staged.row == Row(p, open.next) && open.first <= open.next
    ensures Fills(rows + [staged], p, open.(next := open.next + 1))
  {
    forall q: nat, i: nat
      ensures Copies(rows + [staged], Row(q, i)) == if q == p && open.first <= i < open.next + 1 then 1 else 0
    {
      CopiesOfTwo(rows, [staged], Row(q, i));
      assert Copies([staged], Row(q, i)) == if staged.row == Row(q, i) then 1 else 0;
    }
  }

  lemma WroteApart(s: Session, p: nat)
    requires Apart(s) && p in s.reading
    ensures Apart(Wrote(s, p))
  {
    var s' := Wrote(s, p);
    assert InFlight(s') == InFlight(s) && LetGo(s') == LetGo(s);
  }

  /** Staging one more row of partition `p` fills its open segment on, and no other's. */
  lemma ReadsNext(rows: seq<StagedRow>, epoch: nat, p: nat, open: OpenSegment, end: Cursors, staged: StagedRow)
    requires ReadsAt(rows, epoch, p, open, end) && staged.epoch == epoch
    requires staged.segment == open.id ==> staged.row == Row(p, open.next)
    ensures ReadsAt(rows + [staged], epoch, p,
                    if staged.segment == open.id then open.(next := open.next + 1) else open, end)
  {
    SelectedOfNext(rows, staged, epoch, {open.id});
    if staged.segment == open.id {
      FillsOn(Selected(rows, epoch, {open.id}), p, open, staged);
    }
  }

  lemma AllReadNext(rows: seq<StagedRow>, epoch: nat, s: Session, end: Cursors, p: nat, staged: StagedRow)
    requires Reads(rows, epoch, s.reading, end) && p in s.reading && Apart(s)
    requires staged.epoch == epoch && staged.segment == s.reading[p].id
    requires staged.row == Row(p, s.reading[p].next)
    ensures Reads(rows + [staged], epoch, Wrote(s, p).reading, end)
  {
    forall q | q in s.reading
      ensures ReadsAt(rows + [staged], epoch, q, Wrote(s, p).reading[q], end)
    {
      ReadsNext(rows, epoch, q, s.reading[q], end, staged);
    }
  }

  lemma WroteStaged(w: World, epoch: nat, s: Session, p: nat, staged: StagedRow)
    requires Staged(w, epoch, s) && Apart(s) && p in s.reading
    requires staged.epoch == epoch && staged.segment == s.reading[p].id
    requires staged.row == Row(p, s.reading[p].next)
    ensures Staged(w.(staging := w.staging + [staged]), epoch, Wrote(s, p))
  {
    AllReadNext(w.staging, epoch, s, Taken(s) + s.moved, p, staged);
    assert Filling(s, staged.segment);
    SelectedOfNext(w.staging, staged, epoch, s.sealed);
    SelectedOfNext(w.staging, staged, epoch, InFlight(s));
    assert Taken(Wrote(s, p)) == Taken(s);
  }

  lemma WritingKeepsKnown(w: World, epoch: nat, p: nat)
    requires Known(w) && Dated(w) && Enabled(w, Writing(epoch, p))
    ensures Known(Written(w, epoch, p)) && Dated(Written(w, epoch, p))
  {
    var s' := Wrote(w.sessions[epoch], p);
    SessionStepKeepsKnown(w, epoch, s');
    SameKnown(WithSession(w, epoch, s'), Written(w, epoch, p));
  }

  lemma WritingKeepsNewest(w: World, w': World, p: nat, s: Session, staged: StagedRow)
    requires Newest(w, staged.epoch, s) && p in s.reading
    requires staged.segment == s.reading[p].id && staged.row == Row(p, s.reading[p].next)
    requires w'.staging == w.staging + [staged] && w'.fence == w.fence && w'.cursors == w.cursors
    ensures Newest(w', staged.epoch, Wrote(s, p))
  {
    WroteApart(s, p);
    WroteStaged(w, staged.epoch, s, p, staged);
    var v := w.(staging := w'.staging);
    assert Synced(v, Wrote(s, p));
    SameNewest(v, w', staged.epoch, Wrote(s, p));
  }

  /** A fenced session's writer stages nothing the newest session rests on. */
  lemma FencedWritingKeepsNewest(w: World, w': World, epoch: nat, s: Session, staged: StagedRow)
    requires Newest(w, epoch, s) && staged.epoch != epoch
    requires w'.staging == w.staging + [staged] && w'.fence == w.fence && w'.cursors == w.cursors
    ensures Newest(w', epoch, s)
  {
    forall segments: set<nat>
      ensures Selected(w'.staging, epoch, segments) == Selected(w.staging, epoch, segments)
    {
      SelectedOfNext(w.staging, staged, epoch, segments);
    }
    SameNewest(w, w', epoch, s);
  }

  lemma WritingKeeps(w: World, epoch: nat, p: nat)
    requires Inv(w) && Enabled(w, Writing(epoch, p))
    ensures Inv(Next(w, Writing(epoch, p)))
  {
    var newest, s := w.fence.epoch, w.sessions[epoch];
    var staged := StagedRow(epoch, s.reading[p].id, newest, Row(p, s.reading[p].next));
    var w' := Written(w, epoch, p);
    WritingKeepsKnown(w, epoch, p);
    assert w'.sessions[epoch] == Wrote(s, p);
    if epoch == newest {
      WritingKeepsNewest(w, w', p, s, staged);
    } else {
      FencedWritingKeepsNewest(w, w', newest, w.sessions[newest], staged);
    }
  }

  lemma SealedApart(s: Session, p: nat)
    requires Apart(s) && p in s.reading
    ensures Apart(Sealed(s, p))
  {
    var s' := Sealed(s, p);
    assert InFlight(s') == InFlight(s) && LetGo(s') == LetGo(s);
  }

  /** A sealed segment's rows join those sealed before it. */
  lemma SealedHolds(rows: seq<StagedRow>, epoch: nat, sealed: set<nat>, first: Cursors, end: Cursors,
                    p: nat, open: OpenSegment)
    requires Holds(Selected(rows, epoch, sealed), first, end) && Forward(first, end)
    requires Fills(Selected(rows, epoch, {open.id}), p, open) && open.id !in sealed
    requires open.first == CursorOf(end, p) && open.first <= open.next
    ensures var sealed' := if open.first < open.next then sealed + {open.id} else sealed;
            Holds(Selected(rows, epoch, sealed'), first, end[p := open.next])
    ensures Forward(first, end[p := open.next])
  {
    var end' := end[p := open.next];
    forall q: nat ensures CursorOf(end', q) == if q == p then open.next else CursorOf(end, q) {
    }
    if open.first < open.next {
      forall q: nat, i: nat
        ensures Copies(Selected(rows, epoch, sealed + {open.id}), Row(q, i))
             == if CursorOf(first, q) <= i < CursorOf(end', q) then 1 else 0
      {
        CopiesOfBoth(rows, epoch, sealed, {open.id}, Row(q, i));
      }
    }
  }

  /** A partition reading on, in a new segment, from where it was sealed. */
  lemma ReadsOn(rows: seq<StagedRow>, epoch: nat, reading: map<nat, OpenSegment>, end: Cursors,
                p: nat, unused: nat, first: nat)
    requires Reads(rows, epoch, reading, end) && Allotted(rows, epoch, unused)
    ensures Reads(rows, epoch, reading[p := OpenSegment(unused, first, first)], end[p := first])
  {
    var open := OpenSegment(unused, first, first);
    SelectedNone(rows, epoch, {unused});
    assert Fills([], p, open);
    assert ReadsAt(rows, epoch, p, open, end[p := first]);
    forall q | q in reading && q != p ensures ReadsAt(rows, epoch, q, reading[q], end[p := first]) {
      assert ReadsAt(rows, epoch, q, reading[q], end);
    }
  }

  lemma SealedStaged(w: World, epoch: nat, s: Session, p: nat)
    requires Staged(w, epoch, s) && p in s.reading && s.reading[p].id !in s.sealed
    ensures Staged(w, epoch, Sealed(s, p))
  {
    var s', open, end := Sealed(s, p), s.reading[p], Taken(s) + s.moved;
    assert Taken(s') == Taken(s) && Taken(s') + s'.moved == end[p := open.next];
    SealedHolds(w.staging, epoch, s.sealed, Taken(s), end, p, open);
    ReadsOn(w.staging, epoch, s.reading, end, p, s.unused, open.next);
  }

  lemma SealingKeeps(w: World, epoch: nat, p: nat)
    requires Inv(w) && Enabled(w, Sealing(epoch, p))
    ensures Inv(Next(w, Sealing(epoch, p)))
  {
    var s := w.sessions[epoch];
    var s' := Sealed(s, p);
    SessionStepKeepsKnown(w, epoch, s');
    if epoch == w.fence.epoch {
      SealedApart(s, p);
      SealedStaged(w, epoch, s, p);
    }
    SessionStepKeeps(w, epoch, s');
  }

  ghost function Sending(s: Session): Session {
    s.(pending := Some(Meta(s.key, s.after, s.sealed, s.abandoned, s.moved)), sealed := {}, moved := map[],
       abandoned := {})
  }

  lemma SendingStaged(w: World, epoch: nat, s: Session)
    requires Staged(w, epoch, s) && Apart(s) && s.pending.None?
    ensures Staged(w, epoch, Sending(s)) && Apart(Sending(s))
  {
    var s' := Sending(s);
    assert InFlight(s') == s.sealed && LetGo(s') == s.abandoned;
    assert InFlight(s) == {} && LetGo(s) == s.abandoned;
    assert Taken(s') == Taken(s) + s.moved == Taken(s') + s'.moved;
    SelectedNone(w.staging, epoch, {});
    assert Holds([], Taken(s'), Taken(s'));
  }

  lemma CommittingKeeps(w: World, epoch: nat)
    requires Inv(w) && Enabled(w, Committing(epoch))
    ensures Inv(Next(w, Committing(epoch)))
  {
    var w' := Committed(w, epoch);
    var s, s' := w.sessions[epoch], w'.sessions[epoch];
    assert s' == Sending(s);
    assert Known(w') by {
      forall meta | meta in w'.messages ensures Sent(w', meta) {
        if meta in w.messages {
          assert Sent(w, meta);
        }
      }
    }
    if epoch == w.fence.epoch {
      SendingStaged(w, epoch, s);
      SameNewest(w, w', epoch, s');
    } else {
      SameNewest(w, w', w.fence.epoch, w.sessions[w.fence.epoch]);
    }
  }

  lemma AnsweredStaged(w: World, epoch: nat, s: Session)
    requires Staged(w, epoch, s) && Apart(s) && s.pending.Some?
    ensures Staged(w, epoch, Answered(s)) && Apart(Answered(s))
  {
    var s' := Answered(s);
    assert Taken(s') == Taken(s);
    assert InFlight(s') == {} && LetGo(s') == s.abandoned;
  }

  lemma AnsweringKeeps(w: World, epoch: nat)
    requires Inv(w) && Enabled(w, Answering(epoch))
    ensures Inv(Next(w, Answering(epoch)))
  {
    var s := w.sessions[epoch];
    var s' := Answered(s);
    SessionStepKeepsKnown(w, epoch, s');
    if epoch == w.fence.epoch {
      AnsweredStaged(w, epoch, s);
      assert w.fence.LandedKey() == Some(s.key);
    }
    SessionStepKeeps(w, epoch, s');
  }

  /** A commit that applies is the newest session's commit in flight. */
  lemma OnlyTheCommitInFlightApplies(w: World, meta: Meta)
    requires Inv(w) && meta in w.messages
    requires AnswerTo(w.fence, meta.key, meta.after) == Apply
    ensures w.sessions != map[]
    ensures w.sessions[w.fence.epoch].pending == Some(meta)
    ensures w.fence.LandedKey() == w.sessions[w.fence.epoch].after
  {
    assert Sent(w, meta);
    var s := w.sessions[w.fence.epoch];
    assert Synced(w, s);
  }

  lemma AppliedStaged(w: World, meta: Meta, s: Session)
    requires Staged(w, meta.key.epoch, s) && Apart(s) && s.pending == Some(meta) && s.key == meta.key
    ensures Staged(Applied(w, meta), meta.key.epoch, s)
  {
    var epoch, gone := meta.key.epoch, meta.segments + meta.abandoned;
    KeptRowsAreRows(w.staging, epoch, gone);
    SelectedWithout(w.staging, epoch, gone, s.sealed);
    forall p | p in s.reading
      ensures Selected(Without(w.staging, epoch, gone), epoch, {s.reading[p].id})
           == Selected(w.staging, epoch, {s.reading[p].id})
    {
      SelectedWithout(w.staging, epoch, gone, {s.reading[p].id});
    }
  }

  lemma AppliedHolds(published: seq<StagedRow>, rows: seq<StagedRow>, cursors: Cursors, cursors': Cursors)
    requires Holds(published, map[], cursors) && Holds(rows, cursors, cursors') && Forward(cursors, cursors')
    ensures Holds(published + rows, map[], cursors')
  {
    forall p: nat, i: nat
      ensures Copies(published + rows, Row(p, i))
           == if CursorOf(map[], p) <= i < CursorOf(cursors', p) then 1 else 0
    {
      CopiesOfTwo(published, rows, Row(p, i));
      assert CursorOf(cursors, p) <= CursorOf(cursors', p);
    }
  }

  lemma ApplyingKeepsKnown(w: World, meta: Meta)
    requires Inv(w) && meta in w.messages
    requires AnswerTo(w.fence, meta.key, meta.after) == Apply
    ensures Known(Applied(w, meta)) && Dated(Applied(w, meta))
  {
    var w' := Applied(w, meta);
    KeptRowsAreRows(w.staging, w.fence.epoch, meta.segments + meta.abandoned);
    KeptRowsAreRows(w.staging, w.fence.epoch, meta.segments);
    assert Sent(w, meta);
    forall other | other in w'.messages ensures Sent(w', other) {
      assert Sent(w, other);
    }
  }

  lemma ApplyingKeeps(w: World, meta: Meta)
    requires Inv(w) && meta in w.messages
    requires AnswerTo(w.fence, meta.key, meta.after) == Apply
    ensures Inv(Applied(w, meta))
  {
    OnlyTheCommitInFlightApplies(w, meta);
    ApplyingKeepsKnown(w, meta);
    var w' := Applied(w, meta);
    var s := w.sessions[w.fence.epoch];
    AppliedStaged(w, meta, s);
    AppliedHolds(w.published, Selected(w.staging, w.fence.epoch, meta.segments), w.cursors, w'.cursors);
    assert Synced(w', s);
  }

  lemma NextKeeps(w: World, step: Step)
    requires Inv(w) && Enabled(w, step)
    ensures Inv(Next(w, step))
  {
    match step
    case Opening(epoch) => OpeningKeeps(w, epoch);
    case Discarding(epoch) => DiscardingKeeps(w, epoch);
    case Starting(epoch, p) => StartingKeeps(w, epoch, p);
    case Writing(epoch, p) => WritingKeeps(w, epoch, p);
    case Sealing(epoch, p) => SealingKeeps(w, epoch, p);
    case Abandoning(epoch, p) => AbandoningKeeps(w, epoch, p);
    case Committing(epoch) => CommittingKeeps(w, epoch);
    case Delivering(meta) =>
      if AnswerTo(w.fence, meta.key, meta.after) == Apply {
        ApplyingKeeps(w, meta);
      } else {
        RefusingKeeps(w, meta);
      }
    case Answering(epoch) => AnsweringKeeps(w, epoch);
    case Crashing(epoch) => CrashingKeeps(w, epoch);
  }

  lemma RefusingKeeps(w: World, meta: Meta)
    requires Inv(w) && AnswerTo(w.fence, meta.key, meta.after) != Apply
    ensures Inv(Delivered(w, meta))
  {
    var w' := Delivered(w, meta);
    assert Known(w') by {
      forall meta | meta in w'.messages ensures Sent(w', meta) {
        assert Sent(w, meta);
      }
    }
    if w.sessions != map[] {
      SameNewest(w, w', w.fence.epoch, w.sessions[w.fence.epoch]);
    }
  }

  // ----- Every run -----

  lemma {:induction false} RunKeeps(worlds: seq<World>, steps: seq<Step>, k: nat)
    requires IsRun(worlds, steps) && k < |worlds|
    ensures Inv(worlds[k])
  {
    if k == 0 {
      assert Holds([], map[], map[]);
    } else {
      RunKeeps(worlds, steps, k - 1);
      NextKeeps(worlds[k - 1], steps[k - 1]);
    }
  }

  /** Exactly once: at every point of every run, each source row before its partition's committed
      cursor is published once, and no other row is. */
  lemma ExactlyOnce(worlds: seq<World>, steps: seq<Step>, k: nat, p: nat, i: nat)
    requires IsRun(worlds, steps) && k < |worlds|
    ensures Copies(worlds[k].published, Row(p, i)) == if i < CursorOf(worlds[k].cursors, p) then 1 else 0
  {
    RunKeeps(worlds, steps, k);
    assert CursorOf(map[], p) == 0;
  }

  /** Nothing published is taken back, no cursor moves back, and no landed key is followed by one
      at or below it. */
  ghost predicate Onward(w: World, w': World) {
    && w.published <= w'.published
    && Forward(w.cursors, w'.cursors)
    && (w'.fence.landed != w.fence.landed ==>
          && w'.fence.landed.Some?
          && Precedes(w.fence.LandedKey(), w'.fence.landed.value.key))
    && w.fence.epoch <= w'.fence.epoch
  }

  lemma NextIsOnward(w: World, step: Step)
    requires Inv(w) && Enabled(w, step)
    ensures Onward(w, Next(w, step))
  {
    if step.Delivering? && AnswerTo(w.fence, step.meta.key, step.meta.after) == Apply {
      OnlyTheCommitInFlightApplies(w, step.meta);
      assert Sent(w, step.meta);
      assert Forward(w.cursors, w.cursors + step.meta.delta);
    }
  }

  lemma ForwardTwice(a: map<nat, nat>, b: map<nat, nat>, c: map<nat, nat>)
    requires Forward(a, b) && Forward(b, c)
    ensures Forward(a, c)
  {
    forall p: nat ensures CursorOf(a, p) <= CursorOf(c, p) {
      assert CursorOf(a, p) <= CursorOf(b, p) <= CursorOf(c, p);
    }
  }

  lemma OnwardTwice(a: World, b: World, c: World)
    requires Onward(a, b) && Onward(b, c)
    ensures Onward(a, c)
  {
    ForwardTwice(a.cursors, b.cursors, c.cursors);
  }

  ghost predicate OnwardAt(worlds: seq<World>, i: nat) {
    i + 1 < |worlds| ==> Onward(worlds[i], worlds[i + 1])
  }

  lemma RunStepIsOnward(worlds: seq<World>, steps: seq<Step>, i: nat)
    requires IsRun(worlds, steps)
    ensures OnwardAt(worlds, i)
  {
    if i + 1 < |worlds| {
      RunKeeps(worlds, steps, i);
      NextIsOnward(worlds[i], steps[i]);
    }
  }

  lemma {:induction false} OnwardThrough(worlds: seq<World>, j: nat, k: nat)
    requires j <= k < |worlds| && forall i: nat :: OnwardAt(worlds, i)
    ensures Onward(worlds[j], worlds[k])
    decreases k
  {
    if j < k {
      OnwardThrough(worlds, j, k - 1);
      assert OnwardAt(worlds, k - 1);
      OnwardTwice(worlds[j], worlds[k - 1], worlds[k]);
    }
  }

  lemma RunsGoOnward(worlds: seq<World>, steps: seq<Step>, j: nat, k: nat)
    requires IsRun(worlds, steps) && j <= k < |worlds|
    ensures Onward(worlds[j], worlds[k])
  {
    forall i: nat ensures OnwardAt(worlds, i) {
      RunStepIsOnward(worlds, steps, i);
    }
    OnwardThrough(worlds, j, k);
  }

  /** A key that published once never publishes again, however often its commit is delivered. */
  lemma NoKeyPublishesTwice(worlds: seq<World>, steps: seq<Step>, j: nat, k: nat)
    requires IsRun(worlds, steps) && j < k < |steps|
    requires steps[j].Delivering? && steps[k].Delivering?
    requires AnswerTo(worlds[j].fence, steps[j].meta.key, steps[j].meta.after) == Apply
    requires AnswerTo(worlds[k].fence, steps[k].meta.key, steps[k].meta.after) == Apply
    ensures steps[j].meta.key.Below(steps[k].meta.key)
  {
    RunsGoOnward(worlds, steps, j + 1, k);
    RunKeeps(worlds, steps, k);
    assert Sent(worlds[k], steps[k].meta);
  }

  /** No row a session staged once a newer one had opened is ever published. */
  lemma LateRowsAreNeverPublished(worlds: seq<World>, steps: seq<Step>, k: nat)
    requires IsRun(worlds, steps) && k < |worlds|
    ensures forall row | row in worlds[k].published :: row.under == row.epoch
  {
    RunKeeps(worlds, steps, k);
  }

  /** At every point of every run, the newest session's commit in flight is answered to apply, or with its own
      receipt: never fenced, and never stale. */
  lemma TheCommitInFlightIsAnswered(worlds: seq<World>, steps: seq<Step>, k: nat)
    requires IsRun(worlds, steps) && k < |worlds| && worlds[k].sessions != map[]
    ensures var w := worlds[k];
            && w.fence.epoch in w.sessions
            && var pending := w.sessions[w.fence.epoch].pending;
               pending.Some? ==>
                 var answer := AnswerTo(w.fence, pending.value.key, pending.value.after);
                 answer == Apply || (w.fence.LandedKey() == Some(pending.value.key)
                                     && answer == Landed(w.fence.landed.value))
  {
    RunKeeps(worlds, steps, k);
    InFlightIsAnswered(worlds[k]);
  }

  lemma InFlightIsAnswered(w: World)
    requires Inv(w) && w.sessions != map[]
    ensures w.fence.epoch in w.sessions
    ensures var pending := w.sessions[w.fence.epoch].pending;
            pending.Some? ==>
              var answer := AnswerTo(w.fence, pending.value.key, pending.value.after);
              answer == Apply || (w.fence.LandedKey() == Some(pending.value.key)
                                  && answer == Landed(w.fence.landed.value))
  {
    var s := w.sessions[w.fence.epoch];
    assert Synced(w, s);
  }

  /** A commit whose answer was lost is not lost: of a commit that applies and a session that opens any time
      after it, the session resumes nowhere before the cursors the commit moved, and its own first commit
      expects that one landed, or a later one. */
  lemma OpeningFindsWhatLanded(worlds: seq<World>, steps: seq<Step>, j: nat, k: nat, p: nat)
    requires IsRun(worlds, steps) && j < k < |steps| && steps[j].Delivering? && steps[k].Opening?
    requires AnswerTo(worlds[j].fence, steps[j].meta.key, steps[j].meta.after) == Apply
    ensures steps[k].epoch in worlds[k + 1].sessions
    ensures var meta, s := steps[j].meta, worlds[k + 1].sessions[steps[k].epoch];
            && (p in meta.delta ==> meta.delta[p] <= CursorOf(s.base, p))
            && s.after.Some? && (s.after.value == meta.key || meta.key.Below(s.after.value))
  {
    RunsGoOnward(worlds, steps, j + 1, k);
    assert CursorOf(worlds[j + 1].cursors, p) <= CursorOf(worlds[k].cursors, p);
  }
}
