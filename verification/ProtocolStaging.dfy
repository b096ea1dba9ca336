/** What is left in staging: nothing that a landed commit took or let go, and nothing that a newer session
    discarded. */
module ProtocolStaging {
  import opened Wrappers
  import opened Landed
  import opened Protocol
  import opened ProtocolProof

  /** Whether a session has a use for a segment yet: it is being filled, or is sealed or let go and waits for a
      commit, or the commit in flight, not landed yet, takes it or lets it go. */
  ghost predicate Uses(w: World, s: Session, id: nat) {
    || (exists p :: p in s.reading && s.reading[p].id == id)
    || id in s.sealed || id in s.abandoned
    || (s.pending.Some? && w.fence.LandedKey() != Some(s.key)
        && (id in s.pending.value.segments || id in s.pending.value.abandoned))
  }

  /** Whether everything staged of a session is of a segment it has a use for. */
  ghost predicate AllUsed(w: World, e: nat, s: Session) {
    forall staged | staged in w.staging && staged.epoch == e :: Uses(w, s, staged.segment)
  }

  lemma {:induction false} CopiesOfAny(rows: seq<StagedRow>, staged: StagedRow)
    requires staged in rows
    ensures Copies(rows, staged.row) > 0
  {
    if staged != rows[|rows| - 1] {
      assert rows == rows[..|rows| - 1] + [rows[|rows| - 1]];
      CopiesOfAny(rows[..|rows| - 1], staged);
    }
  }

  lemma {:induction false} SelectedHas(rows: seq<StagedRow>, epoch: nat, segments: set<nat>, staged: StagedRow)
    ensures staged in Selected(rows, epoch, segments)
            <==> staged in rows && staged.epoch == epoch && staged.segment in segments
  {
    if rows != [] {
      var init, last := rows[..|rows| - 1], rows[|rows| - 1];
      assert rows == init + [last];
      SelectedHas(init, epoch, segments, staged);
    }
  }

  lemma {:induction false} WithoutHas(rows: seq<StagedRow>, epoch: nat, segments: set<nat>, staged: StagedRow)
    ensures staged in Without(rows, epoch, segments)
            <==> staged in rows && !(staged.epoch == epoch && staged.segment in segments)
  {
    if rows != [] {
      var init, last := rows[..|rows| - 1], rows[|rows| - 1];
      assert rows == init + [last];
      WithoutHas(init, epoch, segments, staged);
    }
  }

  lemma {:induction false} SinceHas(rows: seq<StagedRow>, epoch: nat, staged: StagedRow)
    ensures staged in Since(rows, epoch) <==> staged in rows && epoch <= staged.epoch
  {
    if rows != [] {
      var init, last := rows[..|rows| - 1], rows[|rows| - 1];
      assert rows == init + [last];
      SinceHas(init, epoch, staged);
    }
  }

  /** A segment nothing was written to has no staged row. */
  lemma EmptyHasNoRow(w: World, e: nat, s: Session, p: nat, staged: StagedRow)
    requires Staged(w, e, s) && p in s.reading && s.reading[p].first == s.reading[p].next
    requires staged in w.staging && staged.epoch == e
    ensures staged.segment != s.reading[p].id
  {
    var open := s.reading[p];
    assert ReadsAt(w.staging, e, p, open, Taken(s) + s.moved);
    var rows := Selected(w.staging, e, {open.id});
    SelectedHas(w.staging, e, {open.id}, staged);
    assert Copies(rows, Row(staged.row.partition, staged.row.index)) == 0;
    if staged in rows {
      CopiesOfAny(rows, staged);
    }
  }

  lemma SealingUses(w: World, e: nat, p: nat)
    requires Inv(w) && e == w.fence.epoch && Enabled(w, Sealing(e, p)) && AllUsed(w, e, w.sessions[e])
    ensures AllUsed(Next(w, Sealing(e, p)), e, Next(w, Sealing(e, p)).sessions[e])
  {
    var s, w' := w.sessions[e], Next(w, Sealing(e, p));
    var s' := w'.sessions[e];
    forall staged | staged in w'.staging && staged.epoch == e ensures Uses(w', s', staged.segment) {
      assert Uses(w, s, staged.segment);
      if s.reading[p].first == s.reading[p].next {
        EmptyHasNoRow(w, e, s, p, staged);
      }
      if q :| q in s.reading && s.reading[q].id == staged.segment && q != p {
        assert q in s'.reading && s'.reading[q].id == staged.segment;
      }
    }
  }

  lemma ReadingUses(w: World, step: Step, e: nat)
    requires Inv(w) && e == w.fence.epoch && e in w.sessions && Enabled(w, step) && AllUsed(w, e, w.sessions[e])
    requires (step.Starting? || step.Writing? || step.Abandoning?) && step.epoch == e
    ensures e in Next(w, step).sessions && AllUsed(Next(w, step), e, Next(w, step).sessions[e])
  {
    var s, w' := w.sessions[e], Next(w, step);
    var s', p := w'.sessions[e], step.partition;
    forall staged | staged in w'.staging && staged.epoch == e ensures Uses(w', s', staged.segment) {
      if staged in w.staging {
        assert Uses(w, s, staged.segment);
        if q :| q in s.reading && s.reading[q].id == staged.segment {
          assert q != p ==> q in s'.reading && s'.reading[q].id == staged.segment;
          assert step.Writing? ==> p in s'.reading && s'.reading[p].id == s.reading[p].id;
        }
      } else {
        assert p in s'.reading && s'.reading[p].id == staged.segment;
      }
    }
  }

  lemma OtherUses(w: World, step: Step, e: nat)
    requires Inv(w) && e == w.fence.epoch && e in w.sessions && Enabled(w, step) && AllUsed(w, e, w.sessions[e])
    requires step == Committing(e) || step == Answering(e) || step == Crashing(e)
    ensures e in Next(w, step).sessions && AllUsed(Next(w, step), e, Next(w, step).sessions[e])
  {
    var s, w' := w.sessions[e], Next(w, step);
    var s' := w'.sessions[e];
    if step.Answering? {
      AnsweredLanded(w, e);
    }
    if step.Committing? {
      CommittingIsNotLanded(w, e);
    }
    forall staged | staged in w'.staging && staged.epoch == e ensures Uses(w', s', staged.segment) {
      assert Uses(w, s, staged.segment);
      if q :| q in s.reading && s.reading[q].id == staged.segment {
        assert q in s'.reading && s'.reading[q].id == staged.segment;
      }
    }
  }

  lemma AnsweredLanded(w: World, e: nat)
    requires Inv(w) && e == w.fence.epoch && Enabled(w, Answering(e))
    ensures w.fence.LandedKey() == Some(w.sessions[e].key)
  {
    var s := w.sessions[e];
    assert Synced(w, s);
    var receipt :| receipt in w.answers && receipt.key == s.pending.value.key;
    assert AtOrBelow(receipt.key, w.fence.LandedKey());
  }

  lemma CommittingIsNotLanded(w: World, e: nat)
    requires Inv(w) && e == w.fence.epoch && Enabled(w, Committing(e))
    ensures w.fence.LandedKey() != Some(w.sessions[e].key)
  {
    assert Synced(w, w.sessions[e]);
  }

  lemma DeliveringUses(w: World, meta: Meta)
    requires Inv(w) && w.sessions != map[] && Enabled(w, Delivering(meta))
    requires AllUsed(w, w.fence.epoch, w.sessions[w.fence.epoch])
    ensures AllUsed(Next(w, Delivering(meta)), w.fence.epoch, w.sessions[w.fence.epoch])
  {
    var e, w' := w.fence.epoch, Next(w, Delivering(meta));
    var s := w.sessions[e];
    if AnswerTo(w.fence, meta.key, meta.after) == Apply {
      OnlyTheCommitInFlightApplies(w, meta);
      assert Synced(w, s);
      forall staged | staged in w'.staging && staged.epoch == e ensures Uses(w', s, staged.segment) {
        WithoutHas(w.staging, e, meta.segments + meta.abandoned, staged);
        assert Uses(w, s, staged.segment);
      }
    } else {
      forall staged | staged in w'.staging && staged.epoch == e ensures Uses(w', s, staged.segment) {
        assert Uses(w, s, staged.segment);
      }
    }
  }

  ghost predicate NewestUses(w: World) {
    w.sessions != map[] ==> w.fence.epoch in w.sessions && AllUsed(w, w.fence.epoch, w.sessions[w.fence.epoch])
  }

  lemma FencedUses(w: World, step: Step)
    requires Inv(w) && Enabled(w, step) && NewestUses(w) && w.sessions != map[]
    requires Next(w, step).fence == w.fence && w.fence.epoch in Next(w, step).sessions
    requires Next(w, step).sessions[w.fence.epoch] == w.sessions[w.fence.epoch]
    requires forall staged | staged in Next(w, step).staging && staged.epoch == w.fence.epoch :: staged in w.staging
    ensures NewestUses(Next(w, step))
  {
    var e, w' := w.fence.epoch, Next(w, step);
    forall staged | staged in w'.staging && staged.epoch == e ensures Uses(w', w'.sessions[e], staged.segment) {
      assert Uses(w, w.sessions[e], staged.segment);
    }
  }

  lemma OpeningUses(w: World, e: nat)
    requires Inv(w) && Enabled(w, Opening(e))
    ensures NewestUses(Next(w, Opening(e)))
  {
  }

  lemma DiscardingUses(w: World, e: nat)
    requires Inv(w) && Enabled(w, Discarding(e)) && NewestUses(w)
    ensures NewestUses(Next(w, Discarding(e)))
  {
    forall staged | staged in Since(w.staging, e) ensures staged in w.staging {
      SinceHas(w.staging, e, staged);
    }
    FencedUses(w, Discarding(e));
  }

  lemma StepUses(w: World, step: Step)
    requires Inv(w) && Enabled(w, step) && NewestUses(w)
    ensures NewestUses(Next(w, step))
  {
    match step
    case Opening(e) => OpeningUses(w, e);
    case Discarding(e) => DiscardingUses(w, e);
    case Delivering(meta) =>
      assert Sent(w, meta);
      DeliveringUses(w, meta);
    case Starting(e, _) => SessionUses(w, step, e);
    case Writing(e, _) => SessionUses(w, step, e);
    case Sealing(e, _) => SessionUses(w, step, e);
    case Abandoning(e, _) => SessionUses(w, step, e);
    case Committing(e) => SessionUses(w, step, e);
    case Answering(e) => SessionUses(w, step, e);
    case Crashing(e) => SessionUses(w, step, e);
  }

  lemma SessionUses(w: World, step: Step, e: nat)
    requires Inv(w) && Enabled(w, step) && NewestUses(w) && e in w.sessions
    requires !step.Opening? && !step.Discarding? && !step.Delivering? && step.epoch == e
    ensures NewestUses(Next(w, step))
  {
    if e != w.fence.epoch {
      FencedUses(w, step);
    } else if step.Sealing? {
      SealingUses(w, e, step.partition);
    } else if step.Committing? || step.Answering? || step.Crashing? {
      OtherUses(w, step, e);
    } else {
      ReadingUses(w, step, e);
    }
  }

  lemma {:induction false} RunUses(worlds: seq<World>, steps: seq<Step>, n: nat)
    requires IsRun(worlds, steps) && n < |worlds|
    ensures NewestUses(worlds[n])
  {
    if n > 0 {
      RunUses(worlds, steps, n - 1);
      RunKeeps(worlds, steps, n - 1);
      StepUses(worlds[n - 1], steps[n - 1]);
    }
  }

  /** In every run, once a commit applies, what is left staged of its session is what the session fills, or has
      sealed or abandoned since it made the commit: nothing the commit took or let go. */
  lemma CommitsLeaveNothingStaged(worlds: seq<World>, steps: seq<Step>, d: nat, staged: StagedRow)
    requires IsRun(worlds, steps) && d < |steps| && steps[d].Delivering?
    requires AnswerTo(worlds[d].fence, steps[d].meta.key, steps[d].meta.after) == Apply
    requires staged in worlds[d + 1].staging && staged.epoch == steps[d].meta.key.epoch
    ensures staged.epoch in worlds[d + 1].sessions
    ensures var s := worlds[d + 1].sessions[staged.epoch];
            || staged.segment in s.sealed || staged.segment in s.abandoned
            || exists p :: p in s.reading && s.reading[p].id == staged.segment
  {
    RunKeeps(worlds, steps, d);
    OnlyTheCommitInFlightApplies(worlds[d], steps[d].meta);
    assert Synced(worlds[d], worlds[d].sessions[worlds[d].fence.epoch]);
    RunUses(worlds, steps, d + 1);
    assert Uses(worlds[d + 1], worlds[d + 1].sessions[staged.epoch], staged.segment);
  }

  /** A discard leaves what its own session or a newer one staged, in order, and nothing older. */
  lemma DiscardsLeaveTheNewer(w: World, epoch: nat, newer: nat, segments: set<nat>, staged: StagedRow)
    requires Enabled(w, Discarding(epoch))
    ensures staged in Next(w, Discarding(epoch)).staging <==> staged in w.staging && epoch <= staged.epoch
    ensures Selected(Next(w, Discarding(epoch)).staging, newer, segments)
         == if epoch <= newer then Selected(w.staging, newer, segments) else []
  {
    SinceHas(w.staging, epoch, staged);
    if epoch <= newer {
      SelectedSince(w.staging, epoch, newer, segments);
    } else {
      forall other | other in Since(w.staging, epoch) ensures other.epoch != newer {
        SinceHas(w.staging, epoch, other);
      }
      SelectedNone(Since(w.staging, epoch), newer, segments);
    }
  }
}
