/** No run is at an end: from wherever one stands, a new session may open, and publish the next row of any
    partition. */
module ProtocolProgress {
  import opened Wrappers
  import opened Landed
  import opened Protocol
  import opened ProtocolProof

  lemma Goes(worlds: seq<World>, steps: seq<Step>, step: Step) returns (on: seq<World>, all: seq<Step>)
    requires IsRun(worlds, steps) && Enabled(worlds[|steps|], step)
    ensures IsRun(on, all) && |all| == |steps| + 1 && steps <= all && worlds <= on
    ensures on[|all|] == Next(worlds[|steps|], step)
  {
    on, all := worlds + [Next(worlds[|steps|], step)], steps + [step];
    forall i | 0 <= i < |all| ensures Enabled(on[i], all[i]) && on[i + 1] == Next(on[i], all[i]) {
      if i < |steps| {
        assert on[i] == worlds[i] && on[i + 1] == worlds[i + 1] && all[i] == steps[i];
      }
    }
  }

  lemma {:induction false} NoneSelected(rows: seq<StagedRow>, epoch: nat, segments: set<nat>)
    requires forall staged | staged in rows :: staged.epoch < epoch
    ensures Selected(rows, epoch, segments) == []
  {
    if rows != [] {
      NoneSelected(rows[..|rows| - 1], epoch, segments);
    }
  }

  /** Whether a session that opened since has written one row of a partition, and sealed nothing. */
  ghost predicate HasWritten(w: World, wrote: World, e: nat, p: nat) {
    var first := CursorOf(w.cursors, p);
    && Alive(wrote, e)
    && var s := wrote.sessions[e];
    && s.reading == map[p := OpenSegment(1, first, first + 1)]
    && s.key == CommitKey(e, 1) && s.after == w.fence.LandedKey() && s.pending.None?
    && s.sealed == {} && s.moved == map[] && s.abandoned == {}
    && wrote.staging == w.staging + [StagedRow(e, 1, e, Row(p, first))]
    && wrote.fence == Fence(e, w.fence.landed) && wrote.cursors == w.cursors && wrote.published == w.published
  }

  lemma MayWrite(w: World, e: nat, p: nat)
    requires w.fence.epoch < e
    ensures Enabled(w, Opening(e)) && Enabled(Next(w, Opening(e)), Starting(e, p))
    ensures var started := Next(Next(w, Opening(e)), Starting(e, p));
            Enabled(started, Writing(e, p)) && HasWritten(w, Next(started, Writing(e, p)), e, p)
  {
  }

  lemma RunsMayWrite(worlds: seq<World>, steps: seq<Step>, e: nat, p: nat) returns (on: seq<World>, all: seq<Step>)
    requires IsRun(worlds, steps) && worlds[|steps|].fence.epoch < e
    ensures IsRun(on, all) && steps <= all && worlds <= on && HasWritten(worlds[|steps|], on[|all|], e, p)
  {
    MayWrite(worlds[|steps|], e, p);
    on, all := Goes(worlds, steps, Opening(e));
    on, all := Goes(on, all, Starting(e, p));
    on, all := Goes(on, all, Writing(e, p));
  }

  /** Whether that session's commit of the row is on its way. */
  ghost predicate HasSent(w: World, sent: World, meta: Meta, e: nat, p: nat) {
    var first := CursorOf(w.cursors, p);
    && meta == Meta(CommitKey(e, 1), w.fence.LandedKey(), {1}, {}, map[p := first + 1]) && meta in sent.messages
    && sent.staging == w.staging + [StagedRow(e, 1, e, Row(p, first))]
    && sent.fence == Fence(e, w.fence.landed) && sent.cursors == w.cursors && sent.published == w.published
  }

  lemma MaySend(w: World, wrote: World, e: nat, p: nat) returns (meta: Meta)
    requires HasWritten(w, wrote, e, p)
    ensures Enabled(wrote, Sealing(e, p)) && Enabled(Next(wrote, Sealing(e, p)), Committing(e))
    ensures HasSent(w, Next(Next(wrote, Sealing(e, p)), Committing(e)), meta, e, p)
  {
    meta := Next(Next(wrote, Sealing(e, p)), Committing(e)).sessions[e].pending.value;
  }

  lemma RunsMaySend(w: World, worlds: seq<World>, steps: seq<Step>, e: nat, p: nat)
    returns (on: seq<World>, all: seq<Step>, meta: Meta)
    requires IsRun(worlds, steps) && HasWritten(w, worlds[|steps|], e, p)
    ensures IsRun(on, all) && steps <= all && worlds <= on && HasSent(w, on[|all|], meta, e, p)
  {
    meta := MaySend(w, worlds[|steps|], e, p);
    on, all := Goes(worlds, steps, Sealing(e, p));
    on, all := Goes(on, all, Committing(e));
  }

  /** Whether exactly the next row of a partition was published, and its cursor moved past it. */
  ghost predicate HasPublishedNext(w: World, after: World, p: nat) {
    var first := CursorOf(w.cursors, p);
    && after.cursors == w.cursors[p := first + 1]
    && |after.published| == |w.published| + 1 && w.published <= after.published
    && after.published[|w.published|].row == Row(p, first)
  }

  lemma DeliveringPublishes(w: World, sent: World, meta: Meta, e: nat, p: nat)
    requires HasSent(w, sent, meta, e, p)
    requires w.fence.landed.Some? ==> w.fence.landed.value.key.epoch < e
    requires forall staged | staged in w.staging :: staged.epoch < e
    ensures HasPublishedNext(w, Delivered(sent, meta), p)
  {
    assert AnswerTo(sent.fence, meta.key, meta.after) == Apply;
    NoneSelected(w.staging, e, {1});
    assert sent.staging[..|sent.staging| - 1] == w.staging;
    assert sent.cursors + meta.delta == w.cursors[p := CursorOf(w.cursors, p) + 1];
  }

  lemma EpochsAreBehind(worlds: seq<World>, steps: seq<Step>, e: nat)
    requires IsRun(worlds, steps) && worlds[|steps|].fence.epoch < e
    ensures var w := worlds[|steps|];
            && (w.fence.landed.Some? ==> w.fence.landed.value.key.epoch < e)
            && forall staged | staged in w.staging :: staged.epoch < e
  {
    RunKeeps(worlds, steps, |steps|);
  }

  /** However a run went, it may go on so that exactly the next row of a partition is published, and its cursor
      moves past it. */
  lemma EveryPartitionMayGoOn(worlds: seq<World>, steps: seq<Step>, p: nat) returns (on: seq<World>, all: seq<Step>)
    requires IsRun(worlds, steps)
    ensures IsRun(on, all) && steps <= all && worlds <= on && HasPublishedNext(worlds[|steps|], on[|all|], p)
  {
    var w := worlds[|steps|];
    var e, meta := w.fence.epoch + 1, Meta(CommitKey(0, 0), None, {}, {}, map[]);
    EpochsAreBehind(worlds, steps, e);
    on, all := RunsMayWrite(worlds, steps, e, p);
    on, all, meta := RunsMaySend(w, on, all, e, p);
    DeliveringPublishes(w, on[|all|], meta, e, p);
    on, all := Goes(on, all, Delivering(meta));
  }
}
