/** What a commit publishes, told from the steps of a run alone: where each partition was started, how many
    rows of it were written, and where it was last sealed before the commit was made. */
module ProtocolReads {
  import opened Wrappers
  import opened Landed
  import opened Protocol
  import opened ProtocolProof

  /** A session's reading of a partition: whether it is under way, the index it has written up to, the one it
      was last sealed at, and the one its last commit was made at. */
  datatype Tally = Tally(open: bool, written: nat, sealed: nat, sent: nat)

  /** The tally of session `e` and partition `p` once a step was made, of a destination that stood `p` at
      `cursor` before it. */
  function Tallying(t: Tally, step: Step, cursor: nat, e: nat, p: nat): Tally {
    match step
    case Opening(epoch) => if epoch == e then Tally(false, cursor, cursor, cursor) else t
    case Starting(epoch, partition) =>
      if epoch == e && partition == p then t.(open := true, written := cursor) else t
    case Writing(epoch, partition) =>
      if epoch == e && partition == p then t.(written := t.written + 1) else t
    case Sealing(epoch, partition) =>
      if epoch == e && partition == p then t.(sealed := t.written) else t
    case Abandoning(epoch, partition) =>
      if epoch == e && partition == p then t.(open := false) else t
    case Committing(epoch) => if epoch == e then t.(sent := t.sealed) else t
    case _ => t
  }

  ghost function Tallied(worlds: seq<World>, steps: seq<Step>, n: nat, e: nat, p: nat): Tally
    requires |worlds| == |steps| + 1 && n <= |steps|
  {
    if n == 0 then Tally(false, 0, 0, 0)
    else Tallying(Tallied(worlds, steps, n - 1, e, p), steps[n - 1], CursorOf(worlds[n - 1].cursors, p), e, p)
  }

  // ----- The newest session keeps to its tally -----

  ghost predicate Tells(t: Tally, s: Session, p: nat) {
    && (p in s.reading <==> t.open)
    && (t.open ==> s.reading[p].next == t.written)
    && CursorOf(Taken(s) + s.moved, p) == t.sealed
    && (s.pending.Some? ==> CursorOf(Taken(s), p) == t.sent)
  }

  /** A session's own steps. */
  predicate IsOf(step: Step, e: nat) {
    match step
    case Opening(epoch) => epoch == e
    case Starting(epoch, _) => epoch == e
    case Writing(epoch, _) => epoch == e
    case Sealing(epoch, _) => epoch == e
    case Abandoning(epoch, _) => epoch == e
    case Committing(epoch) => epoch == e
    case Answering(epoch) => epoch == e
    case Crashing(epoch) => epoch == e
    case Discarding(_) => false
    case Delivering(_) => false
  }

  lemma OthersLeaveIt(w: World, step: Step, e: nat)
    requires Enabled(w, step) && !IsOf(step, e) && e in w.sessions
    ensures e in Next(w, step).sessions && Next(w, step).sessions[e] == w.sessions[e]
  {
  }

  lemma OpeningTells(w: World, e: nat, p: nat, t: Tally)
    requires Enabled(w, Opening(e))
    ensures Tells(Tallying(t, Opening(e), CursorOf(w.cursors, p), e, p), Next(w, Opening(e)).sessions[e], p)
  {
    var s := Next(w, Opening(e)).sessions[e];
    assert Taken(s) + s.moved == w.cursors;
  }

  /** Where the newest session starts a partition, the destination stands it. */
  lemma StartsWhereCommitted(w: World, e: nat, p: nat)
    requires Inv(w) && e == w.fence.epoch && Enabled(w, Starting(e, p))
    ensures CursorOf(w.sessions[e].base, p) == CursorOf(w.cursors, p)
  {
    assert Synced(w, w.sessions[e]);
  }

  lemma StartingTells(w: World, e: nat, p: nat, q: nat, t: Tally)
    requires Inv(w) && e == w.fence.epoch && Enabled(w, Starting(e, q)) && Tells(t, w.sessions[e], p)
    ensures Tells(Tallying(t, Starting(e, q), CursorOf(w.cursors, p), e, p),
                  Next(w, Starting(e, q)).sessions[e], p)
  {
    StartsWhereCommitted(w, e, q);
    assert Taken(Next(w, Starting(e, q)).sessions[e]) == Taken(w.sessions[e]);
  }

  lemma CommittingTells(w: World, e: nat, p: nat, t: Tally)
    requires Enabled(w, Committing(e)) && Tells(t, w.sessions[e], p)
    ensures Tells(Tallying(t, Committing(e), CursorOf(w.cursors, p), e, p), Next(w, Committing(e)).sessions[e], p)
  {
    var s, s' := w.sessions[e], Next(w, Committing(e)).sessions[e];
    assert Taken(s') + s'.moved == s.base + s.moved == Taken(s');
  }

  lemma AnsweringTells(w: World, e: nat, p: nat, t: Tally)
    requires Enabled(w, Answering(e)) && Tells(t, w.sessions[e], p)
    ensures Tells(Tallying(t, Answering(e), CursorOf(w.cursors, p), e, p), Next(w, Answering(e)).sessions[e], p)
  {
    assert Taken(Next(w, Answering(e)).sessions[e]) == Taken(w.sessions[e]);
  }

  lemma ReadingTells(w: World, step: Step, e: nat, p: nat, t: Tally)
    requires Enabled(w, step) && e in w.sessions && Tells(t, w.sessions[e], p)
    requires (step.Writing? || step.Sealing? || step.Abandoning? || step.Crashing?) && step.epoch == e
    ensures e in Next(w, step).sessions
    ensures Tells(Tallying(t, step, CursorOf(w.cursors, p), e, p), Next(w, step).sessions[e], p)
  {
    assert Taken(Next(w, step).sessions[e]) == Taken(w.sessions[e]);
  }

  lemma StepTells(w: World, step: Step, e: nat, p: nat, t: Tally)
    requires Inv(w) && Enabled(w, step) && e in Next(w, step).sessions && e == Next(w, step).fence.epoch
    requires e in w.sessions && e == w.fence.epoch ==> Tells(t, w.sessions[e], p)
    ensures Tells(Tallying(t, step, CursorOf(w.cursors, p), e, p), Next(w, step).sessions[e], p)
  {
    if step == Opening(e) {
      OpeningTells(w, e, p, t);
    } else if step.Starting? && step.epoch == e {
      StartingTells(w, e, p, step.partition, t);
    } else if step == Committing(e) {
      CommittingTells(w, e, p, t);
    } else if step == Answering(e) {
      AnsweringTells(w, e, p, t);
    } else if IsOf(step, e) {
      ReadingTells(w, step, e, p, t);
    } else {
      OthersLeaveIt(w, step, e);
    }
  }

  ghost predicate NewestTells(worlds: seq<World>, steps: seq<Step>, n: nat, e: nat, p: nat)
    requires |worlds| == |steps| + 1 && n <= |steps|
  {
    e in worlds[n].sessions && e == worlds[n].fence.epoch ==>
      Tells(Tallied(worlds, steps, n, e, p), worlds[n].sessions[e], p)
  }

  lemma TellsOn(worlds: seq<World>, steps: seq<Step>, n: nat, e: nat, p: nat)
    requires IsRun(worlds, steps) && n < |steps| && NewestTells(worlds, steps, n, e, p)
    ensures NewestTells(worlds, steps, n + 1, e, p)
  {
    RunKeeps(worlds, steps, n);
    if e in worlds[n + 1].sessions && e == worlds[n + 1].fence.epoch {
      StepTells(worlds[n], steps[n], e, p, Tallied(worlds, steps, n, e, p));
    }
  }

  /** At every point of every run, the newest session keeps to its tally. */
  lemma {:induction false} RunTells(worlds: seq<World>, steps: seq<Step>, n: nat, e: nat, p: nat)
    requires IsRun(worlds, steps) && n < |worlds|
    ensures NewestTells(worlds, steps, n, e, p)
  {
    if n > 0 {
      RunTells(worlds, steps, n - 1, e, p);
      TellsOn(worlds, steps, n - 1, e, p);
    }
  }

  /** In every run, a commit that applies moves each partition's cursor to where its session had sealed the
      partition when it made the commit, by the tally of the run's steps. */
  lemma CommitsPublishWhatWasSealed(worlds: seq<World>, steps: seq<Step>, d: nat, p: nat)
    requires IsRun(worlds, steps) && d < |steps| && steps[d].Delivering?
    requires AnswerTo(worlds[d].fence, steps[d].meta.key, steps[d].meta.after) == Apply
    ensures CursorOf(worlds[d + 1].cursors, p) == Tallied(worlds, steps, d, steps[d].meta.key.epoch, p).sent
  {
    var w, meta := worlds[d], steps[d].meta;
    RunKeeps(worlds, steps, d);
    OnlyTheCommitInFlightApplies(w, meta);
    var s := w.sessions[w.fence.epoch];
    assert Synced(w, s);
    RunTells(worlds, steps, d, w.fence.epoch, p);
    assert worlds[d + 1].cursors == Taken(s);
  }

  /** The newest session, while it lives, may write of a partition, seal it or abandon it exactly where the run
      started it, and has not abandoned it since. */
  lemma WritesWhatWasStarted(worlds: seq<World>, steps: seq<Step>, n: nat, p: nat)
    requires IsRun(worlds, steps) && n < |worlds| && Alive(worlds[n], worlds[n].fence.epoch)
    ensures var e := worlds[n].fence.epoch;
            var open := Tallied(worlds, steps, n, e, p).open;
            && (Enabled(worlds[n], Writing(e, p)) <==> open)
            && (Enabled(worlds[n], Sealing(e, p)) <==> open)
            && (Enabled(worlds[n], Abandoning(e, p)) <==> open)
  {
    RunTells(worlds, steps, n, worlds[n].fence.epoch, p);
  }

  // ----- By counting steps -----

  /** How many rows of a partition a session wrote from one step of a run up to another. */
  function Writes(steps: seq<Step>, from: nat, to: nat, e: nat, p: nat): nat
    requires from <= to <= |steps|
  {
    if from == to then 0 else Writes(steps, from, to - 1, e, p) + if steps[to - 1] == Writing(e, p) then 1 else 0
  }

  /** Whether a step is not made from one step of a run up to another. */
  predicate NoneOf(steps: seq<Step>, from: nat, to: nat, step: Step)
    requires to <= |steps|
  {
    forall i | from <= i < to :: steps[i] != step
  }

  lemma OpensNoMore(w: World, step: Step, e: nat)
    requires Inv(w) && Enabled(w, step) && e in w.sessions
    ensures step != Opening(e) && e in Next(w, step).sessions
  {
  }

  /** A session opens once. */
  lemma {:induction false} OpensOnce(worlds: seq<World>, steps: seq<Step>, from: nat, to: nat, e: nat)
    requires IsRun(worlds, steps) && from <= to <= |steps| && e in worlds[from].sessions
    ensures NoneOf(steps, from, to, Opening(e)) && e in worlds[to].sessions
  {
    if from < to {
      OpensOnce(worlds, steps, from, to - 1, e);
      RunKeeps(worlds, steps, to - 1);
      OpensNoMore(worlds[to - 1], steps[to - 1], e);
    }
  }

  lemma {:induction false} TallyWrites(worlds: seq<World>, steps: seq<Step>, from: nat, to: nat, e: nat, p: nat)
    requires |worlds| == |steps| + 1 && from <= to <= |steps|
    requires NoneOf(steps, from, to, Opening(e)) && NoneOf(steps, from, to, Starting(e, p))
    ensures Tallied(worlds, steps, to, e, p).written
         == Tallied(worlds, steps, from, e, p).written + Writes(steps, from, to, e, p)
  {
    if from < to {
      TallyWrites(worlds, steps, from, to - 1, e, p);
    }
  }

  lemma {:induction false} TallySealed(worlds: seq<World>, steps: seq<Step>, from: nat, to: nat, e: nat, p: nat)
    requires |worlds| == |steps| + 1 && from <= to <= |steps|
    requires NoneOf(steps, from, to, Opening(e)) && NoneOf(steps, from, to, Sealing(e, p))
    ensures Tallied(worlds, steps, to, e, p).sealed == Tallied(worlds, steps, from, e, p).sealed
  {
    if from < to {
      TallySealed(worlds, steps, from, to - 1, e, p);
    }
  }

  lemma {:induction false} TallySent(worlds: seq<World>, steps: seq<Step>, from: nat, to: nat, e: nat, p: nat)
    requires |worlds| == |steps| + 1 && from <= to <= |steps|
    requires NoneOf(steps, from, to, Opening(e)) && NoneOf(steps, from, to, Committing(e))
    ensures Tallied(worlds, steps, to, e, p).sent == Tallied(worlds, steps, from, e, p).sent
  {
    if from < to {
      TallySent(worlds, steps, from, to - 1, e, p);
    }
  }

  lemma TallyAtSeal(worlds: seq<World>, steps: seq<Step>, j: nat, l: nat, e: nat, p: nat)
    requires |worlds| == |steps| + 1 && j < l <= |steps| && NoneOf(steps, j, l, Opening(e))
    requires steps[j] == Starting(e, p) && NoneOf(steps, j + 1, l, Starting(e, p))
    ensures Tallied(worlds, steps, l, e, p).written == CursorOf(worlds[j].cursors, p) + Writes(steps, j, l, e, p)
  {
    WritesFrom(steps, j, l, e, p);
    TallyWrites(worlds, steps, j + 1, l, e, p);
  }

  lemma TallyAtCommit(worlds: seq<World>, steps: seq<Step>, l: nat, c: nat, e: nat, p: nat)
    requires |worlds| == |steps| + 1 && l < c <= |steps| && NoneOf(steps, l, c, Opening(e))
    requires steps[l] == Sealing(e, p) && NoneOf(steps, l + 1, c, Sealing(e, p))
    ensures Tallied(worlds, steps, c, e, p).sealed == Tallied(worlds, steps, l, e, p).written
  {
    TallySealed(worlds, steps, l + 1, c, e, p);
  }

  lemma TallyAtDelivery(worlds: seq<World>, steps: seq<Step>, c: nat, d: nat, e: nat, p: nat)
    requires |worlds| == |steps| + 1 && c < d <= |steps| && NoneOf(steps, c, d, Opening(e))
    requires steps[c] == Committing(e) && NoneOf(steps, c + 1, d, Committing(e))
    ensures Tallied(worlds, steps, d, e, p).sent == Tallied(worlds, steps, c, e, p).sealed
  {
    TallySent(worlds, steps, c + 1, d, e, p);
  }

  lemma NoneWithin(steps: seq<Step>, from: nat, to: nat, step: Step, a: nat, b: nat)
    requires to <= |steps| && NoneOf(steps, from, to, step) && from <= a && b <= to
    ensures NoneOf(steps, a, b, step)
  {
  }

  /** A commit made at step `c`, its session's last, that applies at step `d`: a partition last sealed at `l`,
      last started before that at `j`, moves from where it was committed when it was started by as many rows as
      were written of it between the two, and those rows are the ones published. */
  lemma CommitsPublishWhatWasWritten(worlds: seq<World>, steps: seq<Step>, j: nat, l: nat, c: nat, d: nat,
                                     e: nat, p: nat, i: nat)
    requires IsRun(worlds, steps) && j < l < c < d < |steps|
    requires steps[j] == Starting(e, p) && NoneOf(steps, j + 1, l, Starting(e, p))
    requires steps[l] == Sealing(e, p) && NoneOf(steps, l + 1, c, Sealing(e, p))
    requires steps[c] == Committing(e) && NoneOf(steps, c + 1, d, Committing(e))
    requires steps[d].Delivering? && steps[d].meta.key.epoch == e
    requires AnswerTo(worlds[d].fence, steps[d].meta.key, steps[d].meta.after) == Apply
    ensures var end := CursorOf(worlds[j].cursors, p) + Writes(steps, j, l, e, p);
            && CursorOf(worlds[d + 1].cursors, p) == end
            && Copies(worlds[d + 1].published, Row(p, i)) == if i < end then 1 else 0
  {
    OpensOnce(worlds, steps, j, d, e);
    NoneWithin(steps, j, d, Opening(e), j, l);
    NoneWithin(steps, j, d, Opening(e), l, c);
    NoneWithin(steps, j, d, Opening(e), c, d);
    TallyAtSeal(worlds, steps, j, l, e, p);
    TallyAtCommit(worlds, steps, l, c, e, p);
    TallyAtDelivery(worlds, steps, c, d, e, p);
    CommitsPublishWhatWasSealed(worlds, steps, d, p);
    ExactlyOnce(worlds, steps, d + 1, p, i);
  }

  lemma {:induction false} WritesFrom(steps: seq<Step>, from: nat, to: nat, e: nat, p: nat)
    requires from < to <= |steps| && steps[from] != Writing(e, p)
    ensures Writes(steps, from, to, e, p) == Writes(steps, from + 1, to, e, p)
  {
    if from + 1 < to {
      WritesFrom(steps, from, to - 1, e, p);
    } else {
      assert Writes(steps, from, from, e, p) == 0;
    }
  }

  lemma TallyAtOpening(worlds: seq<World>, steps: seq<Step>, o: nat, e: nat, p: nat)
    requires |worlds| == |steps| + 1 && o < |steps| && steps[o] == Opening(e)
    ensures Tallied(worlds, steps, o + 1, e, p).sealed == CursorOf(worlds[o].cursors, p)
  {
  }

  /** A partition its session never sealed before the commit keeps the cursor it had when the session opened. */
  lemma UnsealedStay(worlds: seq<World>, steps: seq<Step>, o: nat, c: nat, d: nat, e: nat, p: nat)
    requires IsRun(worlds, steps) && o < c < d < |steps|
    requires steps[o] == Opening(e) && NoneOf(steps, o + 1, c, Sealing(e, p))
    requires steps[c] == Committing(e) && NoneOf(steps, c + 1, d, Committing(e))
    requires steps[d].Delivering? && steps[d].meta.key.epoch == e
    requires AnswerTo(worlds[d].fence, steps[d].meta.key, steps[d].meta.after) == Apply
    ensures CursorOf(worlds[d + 1].cursors, p) == CursorOf(worlds[o].cursors, p)
  {
    OpensOnce(worlds, steps, o + 1, d, e);
    NoneWithin(steps, o + 1, d, Opening(e), o + 1, c);
    NoneWithin(steps, o + 1, d, Opening(e), c, d);
    TallyAtOpening(worlds, steps, o, e, p);
    TallySealed(worlds, steps, o + 1, c, e, p);
    TallyAtDelivery(worlds, steps, c, d, e, p);
    CommitsPublishWhatWasSealed(worlds, steps, d, p);
  }

  // ----- Sessions go on, and end -----

  /** A live newest session with no commit in flight may commit; its commit applies where it is delivered, is
      answered, and lets the session commit again, which then expects that one landed. */
  lemma CommitsGoRound(w: World) returns (sent: World, meta: Meta, landed: World, again: World)
    requires Inv(w) && Alive(w, w.fence.epoch) && w.sessions[w.fence.epoch].pending.None?
    ensures Enabled(w, Committing(w.fence.epoch)) && sent == Next(w, Committing(w.fence.epoch))
    ensures meta.key.epoch == w.fence.epoch && Enabled(sent, Delivering(meta))
    ensures AnswerTo(sent.fence, meta.key, meta.after) == Apply && landed == Next(sent, Delivering(meta))
    ensures Enabled(landed, Answering(w.fence.epoch)) && again == Next(landed, Answering(w.fence.epoch))
    ensures Enabled(again, Committing(w.fence.epoch)) && again.sessions[w.fence.epoch].after == Some(meta.key)
  {
    assert Synced(w, w.sessions[w.fence.epoch]);
    sent := Next(w, Committing(w.fence.epoch));
    meta := sent.sessions[w.fence.epoch].pending.value;
    landed := Next(sent, Delivering(meta));
    assert landed.fence.landed.Some? && landed.fence.landed.value in landed.answers;
    again := Next(landed, Answering(w.fence.epoch));
  }

  lemma {:induction false} LandedIsAnswered(worlds: seq<World>, steps: seq<Step>, n: nat)
    requires IsRun(worlds, steps) && n <= |steps|
    ensures worlds[n].fence.landed.Some? ==> worlds[n].fence.landed.value in worlds[n].answers
  {
    if n > 0 {
      LandedIsAnswered(worlds, steps, n - 1);
    }
  }

  /** Every receipt is of a commit that applied, and counts the rows it published. */
  lemma {:induction false} ReceiptsCountTheirRows(worlds: seq<World>, steps: seq<Step>, n: nat, receipt: Receipt)
    returns (i: nat)
    requires IsRun(worlds, steps) && n <= |steps| && receipt in worlds[n].answers
    ensures i < n && steps[i].Delivering? && steps[i].meta.key == receipt.key
    ensures AnswerTo(worlds[i].fence, receipt.key, steps[i].meta.after) == Apply
    ensures receipt.rows == |worlds[i + 1].published| - |worlds[i].published|
  {
    LandedIsAnswered(worlds, steps, n - 1);
    if receipt in worlds[n - 1].answers {
      i := ReceiptsCountTheirRows(worlds, steps, n - 1, receipt);
    } else {
      i := n - 1;
    }
  }

  lemma StaysDead(w: World, step: Step, e: nat)
    requires Inv(w) && Enabled(w, step) && e in w.sessions && !w.sessions[e].alive
    ensures !IsOf(step, e) && step != Discarding(e)
    ensures e in Next(w, step).sessions && !Next(w, step).sessions[e].alive
  {
    OpensNoMore(w, step, e);
    if !IsOf(step, e) {
      OthersLeaveIt(w, step, e);
    }
  }

  /** A session that crashed makes no step again. */
  lemma {:induction false} CrashesEndASession(worlds: seq<World>, steps: seq<Step>, i: nat, k: nat, e: nat)
    requires IsRun(worlds, steps) && i < k <= |steps| && steps[i] == Crashing(e)
    ensures e in worlds[k].sessions && !worlds[k].sessions[e].alive
    ensures k < |steps| ==> !IsOf(steps[k], e) && steps[k] != Discarding(e)
  {
    if i + 1 < k {
      CrashesEndASession(worlds, steps, i, k - 1, e);
      RunKeeps(worlds, steps, k - 1);
      StaysDead(worlds[k - 1], steps[k - 1], e);
    }
    if k < |steps| {
      RunKeeps(worlds, steps, k);
      StaysDead(worlds[k], steps[k], e);
    }
  }
}
