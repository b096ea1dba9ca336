/** A call its caller stops waiting for, over every run: it takes no result again, runs no job it let go, and
    ends let go; and no call ends so whose caller was not dropped. */
module SlotsLetGo {
  import opened Slots

  /** Whether the caller is letting its jobs go, or did: dropped, or unwound by a job's panic. */
  predicate LetsGo<T>(w: World<T>, unwound: bool) {
    match w.doing
    case Letting(u) => u == unwound
    case Blocked(u, _) => u == unwound
    case Over(finish) => finish == if unwound then Unwound else Finish.LetGo
    case _ => false
  }

  /** Whether the caller has the values it had, and took the results it had taken. */
  ghost predicate TookNoMore<T>(before: World<T>, after: World<T>) {
    && after.values == before.values && |after.jobs| == |before.jobs|
    && forall i | 0 <= i < |after.jobs| :: after.jobs[i].taken == before.jobs[i].taken
  }

  lemma LetsGoOn<T>(w: World<T>, step: Step, unwound: bool)
    requires |w.works| == |w.jobs| && Enabled(w, step) && LetsGo(w, unwound)
    ensures LetsGo(Next(w, step), unwound) && TookNoMore(w, Next(w, step))
  {
  }

  /** Once a caller lets its jobs go it does so for the same reason to the end, and takes nothing more. */
  lemma {:induction false} LetGoForGood<T>(works: seq<Made<T>>, steps: seq<Step>, n: nat, unwound: bool)
    requires n <= |steps| && LetsGo(After(works, steps[..n]), unwound)
    ensures LetsGo(After(works, steps), unwound) && TookNoMore(After(works, steps[..n]), After(works, steps))
  {
    if n == |steps| {
      assert steps[..n] == steps;
    } else {
      var init, last := steps[..|steps| - 1], steps[|steps| - 1];
      assert init[..n] == steps[..n];
      LetGoForGood(works, init, n, unwound);
      if Enabled(After(works, init), last) {
        LetsGoOn(After(works, init), last, unwound);
      }
    }
  }

  /** Whether the step at `n` of a run is `step`, and possible then. */
  predicate Does<T>(works: seq<Made<T>>, steps: seq<Step>, n: nat, step: Step) {
    n < |steps| && steps[n] == step && Enabled(After(works, steps[..n]), step)
  }

  lemma DoneIsNext<T>(works: seq<Made<T>>, steps: seq<Step>, n: nat, step: Step)
    requires Does(works, steps, n, step)
    ensures After(works, steps[..n + 1]) == Next(After(works, steps[..n]), step)
  {
    assert steps[..n + 1][..n] == steps[..n];
  }

  /** A caller dropped as it waits takes no value and no result again, and the call ends let go. */
  lemma DroppedCallersTakeNoMore<T>(works: seq<Made<T>>, steps: seq<Step>, n: nat)
    requires Does(works, steps, n, Cancel)
    ensures TookNoMore(After(works, steps[..n]), After(works, steps))
    ensures LetsGo(After(works, steps), false)
  {
    DoneIsNext(works, steps, n, Cancel);
    LetGoForGood(works, steps, n + 1, false);
  }

  /** A caller that takes a job's panic takes nothing after it, and the call ends unwound. */
  lemma PanicsUnwindTheirCaller<T>(works: seq<Made<T>>, steps: seq<Step>, n: nat)
    requires Does(works, steps, n, Ask)
    requires var w := After(works, steps[..n]); w.jobs[w.at].state.stage.Ended? && works[w.at].Panic?
    ensures TookNoMore(After(works, steps[..n + 1]), After(works, steps))
    ensures After(works, steps).values == After(works, steps[..n]).values && LetsGo(After(works, steps), true)
  {
    DoneIsNext(works, steps, n, Ask);
    NoResultIsMissing(works, steps[..n]);
    LetGoForGood(works, steps, n + 1, true);
  }

  lemma {:induction false} UnrunStays<T>(works: seq<Made<T>>, steps: seq<Step>, n: nat, i: nat)
    requires i < |works| && n <= |steps| && After(works, steps[..n]).jobs[i].unrun > 0
    ensures After(works, steps).jobs[i].unrun > 0
  {
    if n == |steps| {
      assert steps[..n] == steps;
    } else {
      var init := steps[..|steps| - 1];
      assert init[..n] == steps[..n];
      UnrunStays(works, init, n, i);
    }
  }

  /** A job that waits when its caller lets it go never runs. */
  lemma WaitingJobsLetGoNeverRun<T>(works: seq<Made<T>>, steps: seq<Step>, n: nat)
    requires Does(works, steps, n, Abandon)
    requires var w := After(works, steps[..n]); w.jobs[w.at].state.stage.Waiting?
    ensures After(works, steps).jobs[After(works, steps[..n]).at].ran == 0
  {
    var i := After(works, steps[..n]).at;
    DoneIsNext(works, steps, n, Abandon);
    UnrunStays(works, steps, n + 1, i);
    EachJobOnce(works, steps, i);
  }

  lemma {:induction false} OnlyDroppedCallersLetGo<T>(works: seq<Made<T>>, steps: seq<Step>) returns (n: nat)
    requires LetsGo(After(works, steps), false)
    ensures Does(works, steps, n, Cancel)
  {
    var init, last := steps[..|steps| - 1], steps[|steps| - 1];
    n := |init|;
    if !Does(works, steps, n, Cancel) {
      EveryRunHolds(works, init);
      if Enabled(After(works, init), Ask) && After(works, init).jobs[After(works, init).at].state.stage.Ended? {
        NoResultIsMissing(works, init);
      }
      n := OnlyDroppedCallersLetGo(works, init);
      assert init[..n] == steps[..n];
    }
  }

  /** A call that is over was let go exactly where its caller was dropped as it waited; else it returned exactly
      where no job panicked. */
  lemma CallsEndByWhatHappened<T>(works: seq<Made<T>>, steps: seq<Step>)
    requires After(works, steps).doing.Over?
    ensures After(works, steps).doing.finish.LetGo? <==> exists n: nat :: Does(works, steps, n, Cancel)
    ensures !After(works, steps).doing.finish.LetGo? ==>
              (After(works, steps).doing.finish.Returned? <==> forall i | 0 <= i < |works| :: works[i].Value?)
  {
    ResultsComeInWorkOrder(works, steps);
    if After(works, steps).doing.finish.LetGo? {
      var n := OnlyDroppedCallersLetGo(works, steps);
    }
    forall n: nat | Does(works, steps, n, Cancel) ensures After(works, steps).doing.finish.LetGo? {
      DroppedCallersTakeNoMore(works, steps, n);
    }
  }

  lemma {:induction false} RunsOn<T>(works: seq<Made<T>>, steps: seq<Step>, more: seq<Step>)
    requires Inv(After(works, steps)) && DueRun(After(works, steps), more)
    ensures After(works, steps + more) == DueEnd(After(works, steps), more)
    decreases |more|
  {
    if more == [] {
      assert steps + more == steps;
    } else {
      var on := steps + [more[0]];
      assert on[..|steps|] == steps && steps + more == on + more[1..];
      StepKeeps(After(works, steps), more[0]);
      RunsOn(works, on, more[1..]);
    }
  }

  /** Whenever a caller waits it may be dropped, and then the steps the call takes by itself end it, let go. */
  lemma WaitingCallersMayBeDropped<T>(works: seq<Made<T>>, steps: seq<Step>) returns (more: seq<Step>)
    requires After(works, steps).doing.Parked?
    ensures Does(works, steps + [Cancel], |steps|, Cancel)
    ensures After(works, steps + [Cancel] + more).doing == Over(Finish.LetGo)
  {
    var dropped := steps + [Cancel];
    assert dropped[..|steps|] == steps;
    EveryRunHolds(works, dropped);
    more := EveryCallEnds(After(works, dropped));
    RunsOn(works, dropped, more);
    assert (dropped + more)[..|steps|] == steps;
    DroppedCallersTakeNoMore(works, dropped + more, |steps|);
  }
}
