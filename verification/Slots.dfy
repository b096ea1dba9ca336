/** A job handed to the compute pool: its slot, each of whose locked sections is one step, and every
    interleaving of those steps by the pool's threads and the caller waiting for the results. */
module Slots {
  import opened Wrappers
  import opened Common

  /** What a job runs to. */
  datatype Made<+T> = Value(value: T) | Panic

  /** How far a job of the pool has come, and what it left. */
  datatype Stage<+T> = Waiting | Running | Ended(done: Option<Made<T>>)

  /** What a slot's lock guards: where its job is, and whether a caller left its waker. */
  datatype State<+T> = State(stage: Stage<T>, waker: bool)

  /** The slot once its job is taken to run; as it was where its caller let the job go. */
  function Started<T>(s: State<T>): State<T> {
    if s.stage.Waiting? then s.(stage := Running) else s
  }

  /** The slot once its job ended with `done`, its waker taken. */
  function EndedWith<T>(s: State<T>, done: Option<Made<T>>): State<T> {
    State(Ended(done), false)
  }

  /** The slot once its caller asked for the result: the result gone to it where the job ended, its
      waker left where it did not. */
  function Polled<T>(s: State<T>): State<T> {
    if s.stage.Ended? then s.(stage := Ended(None)) else s.(waker := true)
  }

  /** The slot once its caller lets the job go; as it is while the job runs. */
  function Abandoned<T>(s: State<T>): State<T> {
    if s.stage.Running? then s else s.(stage := Ended(None))
  }

  /** What a caller that asks for a result is told. */
  datatype Poll<+T> = Pending | Ready(done: Option<Made<T>>)

  /** What a caller that lets a job go finds: the job, dropped unrun; the job running, to be waited
      for; or what it made, dropped. */
  datatype Letting<+T> = Unrun | Waits | Made(done: Option<Made<T>>)

  class Slot<T> {
    var stage: Stage<T>
    var waker: bool

    ghost function Now(): State<T>
      reads this
    {
      State(stage, waker)
    }

    constructor ()
      ensures Now() == State(Waiting, false)
    {
      stage, waker := Waiting, false;
    }

    /** Whether the job is taken, to run now; not where its caller let it go. */
    method Start() returns (taken: bool)
      modifies this
      ensures Now() == Started(old(Now())) && taken == old(stage).Waiting?
    {
      var replaced := stage;
      stage := Running;
      match replaced
      case Waiting => taken := true;
      case _ =>
        stage := replaced;
        taken := false;
    }

    /** Ends the job with `done`; whether a caller is to be woken. */
    method End(done: Option<Made<T>>) returns (wake: bool)
      modifies this
      ensures Now() == EndedWith(old(Now()), done) && wake == old(waker)
    {
      stage := Ended(done);
      wake := waker;
      waker := false;
    }

    /** Polls the slot: what the job left is handed over once, and a waker is left where there is nothing
        yet. */
    method Ask() returns (told: Poll<T>)
      modifies this
      ensures Now() == Polled(old(Now()))
      ensures told == if old(stage).Ended? then Ready(old(stage).done) else Pending
    {
      match stage
      case Ended(done) =>
        stage := Ended(None);
        return Ready(done);
      case _ =>
        waker := true;
        return Pending;
    }

    /** One turn of letting the job go. */
    method LetGo() returns (found: Letting<T>)
      modifies this
      ensures Now() == Abandoned(old(Now()))
      ensures match old(stage)
              case Waiting => found == Unrun
              case Running => found == Waits
              case Ended(done) => found == Letting.Made(done)
    {
      match stage
      case Waiting =>
        stage := Ended(None);
        return Unrun;
      case Running => return Waits;
      case Ended(done) =>
        stage := Ended(None);
        return Letting.Made(done);
    }
  }

  // ----- A call: its jobs, the pool's threads, and its caller -----

  /** What the pool does with one job: yet to take it, running it, with the slot ended but those
      blocked on it not notified, or its caller not woken; or nothing more. */
  datatype Thread = Queued | Going | Notifying(wake: bool) | Waking(wake: bool) | Idle

  /** A job of a call, and how often it was run, dropped unrun, its result taken by the caller, and
      its result dropped. */
  datatype Job<+T> = Job(state: State<T>, thread: Thread, ran: nat, unrun: nat, taken: nat, discarded: nat)

  /** What the caller does at its job: asks for the result; waits to be woken; lets it go, as it is
      dropped or as a job's panic unwinds it; is blocked until the job ends; or is over. */
  datatype Doing =
    | Polling
    | Parked(woken: bool)
    | Letting(unwound: bool)
    | Blocked(unwound: bool, notified: bool)
    | Over(finish: Finish)

  datatype Finish = Returned | LetGo | Unwound

  /** A call of jobs that run to `works`; its caller is at the job `at`, and has `values` so far. */
  datatype World<+T> = World(works: seq<Made<T>>, jobs: seq<Job<T>>, at: nat, doing: Doing, values: seq<T>)

  datatype Step =
    | Start(i: nat)   // a pool's thread takes the job
    | End(i: nat)     // the job ran: its slot ends
    | Notify(i: nat)  // whoever is blocked on the slot is notified
    | Wake(i: nat)    // its waker, if any, is woken
    | Ask             // the caller polls its slot
    | Resume          // the caller is polled again
    | Cancel          // the caller is dropped as it waits
    | Abandon         // the caller lets its slot's job go
    | Recheck         // the blocked caller looks again
    | Close           // the caller is past its last slot

  function NewJob<T>(): Job<T> {
    Job(State(Waiting, false), Queued, 0, 0, 0, 0)
  }

  function Init<T>(works: seq<Made<T>>): World<T> {
    World(works, seq(|works|, _ => NewJob()), 0, Polling, [])
  }

  predicate Enabled<T>(w: World<T>, step: Step) {
    match step
    case Start(i) => i < |w.jobs| && w.jobs[i].thread.Queued?
    case End(i) => i < |w.jobs| && w.jobs[i].thread.Going?
    case Notify(i) => i < |w.jobs| && w.jobs[i].thread.Notifying?
    case Wake(i) => i < |w.jobs| && w.jobs[i].thread.Waking?
    case Ask => w.doing.Polling? && w.at < |w.jobs|
    case Resume => w.doing.Parked?
    case Cancel => w.doing.Parked?
    case Abandon => w.doing.Letting? && w.at < |w.jobs|
    case Recheck => w.doing.Blocked?
    case Close => (w.doing.Polling? || w.doing.Letting?) && w.at >= |w.jobs|
  }

  function StartedJob<T>(job: Job<T>): Job<T> {
    if job.state.stage.Waiting? then job.(state := Started(job.state), thread := Going, ran := job.ran + 1)
    else job.(state := Started(job.state), thread := Idle)
  }

  function EndedJob<T>(job: Job<T>, work: Made<T>): Job<T> {
    job.(state := EndedWith(job.state, Some(work)), thread := Notifying(job.state.waker))
  }

  /** The job once its caller let it go: dropped unrun, or what it made dropped. */
  function AbandonedJob<T>(job: Job<T>): Job<T> {
    var left := job.(state := Abandoned(job.state));
    match job.state.stage
    case Waiting => left.(unrun := job.unrun + 1)
    case Running => left
    case Ended(done) => if done.Some? then left.(discarded := job.discarded + 1) else left
  }

  /** The caller once it asked for the result of its job. A result that is missing would be the end
      of it; `NoResultIsMissing` says there is none. */
  function Asked<T>(w: World<T>): World<T>
    requires w.at < |w.jobs|
  {
    var job := w.jobs[w.at];
    var asked := w.(jobs := w.jobs[w.at := job.(state := Polled(job.state))]);
    if !job.state.stage.Ended? then asked.(doing := Parked(false))
    else if job.state.stage.done.None? then asked.(doing := Letting(true))
    else
      var took := w.(jobs := w.jobs[w.at := job.(state := Polled(job.state), taken := job.taken + 1)], at := w.at + 1);
      match job.state.stage.done.value
      case Value(value) => took.(values := w.values + [value])
      case Panic => took.(doing := Letting(true))
  }

  function Next<T>(w: World<T>, step: Step): World<T>
    requires Enabled(w, step) && |w.works| == |w.jobs|
  {
    match step
    case Start(i) => w.(jobs := w.jobs[i := StartedJob(w.jobs[i])])
    case End(i) => w.(jobs := w.jobs[i := EndedJob(w.jobs[i], w.works[i])])
    case Notify(i) =>
      var notified := w.(jobs := w.jobs[i := w.jobs[i].(thread := Waking(w.jobs[i].thread.wake))]);
      if w.doing.Blocked? && w.at == i then notified.(doing := Blocked(w.doing.unwound, true)) else notified
    case Wake(i) =>
      var woke := w.(jobs := w.jobs[i := w.jobs[i].(thread := Idle)]);
      if w.doing.Parked? && w.jobs[i].thread.wake then woke.(doing := Parked(true)) else woke
    case Ask => Asked(w)
    case Resume => w.(doing := Polling)
    case Cancel => w.(doing := Letting(false))
    case Abandon =>
      var let := w.(jobs := w.jobs[w.at := AbandonedJob(w.jobs[w.at])]);
      if w.jobs[w.at].state.stage.Running? then let.(doing := Blocked(w.doing.unwound, false))
      else let.(at := w.at + 1)
    case Recheck => w.(doing := Letting(w.doing.unwound))
    case Close =>
      w.(doing := Over(if w.doing.Polling? then Returned else if w.doing.unwound then Unwound else LetGo))
  }

  /** The call after `steps`, in order, those not possible when they come apart. */
  function After<T>(works: seq<Made<T>>, steps: seq<Step>): (w: World<T>)
    ensures w.works == works && |w.jobs| == |works|
  {
    if steps == [] then Init(works)
    else
      var w := After(works, steps[..|steps| - 1]);
      if Enabled(w, steps[|steps| - 1]) then Next(w, steps[|steps| - 1]) else w
  }

  // ----- What every run keeps -----

  /** A job by where it is: not taken yet; running; or ended, dropped unrun or run once and its result
      kept, taken or dropped. */
  ghost predicate JobSound<T>(job: Job<T>, work: Made<T>) {
    match job.state.stage
    case Waiting =>
      job.thread.Queued? && job.ran == 0 && job.unrun == 0 && job.taken == 0 && job.discarded == 0
    case Running =>
      job.thread.Going? && job.ran == 1 && job.unrun == 0 && job.taken == 0 && job.discarded == 0
    case Ended(done) =>
      && !job.thread.Going?
      && job.ran + job.unrun == 1 && job.taken + job.discarded <= job.ran
      && (job.unrun == 1 ==> job.thread.Queued? || job.thread.Idle?)
      && (job.ran == 1 ==> !job.thread.Queued?)
      && done == (if job.ran == 1 && job.taken + job.discarded == 0 then Some(work) else None)
  }

  /** How many results the caller took: those of its values, and the one whose panic unwinds it. */
  function Taken<T>(w: World<T>): nat {
    |w.values| + match w.doing
                 case Letting(unwound) => if unwound then 1 else 0
                 case Blocked(unwound, _) => if unwound then 1 else 0
                 case Over(finish) => if finish.Unwound? then 1 else 0
                 case _ => 0
  }

  /** A job by its place: behind the caller, done with; ahead of it, not let go; and its result taken
      exactly where the caller's first results are. */
  ghost predicate Placed<T>(job: Job<T>, i: nat, at: nat, taken: nat) {
    && (i < at ==> job.state.stage == Ended(None))
    && (i >= at ==> job.unrun == 0 && job.discarded == 0)
    && (job.taken == if i < taken then 1 else 0)
  }

  ghost predicate JobAt<T>(w: World<T>, i: nat) {
    i < |w.jobs| && i < |w.works| ==> JobSound(w.jobs[i], w.works[i]) && Placed(w.jobs[i], i, w.at, Taken(w))
  }

  /** A wake for a caller waiting on this job is left with it, or on its way. */
  ghost predicate WakeComes<T>(job: Job<T>) {
    if job.state.stage.Ended? then job.thread == Notifying(true) || job.thread == Waking(true)
    else job.state.waker
  }

  ghost predicate NoticeComes<T>(job: Job<T>) {
    job.state.stage.Running? || job.thread.Notifying?
  }

  /** The values of the first `count` results. */
  ghost predicate Values<T>(works: seq<Made<T>>, values: seq<T>) {
    |values| <= |works| && forall i | 0 <= i < |values| :: works[i] == Value(values[i])
  }

  ghost predicate CallerSound<T>(w: World<T>) {
    && |w.works| == |w.jobs| && w.at <= |w.jobs| && Taken(w) <= w.at
    && Values(w.works, w.values)
    && (Taken(w) > |w.values| ==> w.works[|w.values|].Panic?)
    && match w.doing
       case Polling => w.at == |w.values|
       case Parked(woken) => w.at == |w.values| && w.at < |w.jobs| && (woken || WakeComes(w.jobs[w.at]))
       case Letting(_) => true
       case Blocked(_, notified) => w.at < |w.jobs| && (notified || NoticeComes(w.jobs[w.at]))
       case Over(finish) => w.at == |w.jobs| && (finish.Returned? ==> |w.values| == |w.works|)
  }

  ghost predicate Inv<T>(w: World<T>) {
    CallerSound(w) && forall i: nat :: JobAt(w, i)
  }

  lemma InitHolds<T>(works: seq<Made<T>>)
    ensures Inv(Init(works))
  {
  }

  /** A step of one job's thread leaves the other jobs as they were. */
  lemma ThreadKeeps<T>(w: World<T>, i: nat, w': World<T>)
    requires Inv(w) && i < |w.jobs| == |w'.jobs| && w' == w.(jobs := w.jobs[i := w'.jobs[i]])
    requires JobSound(w'.jobs[i], w.works[i]) && Placed(w'.jobs[i], i, w.at, Taken(w))
    ensures forall j: nat :: JobAt(w', j)
  {
    forall j: nat ensures JobAt(w', j) {
      assert JobAt(w, j);
    }
  }

  lemma StartKeeps<T>(w: World<T>, i: nat)
    requires Inv(w) && Enabled(w, Start(i))
    ensures Inv(Next(w, Start(i)))
  {
    assert JobAt(w, i);
    ThreadKeeps(w, i, Next(w, Start(i)));
  }

  lemma EndKeeps<T>(w: World<T>, i: nat)
    requires Inv(w) && Enabled(w, End(i))
    ensures Inv(Next(w, End(i)))
  {
    assert JobAt(w, i);
    ThreadKeeps(w, i, Next(w, End(i)));
  }

  lemma NotifyKeeps<T>(w: World<T>, i: nat)
    requires Inv(w) && Enabled(w, Notify(i))
    ensures Inv(Next(w, Notify(i)))
  {
    assert JobAt(w, i);
    var w' := Next(w, Notify(i));
    ThreadKeeps(w, i, w.(jobs := w'.jobs));
    forall j: nat ensures JobAt(w', j) {
      assert JobAt(w.(jobs := w'.jobs), j);
    }
  }

  lemma WakeKeeps<T>(w: World<T>, i: nat)
    requires Inv(w) && Enabled(w, Wake(i))
    ensures Inv(Next(w, Wake(i)))
  {
    assert JobAt(w, i);
    var w' := Next(w, Wake(i));
    ThreadKeeps(w, i, w.(jobs := w'.jobs));
    forall j: nat ensures JobAt(w', j) {
      assert JobAt(w.(jobs := w'.jobs), j);
    }
  }

  lemma AskKeeps<T>(w: World<T>)
    requires Inv(w) && Enabled(w, Ask)
    ensures Inv(Next(w, Ask))
  {
    var w' := Next(w, Ask);
    assert JobAt(w, w.at);
    forall i: nat ensures JobAt(w', i) {
      assert JobAt(w, i);
    }
  }

  lemma AbandonKeeps<T>(w: World<T>)
    requires Inv(w) && Enabled(w, Abandon)
    ensures Inv(Next(w, Abandon))
  {
    var w' := Next(w, Abandon);
    assert JobAt(w, w.at);
    forall i: nat ensures JobAt(w', i) {
      assert JobAt(w, i);
    }
  }

  /** A step of the caller that touches no slot. */
  lemma CallerKeeps<T>(w: World<T>, step: Step)
    requires Inv(w) && Enabled(w, step)
    requires step.Resume? || step.Cancel? || step.Recheck? || step.Close?
    ensures Inv(Next(w, step))
  {
    forall i: nat ensures JobAt(Next(w, step), i) {
      assert JobAt(w, i);
    }
  }

  lemma StepKeeps<T>(w: World<T>, step: Step)
    requires Inv(w) && Enabled(w, step)
    ensures Inv(Next(w, step))
  {
    match step
    case Start(i) => StartKeeps(w, i);
    case End(i) => EndKeeps(w, i);
    case Notify(i) => NotifyKeeps(w, i);
    case Wake(i) => WakeKeeps(w, i);
    case Ask => AskKeeps(w);
    case Abandon => AbandonKeeps(w);
    case _ => CallerKeeps(w, step);
  }

  lemma {:induction false} EveryRunHolds<T>(works: seq<Made<T>>, steps: seq<Step>)
    ensures Inv(After(works, steps))
  {
    if steps == [] {
      InitHolds(works);
    } else {
      EveryRunHolds(works, steps[..|steps| - 1]);
      var w, step := After(works, steps[..|steps| - 1]), steps[|steps| - 1];
      if Enabled(w, step) {
        StepKeeps(w, step);
      }
    }
  }

  // ----- What a call promises -----

  /** Each job is run or dropped unrun at most once, and exactly once by the time its caller is over;
      a result is taken or dropped at most once, and, by then, each one made exactly once. */
  lemma EachJobOnce<T>(works: seq<Made<T>>, steps: seq<Step>, i: nat)
    requires i < |works|
    ensures var w := After(works, steps);
            var job := w.jobs[i];
            && job.ran + job.unrun <= 1 && job.taken + job.discarded <= job.ran
            && (w.doing.Over? ==> job.ran + job.unrun == 1 && job.taken + job.discarded == job.ran)
  {
    EveryRunHolds(works, steps);
    assert JobAt(After(works, steps), i);
  }

  /** No job waits or runs, and no slot holds what one made, once its caller is over. */
  lemma NoJobOutlivesItsCaller<T>(works: seq<Made<T>>, steps: seq<Step>, i: nat)
    requires i < |works| && After(works, steps).doing.Over?
    ensures After(works, steps).jobs[i].state.stage == Ended(None) && !After(works, steps).jobs[i].thread.Going?
  {
    EveryRunHolds(works, steps);
    assert JobAt(After(works, steps), i);
  }

  /** A caller that returns has every job's value, in the order of its work; one that a panic unwinds
      has those before the first job that panicked, all of which ran. */
  lemma ResultsComeInWorkOrder<T>(works: seq<Made<T>>, steps: seq<Step>)
    requires After(works, steps).doing.Over?
    ensures var w := After(works, steps);
            && Values(works, w.values)
            && (w.doing.finish.Returned? ==> |w.values| == |works|)
            && (w.doing.finish.Unwound? ==>
                  && |w.values| < |works| && works[|w.values|].Panic?
                  && forall i | 0 <= i <= |w.values| :: w.jobs[i].ran == 1)
  {
    EveryRunHolds(works, steps);
    var w := After(works, steps);
    forall i | 0 <= i < |w.jobs| ensures i < Taken(w) ==> w.jobs[i].ran == 1 {
      assert JobAt(w, i);
    }
  }

  /** A job that ended has a result for the caller that asks for it. */
  lemma NoResultIsMissing<T>(works: seq<Made<T>>, steps: seq<Step>)
    requires var w := After(works, steps); Enabled(w, Ask) && w.jobs[w.at].state.stage.Ended?
    ensures var w := After(works, steps); w.jobs[w.at].state.stage.done == Some(works[w.at])
  {
    EveryRunHolds(works, steps);
    assert JobAt(After(works, steps), After(works, steps).at);
  }

  /** No wake is lost: a caller that waits for a job that ended was woken, or the thread that ended it
      has yet to wake it; and a caller blocked on one was notified, or has yet to be. */
  lemma NoWakeIsLost<T>(works: seq<Made<T>>, steps: seq<Step>)
    ensures var w := After(works, steps);
            && (w.doing.Parked? && w.at < |w.jobs| && w.jobs[w.at].state.stage.Ended? ==>
                  w.doing.woken || w.jobs[w.at].thread in {Notifying(true), Waking(true)})
            && (w.doing.Blocked? && w.at < |w.jobs| && w.jobs[w.at].state.stage.Ended? ==>
                  w.doing.notified || w.jobs[w.at].thread.Notifying?)
  {
    EveryRunHolds(works, steps);
  }

  // ----- Every call ends -----

  /** Whether the step is one its thread or caller takes by itself: the caller is polled again or
      looks again only once woken or notified, and nothing drops it. */
  predicate Due<T>(w: World<T>, step: Step) {
    && Enabled(w, step)
    && !step.Cancel?
    && (step.Resume? ==> w.doing.Parked? && w.doing.woken)
    && (step.Recheck? ==> w.doing.Blocked? && w.doing.notified)
  }

  /** The step a call that is not over takes next, by itself. */
  function DueStep<T>(w: World<T>): (step: Step)
    requires Inv(w) && !w.doing.Over?
    ensures Due(w, step)
  {
    assert JobAt(w, w.at);
    match w.doing
    case Polling => if w.at < |w.jobs| then Ask else Close
    case Letting(_) => if w.at < |w.jobs| then Abandon else Close
    case Parked(woken) => if woken then Resume else DueOf(w.jobs[w.at], w.at)
    case Blocked(_, notified) => if notified then Recheck else DueOf(w.jobs[w.at], w.at)
  }

  /** The step of a job's thread. */
  function DueOf<T>(job: Job<T>, i: nat): Step
    requires !job.thread.Idle?
  {
    match job.thread
    case Queued => Start(i)
    case Going => End(i)
    case Notifying(_) => Notify(i)
    case Waking(_) => Wake(i)
  }

  function Rank(thread: Thread): nat {
    match thread
    case Queued => 16
    case Going => 12
    case Notifying(_) => 8
    case Waking(_) => 4
    case Idle => 0
  }

  function Ranks<T>(jobs: seq<Job<T>>): nat {
    if jobs == [] then 0 else Ranks(jobs[..|jobs| - 1]) + Rank(jobs[|jobs| - 1].thread)
  }

  lemma {:induction false} RanksOnce<T>(jobs: seq<Job<T>>, i: nat, job: Job<T>)
    requires i < |jobs|
    ensures Ranks(jobs[i := job]) + Rank(jobs[i].thread) == Ranks(jobs) + Rank(job.thread)
  {
    var init := jobs[..|jobs| - 1];
    if i == |jobs| - 1 {
      assert jobs[i := job][..|jobs| - 1] == init;
    } else {
      assert jobs[i := job][..|jobs| - 1] == init[i := job];
      RanksOnce(init, i, job);
    }
  }

  /** How many steps a call may still take by itself. */
  function Left<T>(w: World<T>): nat {
    Ranks(w.jobs) +
    match w.doing
    case Over(_) => 0
    case Parked(woken) => 4 * Less(|w.jobs|, w.at) + if woken then 3 else 1
    case Blocked(_, notified) => 4 * Less(|w.jobs|, w.at) + if notified then 3 else 1
    case _ => 4 * Less(|w.jobs|, w.at) + 2
  }

  lemma ThreadStepsRunOut<T>(w: World<T>, step: Step)
    requires Inv(w) && Due(w, step) && (step.Start? || step.End? || step.Notify? || step.Wake?)
    ensures Left(Next(w, step)) < Left(w)
  {
    RanksOnce(w.jobs, step.i, Next(w, step).jobs[step.i]);
  }

  lemma DueStepsRunOut<T>(w: World<T>, step: Step)
    requires Inv(w) && Due(w, step)
    ensures Left(Next(w, step)) < Left(w)
  {
    if step.Start? || step.End? || step.Notify? || step.Wake? {
      ThreadStepsRunOut(w, step);
    } else if step.Ask? || step.Abandon? {
      assert JobAt(w, w.at);
      RanksOnce(w.jobs, w.at, Next(w, step).jobs[w.at]);
    }
  }

  /** Whether `steps` are a run from `w` of steps taken by themselves alone. */
  ghost predicate DueRun<T>(w: World<T>, steps: seq<Step>)
    requires Inv(w)
    decreases |steps|
  {
    steps != [] ==> Due(w, steps[0]) && (StepKeeps(w, steps[0]); DueRun(Next(w, steps[0]), steps[1..]))
  }

  /** Where such a run ends. */
  ghost function DueEnd<T>(w: World<T>, steps: seq<Step>): (end: World<T>)
    requires Inv(w) && DueRun(w, steps)
    ensures Inv(end)
    decreases |steps|
  {
    if steps == [] then w else StepKeeps(w, steps[0]); DueEnd(Next(w, steps[0]), steps[1..])
  }

  /** No such run goes on for ever, whatever the order of its steps. */
  lemma {:induction false} NoRunGoesOnForEver<T>(w: World<T>, steps: seq<Step>)
    requires Inv(w) && DueRun(w, steps)
    ensures |steps| + Left(DueEnd(w, steps)) <= Left(w)
    decreases |steps|
  {
    if steps != [] {
      DueStepsRunOut(w, steps[0]);
      StepKeeps(w, steps[0]);
      NoRunGoesOnForEver(Next(w, steps[0]), steps[1..]);
    }
  }

  /** From wherever a run is, such steps alone end the call: it is never stuck. */
  lemma {:induction false} EveryCallEnds<T>(w: World<T>) returns (steps: seq<Step>)
    requires Inv(w)
    ensures DueRun(w, steps) && DueEnd(w, steps).doing.Over?
    decreases Left(w)
  {
    if w.doing.Over? {
      steps := [];
    } else {
      var step := DueStep(w);
      DueStepsRunOut(w, step);
      StepKeeps(w, step);
      var rest := EveryCallEnds(Next(w, step));
      steps := [step] + rest;
      assert steps[1..] == rest;
    }
  }
}
