/** Waiting for a part of a lent reservation: one taker is told of each part that goes back, and exactly when
    that leaves none asleep that could be served. */
module Taking {
  /** A lending: the bytes lent, those no part holds and those parts do, and whether it closed; whether a notice
      is kept that nobody was there for; and what each taker asks, by whether it tried in vain and is yet to
      listen, listens, in the order they began to, or was told and is yet to try. */
  datatype World = World(
    lent: nat, free: nat, out: nat, closed: bool, notice: bool, looking: seq<nat>, waiting: seq<nat>, told: seq<nat>)

  datatype Step =
    | Asking(bytes: nat)
    | Listening(i: nat)
    | Trying(i: nat)
    | TryTaking(bytes: nat)     // a request that does not wait
    | Returning(bytes: nat)     // a part, or some of it, goes back
    | Closing
    | LeavingLooking(i: nat)    // a taker gives up
    | LeavingWaiting(i: nat)
    | LeavingTold(i: nat)

  function Without(all: seq<nat>, i: nat): seq<nat>
    requires i < |all|
  {
    all[..i] + all[i + 1..]
  }

  /** One that listens is told, the first to have begun; a notice is kept where none does. */
  function Notified(w: World): World {
    if w.waiting == [] then w.(notice := true)
    else w.(waiting := w.waiting[1..], told := w.told + [w.waiting[0]])
  }

  function Taken(w: World, bytes: nat): World
    requires bytes <= w.free
  {
    w.(free := w.free - bytes, out := w.out + bytes)
  }

  function Next(w: World, step: Step): World {
    match step
    case Asking(bytes) =>
      if bytes > w.lent then w
      else if bytes <= w.free then Taken(w, bytes)
      else w.(looking := w.looking + [bytes])
    case Listening(i) =>
      if i >= |w.looking| then w
      else
        var left := w.(looking := Without(w.looking, i));
        if w.notice then left.(notice := false, told := w.told + [w.looking[i]])
        else left.(waiting := w.waiting + [w.looking[i]])
    case Trying(i) =>
      if i >= |w.told| then w
      else
        var bytes, left := w.told[i], w.(told := Without(w.told, i));
        if bytes <= w.free then Taken(left, bytes) else left.(looking := w.looking + [bytes])
    case TryTaking(bytes) => if bytes <= w.free then Taken(w, bytes) else w
    case Returning(bytes) =>
      if bytes > w.out then w
      else Notified(w.(out := w.out - bytes, free := if w.closed then w.free else w.free + bytes))
    case Closing => w.(closed := true, free := 0)
    case LeavingLooking(i) => if i >= |w.looking| then w else w.(looking := Without(w.looking, i))
    case LeavingWaiting(i) => if i >= |w.waiting| then w else w.(waiting := Without(w.waiting, i))
    case LeavingTold(i) => if i >= |w.told| then w else Notified(w.(told := Without(w.told, i)))
  }

  function After(lent: nat, steps: seq<Step>): World {
    if steps == [] then World(lent, lent, 0, false, false, [], [], [])
    else Next(After(lent, steps[..|steps| - 1]), steps[|steps| - 1])
  }

  /** Whether a taker that could be served sleeps on, every other having done all it could. */
  ghost predicate Stuck(w: World) {
    w.looking == [] && w.told == [] && exists bytes :: bytes in w.waiting && bytes <= w.free
  }

  // ----- When none does -----

  ghost predicate Sound(w: World) {
    w.free + w.out <= w.lent && (w.notice ==> w.waiting == [])
  }

  /** Whether, where a taker could be served, one was told or will be. */
  ghost predicate Calm(w: World) {
    forall bytes | bytes in w.looking || bytes in w.waiting :: bytes <= w.free ==> w.told != [] || w.notice
  }

  lemma CalmIsNotStuck(w: World)
    requires Sound(w) && Calm(w)
    ensures !Stuck(w)
  {
  }

  lemma WithoutHas(all: seq<nat>, i: nat, bytes: nat)
    requires i < |all| && bytes in Without(all, i)
    ensures bytes in all
  {
  }

  /** Whether no taker is asking beside another. */
  predicate Lone(w: World) { |w.looking| + |w.waiting| + |w.told| <= 1 }

  /** Whether every taker asks for the same, more than half of what is lent. */
  ghost predicate Alike(w: World, bytes: nat) {
    w.lent < 2 * bytes && forall other | other in w.looking || other in w.waiting || other in w.told :: other == bytes
  }

  lemma NotifiedKeeps(w: World)
    requires Sound(w)
    ensures Calm(Notified(w))
  {
    assert w.waiting != [] ==> |Notified(w).told| == |w.told| + 1;
  }

  lemma SoundStays(w: World, step: Step)
    requires Sound(w)
    ensures Sound(Next(w, step)) && Next(w, step).lent == w.lent
  {
  }

  /** One that tries, and leaves no other behind that could be served. */
  lemma TryingKeepsCalm(w: World, i: nat)
    requires Sound(w) && Calm(w) && i < |w.told| && (Lone(w) || exists bytes :: Alike(w, bytes))
    ensures Calm(Next(w, Trying(i)))
  {
    var after := Next(w, Trying(i));
    assert w.told[i] in w.told;
    forall bytes | (bytes in after.looking || bytes in after.waiting) && bytes <= after.free
      ensures after.told != [] || after.notice {
      if Lone(w) {
        assert w.looking == [] && w.waiting == [];
      } else {
        var each :| Alike(w, each);
        assert bytes == each == w.told[i];
      }
    }
  }

  lemma NextKeepsCalm(w: World, step: Step)
    requires Sound(w) && Calm(w) && (Lone(w) || exists bytes :: Alike(w, bytes))
    ensures Calm(Next(w, step))
  {
    var after := Next(w, step);
    match step
    case Trying(i) =>
      if i < |w.told| {
        TryingKeepsCalm(w, i);
      }
    case Returning(bytes) =>
      if bytes <= w.out {
        NotifiedKeeps(w.(out := w.out - bytes, free := if w.closed then w.free else w.free + bytes));
      }
    case LeavingTold(i) =>
      if i < |w.told| {
        NotifiedKeeps(w.(told := Without(w.told, i)));
      }
    case Listening(i) => ListeningKeepsCalm(w, i);
    case LeavingLooking(i) => FewerStayCalm(w, after);
    case LeavingWaiting(i) => FewerStayCalm(w, after);
    case Asking(_) =>
    case TryTaking(_) =>
    case Closing =>
  }

  lemma FewerStayCalm(w: World, after: World)
    requires Calm(w) && after.free == w.free && after.told == w.told && after.notice == w.notice
    requires after.looking == w.looking || exists i: nat :: i < |w.looking| && after.looking == Without(w.looking, i)
    requires after.waiting == w.waiting || exists i: nat :: i < |w.waiting| && after.waiting == Without(w.waiting, i)
    ensures Calm(after)
  {
    forall bytes | (bytes in after.looking || bytes in after.waiting) && bytes <= after.free
      ensures after.told != [] || after.notice {
      assert bytes in w.looking || bytes in w.waiting;
    }
  }

  lemma ListeningKeepsCalm(w: World, i: nat)
    requires Sound(w) && Calm(w)
    ensures Calm(Next(w, Listening(i)))
  {
    if i < |w.looking| {
      var after, asked := Next(w, Listening(i)), w.looking[i];
      assert asked in w.looking;
      assert w.notice ==> |after.told| == |w.told| + 1;
      forall bytes | (bytes in after.looking || bytes in after.waiting) && bytes <= after.free
        ensures after.told != [] || after.notice {
        if bytes in after.looking {
          WithoutHas(w.looking, i, bytes);
        }
      }
    }
  }

  /** Where one taker asks at a time, none that could be served ever sleeps on. */
  lemma {:induction false} LoneTakersAreServed(lent: nat, steps: seq<Step>)
    requires forall k | 0 <= k <= |steps| :: Lone(After(lent, steps[..k]))
    ensures Sound(After(lent, steps)) && Calm(After(lent, steps)) && !Stuck(After(lent, steps))
  {
    if steps != [] {
      var init, last := steps[..|steps| - 1], steps[|steps| - 1];
      forall k | 0 <= k <= |init| ensures Lone(After(lent, init[..k])) {
        assert init[..k] == steps[..k];
      }
      LoneTakersAreServed(lent, init);
      assert init == init[..|init|];
      SoundStays(After(lent, init), last);
      NextKeepsCalm(After(lent, init), last);
    }
    CalmIsNotStuck(After(lent, steps));
  }

  // ----- And exactly when -----

  /** Whether a run's takers ask only for some sizes. */
  ghost predicate AskOnly(steps: seq<Step>, sizes: set<nat>) {
    forall i | 0 <= i < |steps| && steps[i].Asking? :: steps[i].bytes in sizes
  }

  /** Whether a lending of so many bytes can be asked for a size by one that waits. */
  predicate Waits(lent: nat, bytes: nat) { 0 < bytes <= lent }

  /** Whether no two takers that wait may be served at once, or one and not the other. */
  ghost predicate OneAtATime(lent: nat, sizes: set<nat>) {
    forall x, y | x in sizes && y in sizes && Waits(lent, x) && Waits(lent, y) :: x == y && lent < x + y
  }

  ghost predicate AllOf(w: World, sizes: set<nat>) {
    forall bytes | bytes in w.looking || bytes in w.waiting || bytes in w.told :: bytes in sizes && Waits(w.lent, bytes)
  }

  lemma AskedKeeps(w: World, step: Step, sizes: set<nat>)
    requires AllOf(w, sizes) && (step.Asking? ==> step.bytes in sizes)
    ensures AllOf(Next(w, step), sizes)
  {
  }

  lemma AllOfAreAlike(w: World, sizes: set<nat>)
    requires AllOf(w, sizes) && OneAtATime(w.lent, sizes)
    ensures Lone(w) || exists bytes :: Alike(w, bytes)
  {
    if !Lone(w) {
      var all := w.looking + w.waiting + w.told;
      var each := all[0];
      assert each in all;
      assert Alike(w, each);
    }
  }

  lemma {:induction false} ServedOneAtATime(lent: nat, steps: seq<Step>, sizes: set<nat>)
    requires AskOnly(steps, sizes) && OneAtATime(lent, sizes)
    ensures var w := After(lent, steps); w.lent == lent && Sound(w) && Calm(w) && AllOf(w, sizes) && !Stuck(w)
  {
    if steps != [] {
      var init, last := steps[..|steps| - 1], steps[|steps| - 1];
      ServedOneAtATime(lent, init, sizes);
      var w := After(lent, init);
      AllOfAreAlike(w, sizes);
      SoundStays(w, last);
      NextKeepsCalm(w, last);
      AskedKeeps(w, last, sizes);
    }
    CalmIsNotStuck(After(lent, steps));
  }

  lemma Then(lent: nat, steps: seq<Step>, step: Step, sizes: set<nat>) returns (more: seq<Step>)
    requires AskOnly(steps, sizes) && (step.Asking? ==> step.bytes in sizes)
    ensures AskOnly(more, sizes) && After(lent, more) == Next(After(lent, steps), step)
  {
    more := steps + [step];
    assert more[..|more| - 1] == steps;
  }

  /** A run in which one taker waits behind another, every byte lent. */
  lemma TwoWait(lent: nat, x: nat, y: nat, sizes: set<nat>) returns (steps: seq<Step>)
    requires x in sizes && y in sizes && Waits(lent, x) && Waits(lent, y)
    ensures AskOnly(steps, sizes) && After(lent, steps) == World(lent, 0, lent, false, false, [], [x, y], [])
  {
    steps := Then(lent, [], TryTaking(lent), sizes);
    steps := OneMoreWaits(lent, steps, x, [], sizes);
    steps := OneMoreWaits(lent, steps, y, [x], sizes);
  }

  lemma OneMoreWaits(lent: nat, steps: seq<Step>, x: nat, waiting: seq<nat>, sizes: set<nat>)
    returns (more: seq<Step>)
    requires AskOnly(steps, sizes) && x in sizes && Waits(lent, x)
    requires After(lent, steps) == World(lent, 0, lent, false, false, [], waiting, [])
    ensures AskOnly(more, sizes) && After(lent, more) == World(lent, 0, lent, false, false, [], waiting + [x], [])
  {
    more := Then(lent, steps, Asking(x), sizes);
    more := Then(lent, more, Listening(0), sizes);
  }

  /** Both fit at once, and only the first is told. */
  lemma BothFit(lent: nat, x: nat, y: nat, sizes: set<nat>) returns (steps: seq<Step>)
    requires x in sizes && y in sizes && Waits(lent, x) && Waits(lent, y) && x + y <= lent
    ensures AskOnly(steps, sizes) && Stuck(After(lent, steps))
  {
    steps := TwoWait(lent, x, y, sizes);
    steps := Then(lent, steps, Returning(lent), sizes);
    assert After(lent, steps) == World(lent, lent, 0, false, false, [], [y], [x]);
    steps := Then(lent, steps, Trying(0), sizes);
    assert After(lent, steps) == World(lent, lent - x, x, false, false, [], [y], []);
    assert y in [y];
  }

  /** The first asks for more than the second, and only the first is told. */
  lemma OnlyTheSecondFits(lent: nat, x: nat, y: nat, sizes: set<nat>) returns (steps: seq<Step>)
    requires x in sizes && y in sizes && Waits(lent, x) && Waits(lent, y) && y < x
    ensures AskOnly(steps, sizes) && Stuck(After(lent, steps))
  {
    steps := TwoWait(lent, x, y, sizes);
    steps := Then(lent, steps, Returning(y), sizes);
    assert After(lent, steps) == World(lent, y, lent - y, false, false, [], [y], [x]);
    steps := Then(lent, steps, Trying(0), sizes);
    assert After(lent, steps) == World(lent, y, lent - y, false, false, [x], [y], []);
    steps := Then(lent, steps, Listening(0), sizes);
    assert After(lent, steps) == World(lent, y, lent - y, false, false, [], [y, x], []);
    assert y in [y, x];
  }

  /** Over every run of takers that ask for some sizes, none that could be served sleeps on, if and only if
      those that wait all ask for the same, more than half of what is lent. */
  lemma NoneSleepsOnExactly(lent: nat, sizes: set<nat>)
    ensures (forall steps | AskOnly(steps, sizes) :: !Stuck(After(lent, steps))) <==> OneAtATime(lent, sizes)
  {
    if OneAtATime(lent, sizes) {
      forall steps | AskOnly(steps, sizes) ensures !Stuck(After(lent, steps)) {
        ServedOneAtATime(lent, steps, sizes);
      }
    } else {
      var x, y :| x in sizes && y in sizes && Waits(lent, x) && Waits(lent, y) && !(x == y && lent < x + y);
      var steps;
      if x + y <= lent {
        steps := BothFit(lent, x, y, sizes);
      } else if y < x {
        steps := OnlyTheSecondFits(lent, x, y, sizes);
      } else {
        steps := OnlyTheSecondFits(lent, y, x, sizes);
      }
    }
  }

  // ----- Once it closes -----

  ghost predicate Closed(w: World) { w.closed && w.free == 0 }

  /** How many takers ask, and for how much. */
  function Takers(w: World): multiset<nat> { multiset(w.looking) + multiset(w.waiting) + multiset(w.told) }

  predicate Leaves(step: Step) { step.LeavingLooking? || step.LeavingWaiting? || step.LeavingTold? }

  lemma WithoutOne(all: seq<nat>, i: nat)
    requires i < |all|
    ensures multiset(all) == multiset(Without(all, i)) + multiset{all[i]}
  {
    assert all == all[..i] + [all[i]] + all[i + 1..];
  }

  lemma NotifiedTakers(w: World)
    ensures Takers(Notified(w)) == Takers(w)
  {
    if w.waiting != [] {
      assert w.waiting == [w.waiting[0]] + w.waiting[1..];
    }
  }

  lemma ListeningTakers(w: World, i: nat)
    ensures Takers(Next(w, Listening(i))) == Takers(w)
  {
    if i < |w.looking| {
      WithoutOne(w.looking, i);
    }
  }

  lemma TryingTakers(w: World, i: nat, bytes: nat)
    requires w.free < bytes
    ensures Takers(w)[bytes] <= Takers(Next(w, Trying(i)))[bytes]
  {
    if i < |w.told| {
      WithoutOne(w.told, i);
    }
  }

  lemma ReturningTakers(w: World, part: nat)
    ensures Takers(Next(w, Returning(part))) == Takers(w)
  {
    if part <= w.out {
      NotifiedTakers(w.(out := w.out - part, free := if w.closed then w.free else w.free + part));
    }
  }

  lemma ClosedStays(w: World, step: Step)
    requires Closed(w)
    ensures Closed(Next(w, step))
  {
  }

  lemma ClosedStep(w: World, step: Step, bytes: nat)
    requires Closed(w) && !Leaves(step) && bytes > 0
    ensures Takers(w)[bytes] <= Takers(Next(w, step))[bytes]
  {
    if step.Listening? {
      ListeningTakers(w, step.i);
    } else if step.Trying? {
      TryingTakers(w, step.i, bytes);
    } else if step.Returning? {
      ReturningTakers(w, step.bytes);
    }
  }

  lemma ClosedOn(lent: nat, steps: seq<Step>, step: Step, more: seq<Step>, bytes: nat)
    requires Closed(After(lent, steps)) && !Leaves(step) && bytes > 0 && more == steps + [step]
    ensures Closed(After(lent, more)) && Takers(After(lent, steps))[bytes] <= Takers(After(lent, more))[bytes]
  {
    assert more[..|more| - 1] == steps;
    var w := After(lent, steps);
    ClosedStays(w, step);
    ClosedStep(w, step, bytes);
  }

  /** Once a lending closes it is closed and lends nothing, however a run goes on. */
  lemma {:induction false} ClosingIsForGood(lent: nat, steps: seq<Step>, n: nat)
    requires n < |steps| && steps[n] == Closing
    ensures Closed(After(lent, steps))
  {
    if n < |steps| - 1 {
      var init := steps[..|steps| - 1];
      ClosingIsForGood(lent, init, n);
      ClosedStays(After(lent, init), steps[|init|]);
    }
  }

  /** Once a lending closes, no taker of a byte is ever served: it waits for as long as it does not give up,
      whatever goes back. */
  lemma {:induction false} ClosedServesNone(lent: nat, steps: seq<Step>, more: seq<Step>, bytes: nat)
    requires Closed(After(lent, steps)) && bytes > 0 && forall i | 0 <= i < |more| :: !Leaves(more[i])
    ensures Closed(After(lent, steps + more))
    ensures Takers(After(lent, steps))[bytes] <= Takers(After(lent, steps + more))[bytes]
  {
    if more == [] {
      assert steps + more == steps;
    } else {
      var init, last := more[..|more| - 1], more[|more| - 1];
      ClosedServesNone(lent, steps, init, bytes);
      ClosedOn(lent, steps + init, last, steps + more, bytes);
    }
  }
}
