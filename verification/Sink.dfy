/** A partition's channel: the read's end, which sends events and answers barriers, and the engine's,
    which asks for checkpoints and for the read to stop. */
module Sink {
  import opened Wrappers
  import opened Common

  /** An event a read sends: a push, or a checkpoint, which may answer a barrier. */
  datatype Event = Push | Checkpoint(answers: Option<nat>)

  datatype Refusal = Unrequested | Stopped | Unadmitted

  datatype Request = Asked(barrier: nat) | Stop

  /** The barrier an event answers, or 0. */
  function Answers(event: Event): nat {
    if event.Checkpoint? && event.answers.Some? then event.answers.value else 0
  }

  /** The newest barrier a checkpoint among events answers. */
  function Newest(events: seq<Event>): nat {
    if events == [] then 0 else Max(Newest(events[..|events| - 1]), Answers(events[|events| - 1]))
  }

  /** What becomes of a send once its event may be sent: admitted and queued; refused admission;
      stopped, or its receiver gone; or cancelled by whoever sends. */
  datatype Fate = Queues | Refused | Ends | Cancelled

  // ----- Every interleaving -----

  /** A channel, and the send under way, if any: one that was found to answer no barrier unasked. */
  datatype World = World(
    requested: nat, stopped: bool, dropped: bool, answered: nat, queued: seq<Event>, forwarded: seq<nat>,
    sending: Option<Event>)

  datatype Step =
    | Requesting(barrier: nat)
    | Stopping
    | Dropping                // the engine drops its end, and asks nothing more
    | Beginning(event: Event)
    | Ending(fate: Fate)
    | Forwarding

  function Last(forwarded: seq<nat>): nat { if forwarded == [] then 0 else forwarded[|forwarded| - 1] }

  function Next(w: World, step: Step): World {
    match step
    case Requesting(barrier) => if w.dropped then w else w.(requested := Max(w.requested, barrier))
    case Stopping => if w.dropped then w else w.(stopped := true)
    case Dropping => w.(dropped := true)
    case Beginning(event) =>
      if w.sending.Some? || (event.Checkpoint? && event.answers.Some? && event.answers.value > w.requested) then w
      else w.(sending := Some(event))
    case Ending(fate) =>
      if w.sending.None? then w
      else if w.stopped || w.dropped || !fate.Queues? then w.(sending := None)
      else
        var event := w.sending.value;
        w.(sending := None, queued := w.queued + [event],
           answered := if event.Checkpoint? && event.answers.Some? then Max(w.answered, event.answers.value)
                       else w.answered)
    case Forwarding =>
      if w.stopped || w.requested <= Max(Last(w.forwarded), w.answered) then w
      else w.(forwarded := w.forwarded + [w.requested])
  }

  function After(steps: seq<Step>): World {
    if steps == [] then World(0, false, false, 0, [], [], None)
    else Next(After(steps[..|steps| - 1]), steps[|steps| - 1])
  }

  ghost predicate Inv(w: World) {
    && w.answered == Newest(w.queued) && w.answered <= w.requested
    && (w.sending.Some? && w.sending.value.Checkpoint? && w.sending.value.answers.Some? ==>
          w.sending.value.answers.value <= w.requested)
    && Rises(w.forwarded) && Last(w.forwarded) <= w.requested
  }

  ghost predicate Rises(barriers: seq<nat>) {
    forall i, j | 0 <= i < j < |barriers| :: barriers[i] < barriers[j]
  }

  lemma RisesOn(barriers: seq<nat>, barrier: nat)
    requires Rises(barriers) && Last(barriers) < barrier
    ensures Rises(barriers + [barrier]) && Last(barriers + [barrier]) == barrier
  {
    forall i | 0 <= i < |barriers| ensures barriers[i] <= Last(barriers) {
    }
  }

  lemma NextKeeps(w: World, step: Step)
    requires Inv(w)
    ensures Inv(Next(w, step))
  {
    if step.Ending? && w.sending.Some? {
      assert (w.queued + [w.sending.value])[..|w.queued|] == w.queued;
    } else if step.Forwarding? && Next(w, step) != w {
      RisesOn(w.forwarded, w.requested);
    }
  }

  /** In every interleaving of requests, sends, refusals, cancellations and stops, the answered barrier
      is the newest a queued checkpoint answered, and never passes the requested one; and what is
      forwarded strictly increases. */
  lemma {:induction false} EveryInterleaving(steps: seq<Step>)
    ensures var w := After(steps);
            && Inv(w)
            && w.answered == Newest(w.queued) <= w.requested
            && forall i, j | 0 <= i < j < |w.forwarded| :: w.forwarded[i] < w.forwarded[j]
  {
    if steps != [] {
      EveryInterleaving(steps[..|steps| - 1]);
      NextKeeps(After(steps[..|steps| - 1]), steps[|steps| - 1]);
    }
  }

  // ----- What was asked and sent, told from the steps alone -----

  /** Whether the engine's end was there, and asked for no stop. */
  predicate Goes(steps: seq<Step>) { Stopping !in steps && Dropping !in steps }

  /** The newest barrier the engine asked for before it dropped its end. */
  function AskedFor(steps: seq<Step>): nat {
    if steps == [] then 0
    else
      var init, last := steps[..|steps| - 1], steps[|steps| - 1];
      if last.Requesting? && Dropping !in init then Max(AskedFor(init), last.barrier) else AskedFor(init)
  }

  /** The event begun since the last send ended, the first there was that answers no barrier unasked. */
  function Begun(steps: seq<Step>): Option<Event> {
    if steps == [] || steps[|steps| - 1].Ending? then None
    else
      var init, last := steps[..|steps| - 1], steps[|steps| - 1];
      if Begun(init).None? && last.Beginning? && Answers(last.event) <= AskedFor(init) then Some(last.event)
      else Begun(init)
  }

  /** The events whose sends were let through before a stop, in the order they ended. */
  function Sent(steps: seq<Step>): seq<Event> {
    if steps == [] then []
    else
      var init, last := steps[..|steps| - 1], steps[|steps| - 1];
      Sent(init) + if last == Ending(Queues) && Begun(init).Some? && Goes(init) then [Begun(init).value] else []
  }

  lemma InWhole(steps: seq<Step>, step: Step)
    requires steps != []
    ensures step in steps <==> step in steps[..|steps| - 1] || step == steps[|steps| - 1]
  {
    assert steps == steps[..|steps| - 1] + [steps[|steps| - 1]];
  }

  lemma {:induction false} StopsAreTold(steps: seq<Step>)
    ensures After(steps).dropped <==> Dropping in steps
    ensures After(steps).stopped || After(steps).dropped <==> !Goes(steps)
  {
    if steps != [] {
      StopsAreTold(steps[..|steps| - 1]);
      InWhole(steps, Stopping);
      InWhole(steps, Dropping);
    }
  }

  lemma {:induction false} RequestsAreTold(steps: seq<Step>)
    ensures After(steps).requested == AskedFor(steps)
  {
    if steps != [] {
      RequestsAreTold(steps[..|steps| - 1]);
      StopsAreTold(steps[..|steps| - 1]);
    }
  }

  lemma {:induction false} SendsAreTold(steps: seq<Step>)
    ensures After(steps).sending == Begun(steps)
  {
    if steps != [] {
      SendsAreTold(steps[..|steps| - 1]);
      RequestsAreTold(steps[..|steps| - 1]);
    }
  }

  lemma {:induction false} QueuesAreTold(steps: seq<Step>)
    ensures After(steps).queued == Sent(steps)
  {
    if steps != [] {
      var init := steps[..|steps| - 1];
      QueuesAreTold(init);
      SendsAreTold(init);
      StopsAreTold(init);
    }
  }

  /** What is queued is exactly the events whose sends were let through, in that order, and the barrier answered
      is the newest of theirs. */
  lemma QueuedIsSent(steps: seq<Step>)
    ensures After(steps).queued == Sent(steps) && After(steps).answered == Newest(Sent(steps))
    ensures After(steps).sending == Begun(steps) && After(steps).requested == AskedFor(steps)
  {
    QueuesAreTold(steps);
    SendsAreTold(steps);
    RequestsAreTold(steps);
    EveryInterleaving(steps);
  }

  /** A barrier asked for stays pending until a queued checkpoint answers it, or a later one, whatever sends of
      others came to meanwhile. */
  lemma PendingUntilAnswered(steps: seq<Step>, more: seq<Step>)
    requires After(steps).requested > After(steps).answered
    requires forall i | |After(steps).queued| <= i < |After(steps + more).queued| ::
               var event := After(steps + more).queued[i];
               !(event.Checkpoint? && event.answers.Some? && event.answers.value >= After(steps).requested)
    ensures After(steps + more).requested > After(steps + more).answered
    ensures After(steps + more).answered < After(steps).requested
  {
    EveryInterleaving(steps);
    EveryInterleaving(steps + more);
    RunsGoOn(steps, more);
    var before, after := After(steps), After(steps + more);
    NewestOf(before.queued, after.queued, before.requested - 1);
  }

  lemma NextGoesOn(w: World, step: Step)
    ensures w.queued <= Next(w, step).queued && w.requested <= Next(w, step).requested
  {
  }

  lemma {:induction false} RunsGoOn(steps: seq<Step>, more: seq<Step>)
    ensures After(steps).queued <= After(steps + more).queued && After(steps).requested <= After(steps + more).requested
  {
    if more == [] {
      assert steps + more == steps;
    } else {
      assert (steps + more)[..|steps + more| - 1] == steps + more[..|more| - 1];
      RunsGoOn(steps, more[..|more| - 1]);
      NextGoesOn(After(steps + more[..|more| - 1]), more[|more| - 1]);
    }
  }

  lemma {:induction false} NewestOf(before: seq<Event>, after: seq<Event>, bound: nat)
    requires before <= after && Newest(before) <= bound
    requires forall event | event in after[|before|..] ::
               !(event.Checkpoint? && event.answers.Some? && event.answers.value > bound)
    ensures Newest(after) <= bound
  {
    if |before| == |after| {
      assert before == after;
    } else {
      var init := after[..|after| - 1];
      assert after[|before|..] == init[|before|..] + [after[|after| - 1]];
      NewestOf(before, init, bound);
    }
  }

  // ----- The channel's two ends -----

  class PartitionSink {
    /** The newest barrier the engine asked for. */
    var requested: nat
    var stopped: bool
    /** Whether the engine dropped its end. */
    var dropped: bool
    /** The newest barrier a checkpoint answered. */
    var answered: nat
    /** Every event queued, in order. */
    var queued: seq<Event>
    /** The barriers forwarded to a read that runs elsewhere, in order. */
    var forwarded: seq<nat>
    /** The event being sent. */
    var sending: Option<Event>

    ghost function Now(): World
      reads this
    {
      World(requested, stopped, dropped, answered, queued, forwarded, sending)
    }

    constructor ()
      ensures Now() == After([])
    {
      requested, stopped, dropped, answered, queued, forwarded, sending := 0, false, false, 0, [], [], None;
    }

    /** Asks the partition to checkpoint; barriers only move forward. */
    method RequestCheckpoint(barrier: nat)
      requires !dropped
      modifies this
      ensures Now() == Next(old(Now()), Requesting(barrier))
    {
      requested := Max(requested, barrier);
    }

    method AskToStop()
      requires !dropped
      modifies this
      ensures Now() == Next(old(Now()), Stopping)
    {
      stopped := true;
    }

    method DropFeed()
      modifies this
      ensures Now() == Next(old(Now()), Dropping)
    {
      dropped := true;
    }

    /** Begins to send an event: a checkpoint answers no barrier the engine never asked for. */
    method Begin(event: Event) returns (begun: Result<(), Refusal>)
      requires sending.None?
      modifies this
      ensures Now() == Next(old(Now()), Beginning(event))
      ensures begun.Err? <==> event.Checkpoint? && event.answers.Some? && event.answers.value > requested
    {
      if event.Checkpoint? && event.answers.Some? {
        if event.answers.value > requested {
          return Err(Unrequested);
        }
      }
      sending := Some(event);
      return Ok(());
    }

    /** Ends the send, however the barriers moved meanwhile: its event is queued, and answers its
        barrier, or neither. */
    method End(fate: Fate) returns (sent: Result<(), Refusal>)
      requires sending.Some?
      modifies this
      ensures Now() == Next(old(Now()), Ending(fate))
      ensures sent.Ok? <==> fate.Queues? && !stopped && !dropped
      ensures sent.Ok? ==>
                && queued == old(queued) + [old(sending).value]
                && answered == Max(old(answered), Answers(old(sending).value))
      ensures sent.Err? ==> queued == old(queued) && answered == old(answered)
      ensures sent == Err(Unadmitted) <==> fate.Refused? && !stopped
    {
      var event := sending.value;
      sending := None;
      if stopped || fate.Ends? || fate.Cancelled? {
        return Err(Stopped);
      }
      if fate.Refused? {
        return Err(Unadmitted);
      }
      if dropped {
        return Err(Stopped);
      }
      queued := queued + [event];
      if event.Checkpoint? && event.answers.Some? {
        answered := Max(answered, event.answers.value);
      }
      return Ok(());
    }

    /** The barrier still to be answered: the newest asked for, unless a queued checkpoint answers it. */
    method PendingBarrier() returns (pending: Option<nat>)
      requires Inv(Now())
      ensures pending == if requested > Newest(queued) then Some(requested) else None
      ensures pending.None? ==> requested == Newest(queued)
    {
      return if requested > answered then Some(requested) else None;
    }

    /** What a read that runs elsewhere is asked next, where there is something yet: a barrier past all it was
        asked and answered, or, once the engine stopped it or dropped its end with none such, to stop. */
    method Requested() returns (request: Option<Request>)
      modifies this
      ensures Now() == Next(old(Now()), Forwarding)
      ensures stopped ==> request == Some(Stop)
      ensures request == Some(Asked(requested)) <==> !stopped && requested > Max(Last(old(forwarded)), answered)
      ensures !stopped ==> request == if |forwarded| > |old(forwarded)| then Some(Asked(Last(forwarded)))
                                      else if dropped then Some(Stop) else None
    {
      if stopped {
        return Some(Stop);
      }
      if requested > Max(Last(forwarded), answered) {
        forwarded := forwarded + [requested];
        return Some(Asked(requested));
      }
      return if dropped then Some(Stop) else None;
    }
  }
}
