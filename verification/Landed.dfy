/** The landed key: the fence row a destination keeps of a pipeline, how it answers a commit by
    that row, and what any run of opens and deliveries keeps of it. */
module Landed {
  import opened Wrappers

  /** Commits are ordered by epoch, and within one by place. */
  datatype CommitKey = CommitKey(epoch: nat, place: nat) {
    predicate Below(other: CommitKey) {
      epoch < other.epoch || (epoch == other.epoch && place < other.place)
    }
  }

  datatype Receipt = Receipt(key: CommitKey, rows: nat)

  datatype Fence = Fence(epoch: nat, landed: Option<Receipt>) {
    function LandedKey(): Option<CommitKey> {
      if landed.Some? then Some(landed.value.key) else None
    }
  }

  datatype Answer = Landed(receipt: Receipt) | Fenced | Stale | Apply

  datatype Refusal = FencedCommit | StaleCommit

  /** Whether nothing, or a key below `key`, is expected landed. */
  predicate Precedes(after: Option<CommitKey>, key: CommitKey) {
    after.None? || after.value.Below(key)
  }

  /** The answer to a commit from the fence row alone: a receipt for the key that landed last, permission for
      the one that follows it, and a refusal for any other. */
  function AnswerTo(fence: Fence, key: CommitKey, after: Option<CommitKey>): Answer {
    if fence.landed.Some? && fence.landed.value.key == key then Landed(fence.landed.value)
    else if fence.epoch != key.epoch then Fenced
    else if fence.LandedKey() != after then Stale
    else Apply
  }

  /** What a destination does with a commit before it publishes anything. */
  function Decide(fence: Fence, key: CommitKey, after: Option<CommitKey>): (r: Result<Option<Receipt>, Refusal>)
    ensures r == Ok(None) <==>
            fence.epoch == key.epoch && fence.LandedKey() == after && fence.LandedKey() != Some(key)
    ensures r.Ok? && r.value.Some? <==> fence.LandedKey() == Some(key)
    ensures r.Ok? && r.value.Some? ==> r.value == fence.landed
    ensures r == Err(StaleCommit) ==> fence.epoch == key.epoch && fence.LandedKey() != after
    ensures r == Err(FencedCommit) ==> fence.epoch != key.epoch
  {
    match AnswerTo(fence, key, after)
    case Landed(receipt) => Ok(Some(receipt))
    case Apply => Ok(None)
    case Fenced => Err(FencedCommit)
    case Stale => Err(StaleCommit)
  }

  // ----- A destination through any run of opens and deliveries -----

  /** An open taking an epoch past the row's, or a commit delivered: any commit, from any session,
      any number of times. */
  datatype Event = Open(above: nat) | Deliver(key: CommitKey, after: Option<CommitKey>, rows: nat)

  /** The fence row, and the keys that published, in the order they did. */
  datatype Destination = Destination(fence: Fence, applied: seq<CommitKey>)

  const Unopened := Destination(Fence(0, None), [])

  function Handle(d: Destination, event: Event): Destination {
    match event
    case Open(above) => d.(fence := d.fence.(epoch := d.fence.epoch + 1 + above))
    case Deliver(key, after, rows) =>
      if Decide(d.fence, key, after) == Ok(None) then
        Destination(d.fence.(landed := Some(Receipt(key, rows))), d.applied + [key])
      else d
  }

  function Run(d: Destination, events: seq<Event>): Destination {
    if events == [] then d else Handle(Run(d, events[..|events| - 1]), events[|events| - 1])
  }

  /** Every commit expects a key below its own landed, as every commit the engine makes does. */
  ghost predicate Ordered(events: seq<Event>) {
    forall i | 0 <= i < |events| && events[i].Deliver? :: Precedes(events[i].after, events[i].key)
  }

  ghost predicate Ascending(keys: seq<CommitKey>) {
    forall i, j | 0 <= i < j < |keys| :: keys[i].Below(keys[j])
  }

  /** The landed key is the last that published. */
  ghost predicate Recorded(d: Destination) {
    d.fence.LandedKey() == if d.applied == [] then None else Some(d.applied[|d.applied| - 1])
  }

  /** Over any run, the keys that published strictly ascend, so each publishes at most once, the row holds the
      last of them, and sending that one again is answered with its receipt. A commit delivered next changes
      nothing exactly where it is not answered to apply, and none whose key published is. */
  lemma {:induction false} RunsPublishEachKeyOnce(events: seq<Event>, after: Option<CommitKey>)
    requires Ordered(events)
    ensures var d := Run(Unopened, events);
            && Ascending(d.applied)
            && Recorded(d)
            && (d.applied != [] ==>
                  Decide(d.fence, d.applied[|d.applied| - 1], after) == Ok(d.fence.landed))
            && (forall key, rows ::
                  Handle(d, Deliver(key, after, rows)) == d <==> AnswerTo(d.fence, key, after) != Apply)
            && (forall key | key in d.applied && Precedes(after, key) :: AnswerTo(d.fence, key, after) != Apply)
  {
    if events != [] {
      var before := events[..|events| - 1];
      RunsPublishEachKeyOnce(before, after);
      var d, event := Run(Unopened, before), events[|events| - 1];
      if event.Deliver? && Decide(d.fence, event.key, event.after) == Ok(None) {
        forall i | 0 <= i < |d.applied| ensures d.applied[i].Below(event.key) {
          assert d.applied[|d.applied| - 1].Below(event.key);
        }
      }
    }
    var d := Run(Unopened, events);
    forall key, rows ensures Handle(d, Deliver(key, after, rows)) == d <==> AnswerTo(d.fence, key, after) != Apply {
      AppliesOrNothing(d, key, after, rows);
    }
    forall key | key in d.applied && Precedes(after, key) ensures AnswerTo(d.fence, key, after) != Apply {
      PublishedIsNotBelow(d, key);
    }
  }

  lemma AppliesOrNothing(d: Destination, key: CommitKey, after: Option<CommitKey>, rows: nat)
    ensures Handle(d, Deliver(key, after, rows)) == d <==> AnswerTo(d.fence, key, after) != Apply
  {
    if AnswerTo(d.fence, key, after) == Apply {
      assert |Handle(d, Deliver(key, after, rows)).applied| == |d.applied| + 1;
    }
  }

  lemma PublishedIsNotBelow(d: Destination, key: CommitKey)
    requires Ascending(d.applied) && Recorded(d) && key in d.applied
    ensures d.fence.landed.Some? && !d.fence.landed.value.key.Below(key)
  {
    var i :| 0 <= i < |d.applied| && d.applied[i] == key;
    if i < |d.applied| - 1 {
      assert d.applied[i].Below(d.applied[|d.applied| - 1]);
    }
  }

  /** Once a session opens, no commit made under an earlier epoch publishes: sent again, the last that landed
      gets its receipt, and any other is refused. */
  lemma OpeningFences(d: Destination, above: nat, key: CommitKey, after: Option<CommitKey>, rows: nat)
    requires key.epoch <= d.fence.epoch
    ensures var later := Handle(d, Open(above));
            && later.fence.epoch > d.fence.epoch && later.applied == d.applied
            && Handle(later, Deliver(key, after, rows)) == later
            && Decide(later.fence, key, after)
               == if d.fence.LandedKey() == Some(key) then Ok(d.fence.landed) else Err(FencedCommit)
  {
  }

  /** The order of keys is what the result rests on: a commit expecting a key past its own landed
      publishes a key a second time. */
  lemma DisorderedKeysPublishTwice()
    ensures var first, second := CommitKey(1, 1), CommitKey(1, 2);
            var events := [Open(0), Deliver(first, None, 0), Deliver(second, Some(first), 0),
                           Deliver(first, Some(second), 0)];
            Run(Unopened, events).applied == [first, second, first] && !Ordered(events)
  {
    var first, second := CommitKey(1, 1), CommitKey(1, 2);
    var events := [Open(0), Deliver(first, None, 0), Deliver(second, Some(first), 0),
                   Deliver(first, Some(second), 0)];
    var d := Unopened;
    assert events[..0] == [];
    for i := 0 to |events|
      invariant d == Run(Unopened, events[..i])
      invariant i == 1 ==> d == Destination(Fence(1, None), [])
      invariant i == 2 ==> d == Destination(Fence(1, Some(Receipt(first, 0))), [first])
      invariant i == 3 ==> d == Destination(Fence(1, Some(Receipt(second, 0))), [first, second])
      invariant i == 4 ==> d.applied == [first, second, first]
    {
      d := Handle(d, events[i]);
      assert events[..i + 1][..i] == events[..i];
    }
    assert events[..4] == events;
    assert !Precedes(events[3].after, events[3].key);
  }
}
