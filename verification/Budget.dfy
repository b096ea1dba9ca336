/** The memory budget: a ledger and the reservations made of it, updated in place by every request,
    part, lending and drop. */
module Budget {
  import opened Wrappers
  import opened Common
  import opened Ledger
  import opened Lending
  import opened LendingHandles
  import opened LendingProof

  /** What a request came to. */
  datatype Outcome = Given(place: nat) | TooLarge | NoRoom | Waits(id: nat)

  /** What shrinking a reservation comes to: nothing where it is no smaller, else the difference on its way home. */
  lemma ShrinkingComesTo(b: Books, place: nat, bytes: nat)
    requires Inv(b) && IsHeld(b.nodes, place)
    ensures var after, held := Made(b, Shrinking(place, bytes)), b.nodes[place];
            && Inv(after) && after.ledger.shares == b.ledger.shares
            && IsHeld(after.nodes, place) && after.nodes[place].bytes == Min(bytes, held.bytes)
            && (bytes >= held.bytes ==> after == b)
            && (bytes < held.bytes ==>
                  var less := b.(nodes := b.nodes[place := held.(bytes := bytes)]);
                  && Homed(less.nodes) && IsHome(less.nodes, held.home, held.share)
                  && after == Returned(less, held.home, held.share, held.bytes - bytes))
  {
    ChangeKeeps(b, Shrinking(place, bytes));
    ShrunkToSize(b, place, bytes);
    if bytes < b.nodes[place].bytes {
      ShrunkIsReturned(b, place, bytes);
    }
  }

  lemma HandedInTwo(log: seq<Grant>, more: seq<Grant>, from: nat)
    requires log <= more && from <= |log|
    ensures Handed(more[from..]) == Handed(log[from..]) + Handed(more[|log|..])
  {
    assert more[from..] == log[from..] + more[|log|..];
  }

  class MemoryBudget {
    const capacity: nat
    var ledger: Ledger
    var nodes: seq<Node>

    ghost function State(): Books
      reads this
    {
      Books(ledger, nodes)
    }

    ghost predicate Valid()
      reads this
    {
      Inv(State()) && ledger.shares == SharesOf(capacity)
    }

    constructor (capacity: nat)
      ensures Valid() && this.capacity == capacity
      ensures State() == Books(Empty(capacity), [])
    {
      this.capacity := capacity;
      ledger := Empty(capacity);
      nodes := [];
      new;
      NewBooksAreEven(capacity);
    }

    /** Takes the first request waiting for a class out of its queue, and gives it its reservation where its
        caller still listens. */
    method AdmitFront(share: Class)
      requires ledger.queues.Of(share) != []
      modifies this
      ensures ledger == Popped(old(ledger), share)
      ensures old(ledger.log) <= ledger.log && nodes == old(nodes) + Handed(ledger.log[|old(ledger.log)|..])
    {
      var front := ledger.queues.Of(share)[0];
      ghost var log := ledger.log;
      ledger := ledger.(queues := ledger.queues.With(share, ledger.queues.Of(share)[1..]));
      if front.listening {
        ledger := ledger.(held := ledger.held.With(share, ledger.held.Of(share) + front.bytes),
                          log := ledger.log + [Grant(share, front.id, front.bytes)]);
        nodes := nodes + [Live(Home.Budget, share, front.bytes, None)];
        assert ledger.log[|log|..] == [Grant(share, front.id, front.bytes)];
      }
    }

    /** Runs the queues down to where none may go next, by `Admitted`: a reservation for each caller that
        still listens, and nothing held for one that left. */
    method AdmitWaiting()
      modifies this
      ensures State() == Admitting(old(State()), old(ledger))
    {
      ghost var before, logged := nodes, |ledger.log|;
      assert ledger.log[logged..] == [];
      while true
        invariant logged <= |ledger.log|
        invariant nodes == before + Handed(ledger.log[logged..])
        invariant Admitted(ledger) == Admitted(old(ledger))
        decreases ledger.queues.Count()
      {
        var next := Next(ledger);
        if next.None? {
          return;
        }
        PoppingShrinks(ledger, next.value);
        ghost var log := ledger.log;
        AdmitFront(next.value);
        HandedInTwo(log, ledger.log, logged);
      }
    }

    /** Gives `bytes` back to `home`. */
    method Release(home: Home, share: Class, bytes: nat)
      requires Homed(nodes) && IsHome(nodes, home, share)
      modifies this
      ensures State() == Returned(old(State()), home, share, bytes)
      decreases Rank(home)
    {
      match home
      case Budget =>
        var released := Min(bytes, ledger.held.Of(share));
        ledger := ledger.(held := ledger.held.With(share, ledger.held.Of(share) - released));
        AdmitWaiting();
      case Lent(place) =>
        assert HomedAt(nodes, place);
        var lent := nodes[place];
        if lent.loan.value.closed {
          var held := Less(lent.bytes, bytes);
          nodes := nodes[place := lent.(bytes := held)];
          LoanIsHomed(old(nodes), place, nodes[place]);
          if held < lent.bytes {
            Release(lent.home, share, lent.bytes - held);
          }
        } else {
          nodes := nodes[place := lent.(loan := Some(lent.loan.value.(free := lent.loan.value.free + bytes)))];
        }
    }

    /** Drops the reservation lent at `home` where nothing refers to it any more, and then the one it
        was a part of. */
    method Sweep(home: Home)
      requires Homed(nodes) && (home.Lent? ==> IsLent(nodes, home.place))
      modifies this
      ensures State() == Swept(old(State()), home)
      decreases Rank(home)
    {
      if home.Budget? || Referenced(nodes, home.place) {
        return;
      }
      assert HomedAt(nodes, home.place);
      var lent := nodes[home.place];
      GoneIsHomed(nodes, home.place);
      nodes := nodes[home.place := Gone];
      ghost var gone := nodes;
      Release(lent.home, lent.share, lent.bytes);
      assert lent.home.Lent? ==> ExtendsAt(gone, nodes, lent.home.place);
      Sweep(lent.home);
    }

    /** Reserves `bytes` of a class: at once where they fit and nobody waits before them, or from the
        queue; for what reads keep, at once or not at all. */
    method Request(share: Class, bytes: nat) returns (outcome: Outcome)
      requires Valid()
      modifies this
      ensures Valid() && State() == Made(old(State()), Asking(share, bytes))
      ensures outcome.TooLarge? <==> bytes > Limit(ledger.shares, share)
      ensures outcome.Given? ==>
                outcome.place == |old(nodes)| && IsHeld(nodes, outcome.place) && nodes[outcome.place].bytes == bytes
      ensures outcome.NoRoom? ==> share == Read && !Fits(ledger.shares, ledger.held, Read, bytes)
      ensures outcome.Waits? ==>
                && outcome.id == old(ledger.arrivals)
                && ledger.queues.Of(share) == old(ledger.queues).Of(share) + [Waiter(outcome.id, bytes, true)]
    {
      AskingKeeps(State(), share, bytes);
      if bytes > Limit(ledger.shares, share) {
        return TooLarge;
      }
      if MayReserve(ledger, share, bytes) {
        ledger := Reserved(ledger, share, bytes);
        nodes := nodes + [Live(Home.Budget, share, bytes, None)];
        return Given(|nodes| - 1);
      }
      if share == Read {
        return NoRoom;
      }
      outcome := Waits(ledger.arrivals);
      ledger := Queued(ledger, share, bytes);
    }

    /** Gives up the place of a request that no longer waits, and admits whoever it kept waiting. */
    method Forget(id: nat)
      requires Valid()
      modifies this
      ensures Valid() && State() == Made(old(State()), Forgetting(id))
    {
      ChangeKeeps(State(), Forgetting(id));
      ledger := ledger.(queues := QueuesWith(ledger.queues, q => Forgotten(q, id)));
      AdmitWaiting();
    }

    /** `Shrinking`, the difference going home; a size that is not smaller changes nothing. */
    method Shrink(place: nat, bytes: nat)
      requires Valid() && IsHeld(nodes, place)
      modifies this
      ensures Valid() && State() == Made(old(State()), Shrinking(place, bytes))
      ensures IsHeld(nodes, place) && nodes[place].bytes == Min(bytes, old(nodes)[place].bytes)
    {
      ShrinkingComesTo(State(), place, bytes);
      var held := nodes[place];
      if bytes >= held.bytes {
        return;
      }
      nodes := nodes[place := held.(bytes := bytes)];
      Release(held.home, held.share, held.bytes - bytes);
    }

    /** `Splitting`: a second reservation with the same home, no bytes gained between the two. */
    method Split(place: nat, bytes: nat) returns (part: nat)
      requires Valid() && IsHeld(nodes, place)
      modifies this
      ensures Valid() && State() == Made(old(State()), Splitting(place, bytes))
      ensures IsHeld(nodes, part) && nodes[part].bytes == Min(bytes, old(nodes)[place].bytes)
    {
      ChangeKeeps(State(), Splitting(place, bytes));
      var held := nodes[place];
      var taken := Min(bytes, held.bytes);
      part := |nodes|;
      nodes := nodes[place := held.(bytes := held.bytes - taken)] + [held.(bytes := taken)];
    }

    /** Lends the reservation, a part at a time, to one handle: to give it up is to drop the reservation. */
    method Lend(place: nat)
      requires Valid() && IsHeld(nodes, place)
      modifies this
      ensures Valid() && State() == Made(old(State()), Change.Lending(place))
      ensures Enabled(State(), Freeing(place)) && Made(State(), Freeing(place)) == Made(old(State()), Dropping(place))
    {
      LendingAndFreeingIsDropping(State(), place);
      ChangeKeeps(State(), Change.Lending(place));
      var held := nodes[place];
      nodes := nodes[place := held.(loan := Some(Loan(held.bytes, held.bytes, false, 1)))];
    }

    /** `Taking`: a part whose home is the lending, exactly where its free bytes cover the request. */
    method TryTake(place: nat, bytes: nat) returns (part: Option<nat>)
      requires Valid() && Enabled(State(), Taking(place, bytes))
      modifies this
      ensures Valid() && State() == Made(old(State()), Taking(place, bytes))
      ensures part.Some? <==> bytes <= old(nodes)[place].loan.value.free
      ensures part.Some? ==> IsHeld(nodes, part.value) && nodes[part.value].bytes == bytes
    {
      ChangeKeeps(State(), Taking(place, bytes));
      var lent := nodes[place];
      if bytes > lent.loan.value.free {
        return None;
      }
      part := Some(|nodes|);
      nodes := nodes[place := lent.(loan := Some(lent.loan.value.(free := lent.loan.value.free - bytes)))]
               + [Live(Lent(place), lent.share, bytes, None)];
    }

    /** `Closing`: the free bytes go home at once, and later returns pass through. */
    method Close(place: nat)
      requires Valid() && Enabled(State(), Closing(place))
      modifies this
      ensures Valid() && State() == Made(old(State()), Closing(place))
    {
      ChangeKeeps(State(), Closing(place));
      var lent := nodes[place];
      var held := Less(lent.bytes, lent.loan.value.free);
      nodes := nodes[place := lent.(bytes := held, loan := Some(lent.loan.value.(free := 0, closed := true)))];
      LoanIsHomed(old(nodes), place, nodes[place]);
      if held < lent.bytes {
        Release(lent.home, lent.share, lent.bytes - held);
      }
    }

    /** One more handle on a lent reservation. */
    method Clone(place: nat)
      requires Valid() && Enabled(State(), Cloning(place))
      modifies this
      ensures Valid() && State() == Made(old(State()), Cloning(place))
    {
      ChangeKeeps(State(), Cloning(place));
      nodes := WithHandles(nodes, place, nodes[place].loan.value.handles + 1);
    }

    /** Gives up a handle on a lent reservation. */
    method Free(place: nat)
      requires Valid() && Enabled(State(), Freeing(place))
      modifies this
      ensures Valid() && State() == Made(old(State()), Freeing(place))
    {
      ChangeKeeps(State(), Freeing(place));
      nodes := WithHandles(nodes, place, nodes[place].loan.value.handles - 1);
      LoanIsHomed(old(nodes), place, nodes[place]);
      Sweep(Lent(place));
    }

    /** Releases a reservation. */
    method Drop(place: nat)
      requires Valid() && IsHeld(nodes, place)
      modifies this
      ensures Valid() && State() == Made(old(State()), Dropping(place))
    {
      ChangeKeeps(State(), Dropping(place));
      var held := nodes[place];
      HeldHasNoParts(nodes, place);
      GoneIsHomed(nodes, place);
      nodes := nodes[place := Gone];
      ghost var gone := nodes;
      Release(held.home, held.share, held.bytes);
      assert held.home.Lent? ==> ExtendsAt(gone, nodes, held.home.place);
      Sweep(held.home);
    }
  }
}
