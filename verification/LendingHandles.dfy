/** Who refers to a lent reservation, over every history of a budget: a reservation is held, then lent while
    a handle or a part of it is left, then gone, and once it is closed it lends no byte again. */
module LendingHandles {
  import opened Wrappers
  import opened Common
  import opened Ledger
  import opened Lending
  import opened LendingProof

  /** Whether what was lent at `place` is lent as it was, or gone where no handle was left; what was held is
      held or gone; what was gone is gone; and what is new is not lent. */
  predicate Lives(before: seq<Node>, after: seq<Node>, place: nat) {
    if place < |before| then
      && place < |after|
      && (before[place].Gone? ==> after[place].Gone?)
      && (IsHeld(before, place) ==> after[place].Gone? || IsHeld(after, place))
      && (IsLent(before, place) ==>
            || (after[place].Gone? && before[place].loan.value.handles == 0)
            || (&& IsLent(after, place)
                && after[place].loan.value.handles == before[place].loan.value.handles
                && after[place].loan.value.closed == before[place].loan.value.closed))
    else !IsLent(after, place)
  }

  lemma ExtensionsLive(before: seq<Node>, after: seq<Node>, place: nat)
    requires Extends(before, after)
    ensures Lives(before, after, place)
  {
    assert ExtendsAt(before, after, place);
  }

  lemma {:induction false} SweptLives(b: Books, home: Home, place: nat)
    requires Homed(b.nodes) && (home.Lent? ==> IsLent(b.nodes, home.place))
    ensures Lives(b.nodes, Swept(b, home).nodes, place)
    decreases Rank(home)
  {
    if home.Lent? && !Referenced(b.nodes, home.place) {
      var lent := b.nodes[home.place];
      GoneIsHomed(b.nodes, home.place);
      var gone := b.(nodes := b.nodes[home.place := Gone]);
      var r := Returned(gone, lent.home, lent.share, lent.bytes);
      assert HomedAt(b.nodes, home.place);
      assert lent.home.Lent? ==> ExtendsAt(gone.nodes, r.nodes, lent.home.place);
      ExtensionsLive(gone.nodes, r.nodes, place);
      SweptLives(r, lent.home, place);
    }
  }

  lemma ShrunkLives(b: Books, place: nat, bytes: nat, other: nat)
    requires Homed(b.nodes) && IsHeld(b.nodes, place)
    ensures Lives(b.nodes, Made(b, Shrinking(place, bytes)).nodes, other)
  {
    var held := b.nodes[place];
    if bytes < held.bytes {
      ShrunkIsReturned(b, place, bytes);
      ExtensionsLive(b.nodes[place := held.(bytes := bytes)], Made(b, Shrinking(place, bytes)).nodes, other);
    }
  }

  lemma ClosedLives(b: Books, place: nat, other: nat)
    requires Homed(b.nodes) && IsLent(b.nodes, place)
    ensures place != other ==> Lives(b.nodes, Closed(b, place).nodes, other)
    ensures IsLent(Closed(b, place).nodes, place) && Closed(b, place).nodes[place].loan.value.closed
    ensures Closed(b, place).nodes[place].loan.value.handles == b.nodes[place].loan.value.handles
  {
    var lent := b.nodes[place];
    var kept := Less(lent.bytes, lent.loan.value.free);
    var nodes := b.nodes[place := lent.(bytes := kept, loan := Some(lent.loan.value.(free := 0, closed := true)))];
    LoanIsHomed(b.nodes, place, nodes[place]);
    if kept != lent.bytes {
      ExtensionsLive(nodes, Closed(b, place).nodes, other);
      ExtensionsLive(nodes, Closed(b, place).nodes, place);
      assert ExtendsAt(nodes, Closed(b, place).nodes, place);
    }
  }

  lemma FreedLives(b: Books, place: nat, other: nat)
    requires Homed(b.nodes) && Enabled(b, Freeing(place))
    ensures place != other ==> Lives(b.nodes, Made(b, Freeing(place)).nodes, other)
    ensures var after := Made(b, Freeing(place)).nodes; var left := b.nodes[place].loan.value.handles - 1;
            place < |after| && if IsLent(after, place) then after[place].loan.value.handles == left
                               else after[place].Gone? && left == 0
    ensures IsLent(Made(b, Freeing(place)).nodes, place) ==>
              Made(b, Freeing(place)).nodes[place].loan.value.closed == b.nodes[place].loan.value.closed
  {
    var nodes := WithHandles(b.nodes, place, b.nodes[place].loan.value.handles - 1);
    LoanIsHomed(b.nodes, place, nodes[place]);
    SweptLives(b.(nodes := nodes), Lent(place), other);
    SweptLives(b.(nodes := nodes), Lent(place), place);
  }

  lemma DroppedLives(b: Books, place: nat, other: nat)
    requires Homed(b.nodes) && IsHeld(b.nodes, place)
    ensures Lives(b.nodes, Dropped(b, place).nodes, other)
    ensures place < |Dropped(b, place).nodes| && Dropped(b, place).nodes[place].Gone?
  {
    var held := b.nodes[place];
    HeldHasNoParts(b.nodes, place);
    GoneIsHomed(b.nodes, place);
    var gone := b.(nodes := b.nodes[place := Gone]);
    var r := Returned(gone, held.home, held.share, held.bytes);
    assert held.home.Lent? ==> ExtendsAt(gone.nodes, r.nodes, held.home.place);
    ExtensionsLive(gone.nodes, r.nodes, other);
    ExtensionsLive(gone.nodes, r.nodes, place);
    SweptLives(r, held.home, other);
    SweptLives(r, held.home, place);
  }

  /** Whether a change is to what is lent at `place`, or lends it. */
  predicate Alters(change: Change, place: nat) {
    change == Lending(place) || change == Closing(place) || change == Cloning(place) || change == Freeing(place)
  }

  lemma OthersLive(b: Books, change: Change, place: nat)
    requires Homed(b.nodes) && Enabled(b, change) && !Alters(change, place)
    ensures Lives(b.nodes, Made(b, change).nodes, place)
  {
    match change
    case Shrinking(at, bytes) => ShrunkLives(b, at, bytes, place);
    case Closing(at) => ClosedLives(b, at, place);
    case Freeing(at) => FreedLives(b, at, place);
    case Dropping(at) => DroppedLives(b, at, place);
    case _ =>
  }

  // ----- Handles -----

  /** How many handles a history leaves on what it lends at `place`: one for lending it, one more for each
      `Cloning`, one fewer for each `Freeing`. */
  function Handles(capacity: nat, changes: seq<Change>, place: nat): int {
    if changes == [] then 0
    else
      var init, last := changes[..|changes| - 1], changes[|changes| - 1];
      var handles := Handles(capacity, init, place);
      if !Enabled(After(capacity, init), last) then handles
      else if last == Lending(place) then 1
      else if last == Cloning(place) then handles + 1
      else if last == Freeing(place) then handles - 1
      else handles
  }

  /** Whether so many handles are left on what is lent at `place`, if anything is. */
  predicate Handled(nodes: seq<Node>, place: nat, handles: int) {
    if IsLent(nodes, place) then nodes[place].loan.value.handles == handles else handles == 0
  }

  lemma ChangeIsHandled(b: Books, change: Change, place: nat, handles: int)
    requires Homed(b.nodes) && Enabled(b, change) && Handled(b.nodes, place, handles)
    ensures Handled(Made(b, change).nodes, place,
                    if change == Lending(place) then 1
                    else if change == Cloning(place) then handles + 1
                    else if change == Freeing(place) then handles - 1
                    else handles)
  {
    if !Alters(change, place) {
      OthersLive(b, change, place);
    } else if change == Closing(place) {
      ClosedLives(b, place, place);
    } else if change == Freeing(place) {
      FreedLives(b, place, place);
    }
  }

  /** The handles on what is lent at `place` are those the history made and did not give up; with none, nothing
      more is taken, closed, cloned or freed there, and it is lent only while a part of it is left. */
  lemma {:induction false} HandlesAreCounted(capacity: nat, changes: seq<Change>, place: nat, bytes: nat)
    ensures Handled(After(capacity, changes).nodes, place, Handles(capacity, changes, place))
    ensures forall change | change in {Taking(place, bytes), Closing(place), Cloning(place), Freeing(place)} ::
              Enabled(After(capacity, changes), change) <==> Handles(capacity, changes, place) > 0
    ensures var nodes := After(capacity, changes).nodes;
            IsLent(nodes, place) && Handles(capacity, changes, place) == 0 ==>
              exists i | 0 <= i < |nodes| :: nodes[i].Live? && nodes[i].home == Lent(place)
  {
    var b := After(capacity, changes);
    if changes != [] {
      var init, last := changes[..|changes| - 1], changes[|changes| - 1];
      HandlesAreCounted(capacity, init, place, bytes);
      if Enabled(After(capacity, init), last) {
        ChangeIsHandled(After(capacity, init), last, place, Handles(capacity, init, place));
      }
    }
    assert IsLent(b.nodes, place) ==> KeptFor(b.nodes, place, Budget);
  }

  /** Lending a reservation and giving up the handle is dropping it. */
  lemma LendingAndFreeingIsDropping(b: Books, place: nat)
    requires Homed(b.nodes) && IsHeld(b.nodes, place)
    ensures var lent := Made(b, Change.Lending(place));
            Homed(lent.nodes) && Enabled(lent, Freeing(place))
            && Made(lent, Freeing(place)) == Made(b, Dropping(place))
  {
    var lent := Made(b, Change.Lending(place));
    LoanIsHomed(b.nodes, place, lent.nodes[place]);
    HeldHasNoParts(b.nodes, place);
    var freed := WithHandles(lent.nodes, place, 0);
    LoanIsHomed(lent.nodes, place, freed[place]);
    assert !Referenced(freed, place);
    assert freed[place := Gone] == b.nodes[place := Gone];
    assert HomedAt(b.nodes, place);
  }

  /** One more handle, given up, changes nothing. */
  lemma CloningAndFreeingIsNothing(b: Books, place: nat)
    requires Homed(b.nodes) && Enabled(b, Cloning(place))
    ensures var cloned := Made(b, Cloning(place));
            Homed(cloned.nodes) && Enabled(cloned, Freeing(place)) && Made(cloned, Freeing(place)) == b
  {
    var cloned := Made(b, Cloning(place));
    LoanIsHomed(b.nodes, place, cloned.nodes[place]);
    var freed := WithHandles(cloned.nodes, place, b.nodes[place].loan.value.handles);
    assert Referenced(freed, place);
    assert freed == b.nodes;
  }

  // ----- Closing -----

  /** Whether nothing at `place` will lend a byte again. */
  predicate Shuttered(nodes: seq<Node>, place: nat) {
    place < |nodes| && (nodes[place].Gone? || (IsLent(nodes, place) && nodes[place].loan.value.closed))
  }

  lemma ShutteredStays(b: Books, change: Change, place: nat)
    requires Homed(b.nodes) && Enabled(b, change) && Shuttered(b.nodes, place)
    ensures Shuttered(Made(b, change).nodes, place)
  {
    if !Alters(change, place) {
      OthersLive(b, change, place);
    } else if change == Closing(place) {
      ClosedLives(b, place, place);
    } else if change == Freeing(place) {
      FreedLives(b, place, place);
    }
  }

  /** Whether the change at `n` of a history closes what is lent at `place`. */
  predicate Closes(capacity: nat, changes: seq<Change>, n: nat, place: nat) {
    n < |changes| && changes[n] == Closing(place) && Enabled(After(capacity, changes[..n]), changes[n])
  }

  lemma {:induction false} ClosingShutters(capacity: nat, changes: seq<Change>, n: nat, place: nat)
    requires Closes(capacity, changes, n, place)
    ensures Shuttered(After(capacity, changes).nodes, place)
  {
    var init, last := changes[..|changes| - 1], changes[|changes| - 1];
    if n == |init| {
      ClosedLives(After(capacity, init), place, place);
    } else {
      assert init[..n] == changes[..n];
      ClosingShutters(capacity, init, n, place);
      if Enabled(After(capacity, init), last) {
        ShutteredStays(After(capacity, init), last, place);
      }
    }
  }

  /** Once a lending is closed, however the history goes on: what is left of it is closed, no byte of it is
      free, and no part of any bytes is taken of it. */
  lemma ClosingIsForGood(capacity: nat, changes: seq<Change>, n: nat, place: nat, bytes: nat)
    requires Closes(capacity, changes, n, place) && bytes > 0
    ensures var b := After(capacity, changes);
            && Shuttered(b.nodes, place)
            && (IsLent(b.nodes, place) ==> b.nodes[place].loan.value.free == 0)
            && (Enabled(b, Taking(place, bytes)) ==> Made(b, Taking(place, bytes)) == b)
  {
    ClosingShutters(capacity, changes, n, place);
    var b := After(capacity, changes);
    assert IsLent(b.nodes, place) ==> LoanEven(b.nodes, place, Budget, 0);
  }

  /** A part taken and dropped leaves the lending as it was: its bytes are free again. */
  lemma TakingAndDroppingIsNothing(b: Books, place: nat, bytes: nat)
    requires Homed(b.nodes) && Enabled(b, Taking(place, bytes))
    requires !b.nodes[place].loan.value.closed && bytes <= b.nodes[place].loan.value.free
    ensures var taken := Made(b, Taking(place, bytes));
            Homed(taken.nodes) && IsHeld(taken.nodes, |b.nodes|) && taken.nodes[|b.nodes|].bytes == bytes
            && Made(taken, Dropping(|b.nodes|)) == b.(nodes := b.nodes + [Gone])
  {
    var part, lent := |b.nodes|, b.nodes[place];
    var taken := Made(b, Taking(place, bytes));
    LoanIsHomed(b.nodes, place, taken.nodes[place]);
    OneMoreIsHomed(taken.nodes[..part], taken.nodes[part]);
    assert taken.nodes == taken.nodes[..part] + [taken.nodes[part]];
    HeldHasNoParts(taken.nodes, part);
    GoneIsHomed(taken.nodes, part);
    var gone := taken.(nodes := taken.nodes[part := Gone]);
    var r := Returned(gone, Lent(place), lent.share, bytes);
    assert r.nodes == b.nodes + [Gone];
    assert Referenced(r.nodes, place);
  }

  /** A reservation is shrunk to what was asked, and never grown. */
  lemma ShrunkToSize(b: Books, place: nat, bytes: nat)
    requires Homed(b.nodes) && IsHeld(b.nodes, place)
    ensures var after := Made(b, Shrinking(place, bytes)).nodes;
            place < |after| && after[place] == b.nodes[place].(bytes := Min(bytes, b.nodes[place].bytes))
  {
    var held := b.nodes[place];
    if bytes < held.bytes {
      ShrunkIsReturned(b, place, bytes);
      var nodes := b.nodes[place := held.(bytes := bytes)];
      ReturningLeavesHolders(b.(nodes := nodes), held.home, held.share, held.bytes - bytes, place);
    }
  }
}
