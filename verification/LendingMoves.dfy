/** What a change of a holder's does to the ledger: bytes held are counted anew and whoever's turn it is leaves its
    queue, and nothing else, whichever reservations the bytes pass through. */
module LendingMoves {
  import opened Wrappers
  import opened Common
  import opened Ledger
  import opened Lending

  datatype Move = Holds(held: Held) | Admits

  function Moving(l: Ledger, move: Move): Ledger {
    match move
    case Holds(held) => l.(held := held)
    case Admits => if Next(l).None? then l else Popped(l, Next(l).value)
  }

  lemma MovingAddsNoWaiter(l: Ledger, move: Move, share: Class)
    ensures forall waiter | waiter in Moving(l, move).queues.Of(share) :: waiter in l.queues.Of(share)
  {
  }

  function Moved(l: Ledger, moves: seq<Move>): Ledger
    decreases |moves|
  {
    if moves == [] then l else Moved(Moving(l, moves[0]), moves[1..])
  }

  lemma {:induction false} MovedTwice(l: Ledger, a: seq<Move>, b: seq<Move>)
    ensures Moved(Moved(l, a), b) == Moved(l, a + b)
    decreases |a|
  {
    if a == [] {
      assert a + b == b;
    } else {
      MovedTwice(Moving(l, a[0]), a[1..], b);
      assert (a + b)[1..] == a[1..] + b;
    }
  }

  lemma {:induction false} AdmittedMoves(l: Ledger) returns (moves: seq<Move>)
    ensures Admitted(l) == Moved(l, moves)
    decreases l.queues.Count()
  {
    moves := [];
    if Next(l).Some? {
      PoppingShrinks(l, Next(l).value);
      var more := AdmittedMoves(Popped(l, Next(l).value));
      moves := [Admits] + more;
    }
  }

  lemma {:induction false} ReturnedMoves(b: Books, home: Home, share: Class, bytes: nat) returns (moves: seq<Move>)
    requires Homed(b.nodes) && IsHome(b.nodes, home, share)
    ensures Returned(b, home, share, bytes).ledger == Moved(b.ledger, moves)
    decreases Rank(home)
  {
    moves := [];
    if home.Budget? {
      var held := b.ledger.held.With(share, Less(b.ledger.held.Of(share), bytes));
      var more := AdmittedMoves(b.ledger.(held := held));
      moves := [Holds(held)] + more;
    } else {
      var lent := b.nodes[home.place];
      var kept := Less(lent.bytes, bytes);
      if lent.loan.value.closed && kept != lent.bytes {
        var nodes := b.nodes[home.place := lent.(bytes := kept)];
        LoanIsHomed(b.nodes, home.place, nodes[home.place]);
        assert HomedAt(nodes, home.place);
        moves := ReturnedMoves(b.(nodes := nodes), lent.home, share, lent.bytes - kept);
      }
    }
  }

  lemma {:induction false} SweptMoves(b: Books, home: Home) returns (moves: seq<Move>)
    requires Homed(b.nodes) && (home.Lent? ==> IsLent(b.nodes, home.place))
    ensures Swept(b, home).ledger == Moved(b.ledger, moves)
    decreases Rank(home), 0
  {
    moves := [];
    if home.Lent? && !Referenced(b.nodes, home.place) {
      var lent := b.nodes[home.place];
      GoneIsHomed(b.nodes, home.place);
      assert HomedAt(b.nodes, home.place);
      moves := GoneMoves(b.(nodes := b.nodes[home.place := Gone]), lent);
    }
  }

  /** What a reservation that is gone does on its way home. */
  lemma {:induction false} GoneMoves(gone: Books, node: Node) returns (moves: seq<Move>)
    requires Homed(gone.nodes) && node.Live? && IsHome(gone.nodes, node.home, node.share)
    ensures var r := Returned(gone, node.home, node.share, node.bytes);
            && (node.home.Lent? ==> IsLent(r.nodes, node.home.place))
            && Swept(r, node.home).ledger == Moved(gone.ledger, moves)
    decreases Rank(node.home), 1
  {
    var r := Returned(gone, node.home, node.share, node.bytes);
    assert node.home.Lent? ==> ExtendsAt(gone.nodes, r.nodes, node.home.place);
    var back := ReturnedMoves(gone, node.home, node.share, node.bytes);
    var swept := SweptMoves(r, node.home);
    MovedTwice(gone.ledger, back, swept);
    moves := back + swept;
  }

  lemma ShrunkMoves(b: Books, place: nat, bytes: nat) returns (moves: seq<Move>)
    requires Homed(b.nodes) && IsHeld(b.nodes, place)
    ensures Made(b, Shrinking(place, bytes)).ledger == Moved(b.ledger, moves)
  {
    moves := [];
    var held := b.nodes[place];
    if bytes < held.bytes {
      ShrunkIsReturned(b, place, bytes);
      var less := b.(nodes := b.nodes[place := held.(bytes := bytes)]);
      moves := ReturnedMoves(less, held.home, held.share, held.bytes - bytes);
    }
  }

  lemma ClosedMoves(b: Books, place: nat) returns (moves: seq<Move>)
    requires Homed(b.nodes) && IsLent(b.nodes, place)
    ensures Closed(b, place).ledger == Moved(b.ledger, moves)
  {
    moves := [];
    var lent := b.nodes[place];
    var kept := Less(lent.bytes, lent.loan.value.free);
    var nodes := b.nodes[place := lent.(bytes := kept, loan := Some(lent.loan.value.(free := 0, closed := true)))];
    LoanIsHomed(b.nodes, place, nodes[place]);
    if kept != lent.bytes {
      moves := ReturnedMoves(b.(nodes := nodes), lent.home, lent.share, lent.bytes - kept);
    }
  }

  /** Whether a change is to a request, and not to a reservation. */
  predicate IsOfRequests(change: Change) { change.Asking? || change.Quitting? || change.Forgetting? }

  /** Whatever a holder does with a reservation, the ledger moves so. */
  lemma MadeMoves(b: Books, change: Change) returns (moves: seq<Move>)
    requires Homed(b.nodes) && Enabled(b, change) && !IsOfRequests(change)
    ensures Made(b, change).ledger == Moved(b.ledger, moves)
  {
    match change
    case Shrinking(place, bytes) => moves := ShrunkMoves(b, place, bytes);
    case Closing(place) => moves := ClosedMoves(b, place);
    case Freeing(place) =>
      var nodes := WithHandles(b.nodes, place, b.nodes[place].loan.value.handles - 1);
      LoanIsHomed(b.nodes, place, nodes[place]);
      moves := SweptMoves(b.(nodes := nodes), Lent(place));
    case Dropping(place) =>
      HeldHasNoParts(b.nodes, place);
      GoneIsHomed(b.nodes, place);
      moves := GoneMoves(b.(nodes := b.nodes[place := Gone]), b.nodes[place]);
    case _ => moves := [];
  }
}
