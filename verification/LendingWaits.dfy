/** What a request waits for, over every history of a budget: bytes its own class holds, and for a push also
    lowering's; so that once they go back it is admitted, and lowering never waits for pushes. */
module LendingWaits {
  import opened Wrappers
  import opened Common
  import opened Ledger
  import opened Lending
  import opened LendingMoves
  import opened LendingProof

  /** Whether every request of a class that waits is within the limit of one. */
  predicate ModestOf(l: Ledger, share: Class) {
    forall waiter | waiter in l.queues.Of(share) :: waiter.bytes <= Limit(l.shares, share)
  }

  ghost predicate Modest(l: Ledger) {
    forall share :: ModestOf(l, share)
  }

  lemma {:induction false} MovedModest(l: Ledger, moves: seq<Move>)
    requires Modest(l)
    ensures Modest(Moved(l, moves))
    decreases |moves|
  {
    if moves != [] {
      var l' := Moving(l, moves[0]);
      forall share ensures ModestOf(l', share) {
        assert ModestOf(l, share);
        MovingAddsNoWaiter(l, moves[0], share);
      }
      MovedModest(l', moves[1..]);
    }
  }

  lemma QuitModest(l: Ledger, l': Ledger, id: nat)
    requires Modest(l) && l' == l.(queues := QueuesWith(l.queues, q => Unheard(q, id)))
    ensures Modest(l')
  {
    forall share ensures ModestOf(l', share) {
      assert ModestOf(l, share);
      forall waiter | waiter in l'.queues.Of(share) ensures waiter.bytes <= Limit(l.shares, share) {
        var i :| 0 <= i < |l'.queues.Of(share)| && l'.queues.Of(share)[i] == waiter;
        assert l.queues.Of(share)[i] in l.queues.Of(share);
      }
    }
  }

  lemma ForgottenModest(l: Ledger, l': Ledger, id: nat)
    requires Modest(l) && l' == l.(queues := QueuesWith(l.queues, q => Forgotten(q, id)))
    ensures Modest(l')
  {
    forall share ensures ModestOf(l', share) {
      assert ModestOf(l, share);
    }
  }

  lemma AskedModest(b: Books, share: Class, bytes: nat)
    requires Modest(b.ledger)
    ensures Modest(Asked(b, share, bytes).ledger)
  {
    var l' := Asked(b, share, bytes).ledger;
    forall other ensures ModestOf(l', other) {
      assert ModestOf(b.ledger, other);
    }
  }

  lemma MadeModest(b: Books, change: Change)
    requires Homed(b.nodes) && Enabled(b, change) && Modest(b.ledger)
    ensures Modest(Made(b, change).ledger)
  {
    match change
    case Asking(share, bytes) => AskedModest(b, share, bytes);
    case Quitting(id) => QuitModest(b.ledger, Made(b, change).ledger, id);
    case Forgetting(id) =>
      var l := b.ledger.(queues := QueuesWith(b.ledger.queues, q => Forgotten(q, id)));
      ForgottenModest(b.ledger, l, id);
      var moves := AdmittedMoves(l);
      MovedModest(l, moves);
    case _ =>
      var moves := MadeMoves(b, change);
      MovedModest(b.ledger, moves);
  }

  lemma {:induction false} AfterIsModest(capacity: nat, changes: seq<Change>)
    ensures Modest(After(capacity, changes).ledger)
  {
    if changes != [] {
      var init, last := changes[..|changes| - 1], changes[|changes| - 1];
      AfterIsModest(capacity, init);
      if Enabled(After(capacity, init), last) {
        MadeModest(After(capacity, init), last);
      }
    }
  }

  /** Whatever else is held, a request within its limit fits where its class holds nothing, and, for a push,
      lowering nothing either. */
  lemma FitsOnceItsClassIsFree(l: Ledger, share: Class, bytes: nat)
    requires Within(l.shares, l.held) && l.shares.intake + l.shares.request == l.shares.data
    requires bytes <= Limit(l.shares, share) && l.held.Of(share) == 0 && (share == Intake ==> l.held.work == 0)
    ensures Fits(l.shares, l.held, share, bytes)
  {
  }

  /** The limit of a request is exactly what always fits then: one past it would not, where pushes hold all they
      may, or, of the others, even where nothing is held. */
  lemma LimitsAreExact(capacity: nat, share: Class, bytes: nat)
    ensures var shares := SharesOf(capacity);
            bytes <= Limit(shares, share) <==>
              forall held | Within(shares, held) && held.Of(share) == 0 && (share == Intake ==> held.work == 0) ::
                Fits(shares, held, share, bytes)
  {
    var shares := SharesOf(capacity);
    var full := Held(if share == Work then shares.intake else 0, 0, 0, 0, 0, 0);
    assert Within(shares, full) && full.Of(share) == 0;
    assert bytes > Limit(shares, share) ==> !Fits(shares, full, share, bytes);
    forall held | Within(shares, held) && held.Of(share) == 0 && (share == Intake ==> held.work == 0)
      ensures bytes <= Limit(shares, share) ==> Fits(shares, held, share, bytes)
    {
    }
  }

  lemma HeldUpByItsOwn(l: Ledger, share: Class)
    requires Within(l.shares, l.held) && l.shares.intake + l.shares.request == l.shares.data
    requires ModestOf(l, share) && HasToWait(l, share)
    ensures l.queues.Of(share) != [] ==>
              l.held.Of(share) > 0 || (share == Intake && (l.held.work > 0 || l.queues.work != []))
  {
    if l.queues.Of(share) != [] && l.held.Of(share) == 0 && (share == Intake ==> l.held.work == 0) {
      assert l.queues.Of(share)[0] in l.queues.Of(share);
      FitsOnceItsClassIsFree(l, share, l.queues.Of(share)[0].bytes);
    }
  }

  /** Over every history, where a request waits its class holds something, or, for a push, lowering does. However
      much pushes hold, they leave room for one request for lowering. */
  lemma WaitsOnlyForItsOwn(capacity: nat, changes: seq<Change>, share: Class)
    ensures var l := After(capacity, changes).ledger;
            l.queues.Of(share) != [] ==> l.held.Of(share) > 0 || (share == Intake && l.held.work > 0)
  {
    AfterIsModest(capacity, changes);
    var l := After(capacity, changes).ledger;
    assert ModestOf(l, share) && ModestOf(l, Work);
    NoneIsNext(l, share);
    NoneIsNext(l, Work);
    HeldUpByItsOwn(l, share);
    HeldUpByItsOwn(l, Work);
  }

  // ----- Pushes yield to lowering -----

  predicate InLine(waiters: seq<Waiter>, id: nat) { exists waiter | waiter in waiters :: waiter.id == id }

  /** Whether no push is among the requests admitted since. */
  predicate NoPushSince(before: Ledger, after: Ledger) {
    before.log <= after.log && forall i | |before.log| <= i < |after.log| :: after.log[i].share != Intake
  }

  lemma {:induction false} MovedYields(l: Ledger, moves: seq<Move>, id: nat)
    requires InLine(Moved(l, moves).queues.work, id)
    ensures InLine(l.queues.work, id) && NoPushSince(l, Moved(l, moves))
    decreases |moves|
  {
    if moves != [] {
      var l' := Moving(l, moves[0]);
      MovedYields(l', moves[1..], id);
      var waiter :| waiter in l'.queues.work && waiter.id == id;
      assert waiter in l.queues.work;
    }
  }

  /** Where a request for lowering waits before a change and still does after it, the change admits no push. */
  lemma PushesYieldToLowering(b: Books, change: Change, id: nat)
    requires Homed(b.nodes) && Enabled(b, change) && InLine(b.ledger.queues.work, id)
    requires InLine(Made(b, change).ledger.queues.work, id)
    ensures NoPushSince(b.ledger, Made(b, change).ledger)
  {
    match change
    case Asking(_, _) =>
    case Quitting(_) =>
    case Forgetting(quit) =>
      var l := b.ledger.(queues := QueuesWith(b.ledger.queues, q => Forgotten(q, quit)));
      var moves := AdmittedMoves(l);
      MovedYields(l, moves, id);
    case _ =>
      var moves := MadeMoves(b, change);
      MovedYields(b.ledger, moves, id);
  }
}
