/** What becomes of every request, over every history of a budget: one that is accepted is admitted once, for
    what it asked, or it waits; nothing else is admitted; and none waits that may be admitted. */
module LendingRequests {
  import opened Wrappers
  import opened Common
  import opened Ledger
  import opened Lending
  import opened LendingMoves
  import opened LendingProof

  datatype Request = Request(share: Class, bytes: nat)

  /** Whether a request is taken on: some wait could admit it, and one for what reads keep fits now. */
  predicate Accepts(l: Ledger, share: Class, bytes: nat) {
    bytes <= Limit(l.shares, share) && (share == Read ==> Fits(l.shares, l.held, Read, bytes))
  }

  /** What one change adds to the requests a ledger took on. */
  function Requesting(l: Ledger, change: Change): seq<Request> {
    if change.Asking? && Accepts(l, change.share, change.bytes) then [Request(change.share, change.bytes)] else []
  }

  /** The requests a history's ledger took on, in the order they arrived. */
  function Requests(capacity: nat, changes: seq<Change>): seq<Request> {
    if changes == [] then []
    else
      var init, last := changes[..|changes| - 1], changes[|changes| - 1];
      Requests(capacity, init) + Requesting(After(capacity, init).ledger, last)
  }

  /** The request someone stops waiting for by a change, if any. */
  function Leaving(change: Change): set<nat> {
    if change.Quitting? || change.Forgetting? then {change.id} else {}
  }

  /** The requests someone stopped waiting for. */
  function Leavers(changes: seq<Change>): set<nat> {
    if changes == [] then {}
    else Leavers(changes[..|changes| - 1]) + Leaving(changes[|changes| - 1])
  }

  // ----- What every ledger keeps of its requests -----

  predicate Granted(l: Ledger, id: nat, request: Request) { Grant(request.share, id, request.bytes) in l.log }

  predicate Waits(l: Ledger, id: nat, request: Request) {
    Waiter(id, request.bytes, true) in l.queues.Of(request.share)
  }

  predicate Answered(l: Ledger, requests: seq<Request>, left: set<nat>, id: nat) {
    id < |requests| && id !in left ==> Granted(l, id, requests[id]) || Waits(l, id, requests[id])
  }

  predicate WasAsked(requests: seq<Request>, share: Class, id: nat, bytes: nat) {
    id < |requests| && requests[id] == Request(share, bytes)
  }

  predicate OnlyAsked(l: Ledger, requests: seq<Request>, left: set<nat>, share: Class) {
    && (forall grant | grant in l.log && grant.share == share :: WasAsked(requests, share, grant.id, grant.bytes))
    && (forall waiter | waiter in l.queues.Of(share) ::
          WasAsked(requests, share, waiter.id, waiter.bytes) && (waiter.listening || waiter.id in left))
  }

  ghost predicate Settled(l: Ledger, requests: seq<Request>, left: set<nat>) {
    && |requests| == l.arrivals
    && (forall id: nat :: Answered(l, requests, left, id))
    && (forall share :: OnlyAsked(l, requests, left, share))
  }

  lemma PoppingAnswers(l: Ledger, share: Class, requests: seq<Request>, left: set<nat>, id: nat)
    requires Answered(l, requests, left, id) && OnlyAsked(l, requests, left, share) && l.queues.Of(share) != []
    ensures Answered(Popped(l, share), requests, left, id)
  {
    var l' := Popped(l, share);
    if id < |requests| && id !in left && !Granted(l, id, requests[id]) && requests[id].share == share {
      var waiters, waiter := l.queues.Of(share), Waiter(id, requests[id].bytes, true);
      assert waiters == [waiters[0]] + waiters[1..];
      if waiters[0] == waiter {
        assert l'.log[|l.log|] == Grant(share, id, waiter.bytes);
      } else {
        assert waiter in waiters[1..];
      }
    }
  }

  lemma PoppingAsksNothing(l: Ledger, share: Class, requests: seq<Request>, left: set<nat>, other: Class)
    requires OnlyAsked(l, requests, left, share) && OnlyAsked(l, requests, left, other) && l.queues.Of(share) != []
    ensures OnlyAsked(Popped(l, share), requests, left, other)
  {
    var front := l.queues.Of(share)[0];
    assert front in l.queues.Of(share);
  }

  lemma {:induction false} MovedSettles(l: Ledger, moves: seq<Move>, requests: seq<Request>, left: set<nat>)
    requires Settled(l, requests, left)
    ensures Settled(Moved(l, moves), requests, left)
    decreases |moves|
  {
    if moves != [] {
      var l' := Moving(l, moves[0]);
      if moves[0].Admits? && Next(l).Some? {
        var share := Next(l).value;
        forall id: nat ensures Answered(l', requests, left, id) {
          PoppingAnswers(l, share, requests, left, id);
        }
        forall other ensures OnlyAsked(l', requests, left, other) {
          PoppingAsksNothing(l, share, requests, left, other);
        }
      } else {
        assert forall id: nat :: Answered(l, requests, left, id) ==> Answered(l', requests, left, id);
        assert forall other :: OnlyAsked(l, requests, left, other) ==> OnlyAsked(l', requests, left, other);
      }
      MovedSettles(l', moves[1..], requests, left);
    }
  }

  /** Whether one ledger is another once a request was taken on, admitted at once or left waiting. */
  predicate TookOn(l: Ledger, l': Ledger, share: Class, bytes: nat) {
    l' == Reserved(l, share, bytes) || (share != Read && l' == Queued(l, share, bytes))
  }

  lemma TakingOnAnswers(l: Ledger, l': Ledger, share: Class, bytes: nat, requests: seq<Request>,
                        left: set<nat>, id: nat)
    requires TookOn(l, l', share, bytes) && |requests| == l.arrivals && Answered(l, requests, left, id)
    ensures Answered(l', requests + [Request(share, bytes)], left, id)
  {
    if l' == Reserved(l, share, bytes) {
      assert l'.log[|l.log|] == Grant(share, l.arrivals, bytes);
    } else {
      var waiters := l'.queues.Of(share);
      assert waiters[|waiters| - 1] == Waiter(l.arrivals, bytes, true);
    }
  }

  lemma TakingOnAsks(l: Ledger, l': Ledger, share: Class, bytes: nat, requests: seq<Request>,
                     left: set<nat>, other: Class)
    requires TookOn(l, l', share, bytes) && |requests| == l.arrivals && OnlyAsked(l, requests, left, other)
    ensures OnlyAsked(l', requests + [Request(share, bytes)], left, other)
  {
  }

  lemma TakingOnSettles(l: Ledger, l': Ledger, share: Class, bytes: nat, requests: seq<Request>, left: set<nat>)
    requires Settled(l, requests, left) && TookOn(l, l', share, bytes)
    ensures Settled(l', requests + [Request(share, bytes)], left)
  {
    forall id: nat ensures Answered(l', requests + [Request(share, bytes)], left, id) {
      TakingOnAnswers(l, l', share, bytes, requests, left, id);
    }
    forall other ensures OnlyAsked(l', requests + [Request(share, bytes)], left, other) {
      TakingOnAsks(l, l', share, bytes, requests, left, other);
    }
  }

  lemma UnheardHears(waiters: seq<Waiter>, id: nat, waiter: Waiter)
    ensures waiter in waiters && waiter.id != id ==> waiter in Unheard(waiters, id)
    ensures waiter in Unheard(waiters, id) ==>
              if waiter.id == id then exists w | w in waiters :: w.id == id && w.bytes == waiter.bytes
              else waiter in waiters
  {
    var left := Unheard(waiters, id);
    if waiter in waiters {
      var i :| 0 <= i < |waiters| && waiters[i] == waiter;
      assert waiter.id != id ==> left[i] == waiter;
    }
    if waiter in left {
      var i :| 0 <= i < |left| && left[i] == waiter;
      assert waiters[i] in waiters;
    }
  }

  lemma QuittingSettles(l: Ledger, l': Ledger, requests: seq<Request>, left: set<nat>, id: nat)
    requires Settled(l, requests, left)
    requires l' == l.(queues := QueuesWith(l.queues, q => Unheard(q, id)))
    ensures Settled(l', requests, left + {id})
  {
    forall other: nat ensures Answered(l', requests, left + {id}, other) {
      assert Answered(l, requests, left, other);
      if other < |requests| {
        UnheardHears(l.queues.Of(requests[other].share), id, Waiter(other, requests[other].bytes, true));
      }
    }
    forall share ensures OnlyAsked(l', requests, left + {id}, share) {
      assert OnlyAsked(l, requests, left, share);
      forall waiter | waiter in l'.queues.Of(share)
        ensures WasAsked(requests, share, waiter.id, waiter.bytes)
        ensures waiter.listening || waiter.id in left + {id}
      {
        UnheardHears(l.queues.Of(share), id, waiter);
      }
    }
  }

  lemma ForgettingAnswers(l: Ledger, l': Ledger, requests: seq<Request>, left: set<nat>, id: nat, other: nat)
    requires l' == l.(queues := QueuesWith(l.queues, q => Forgotten(q, id))) && Answered(l, requests, left, other)
    ensures Answered(l', requests, left + {id}, other)
  {
    if other < |requests| {
      assert l'.queues.Of(requests[other].share) == Forgotten(l.queues.Of(requests[other].share), id);
    }
  }

  lemma ForgettingAsks(l: Ledger, l': Ledger, requests: seq<Request>, left: set<nat>, id: nat, share: Class)
    requires l' == l.(queues := QueuesWith(l.queues, q => Forgotten(q, id))) && OnlyAsked(l, requests, left, share)
    ensures OnlyAsked(l', requests, left + {id}, share)
  {
    assert l'.queues.Of(share) == Forgotten(l.queues.Of(share), id);
  }

  lemma ForgettingSettles(l: Ledger, l': Ledger, requests: seq<Request>, left: set<nat>, id: nat)
    requires Settled(l, requests, left)
    requires l' == l.(queues := QueuesWith(l.queues, q => Forgotten(q, id)))
    ensures Settled(l', requests, left + {id})
  {
    forall other: nat ensures Answered(l', requests, left + {id}, other) {
      ForgettingAnswers(l, l', requests, left, id, other);
    }
    forall share ensures OnlyAsked(l', requests, left + {id}, share) {
      ForgettingAsks(l, l', requests, left, id, share);
    }
  }

  lemma LeavingSettles(b: Books, change: Change, requests: seq<Request>, left: set<nat>)
    requires Homed(b.nodes) && (change.Quitting? || change.Forgetting?) && Settled(b.ledger, requests, left)
    ensures Settled(Made(b, change).ledger, requests, left + {change.id})
  {
    var l := b.ledger;
    if change.Quitting? {
      QuittingSettles(l, Made(b, change).ledger, requests, left, change.id);
    } else {
      var l' := l.(queues := QueuesWith(l.queues, q => Forgotten(q, change.id)));
      ForgettingSettles(l, l', requests, left, change.id);
      var moves := AdmittedMoves(l');
      MovedSettles(l', moves, requests, left + {change.id});
    }
  }

  lemma AskingTakesOn(b: Books, share: Class, bytes: nat)
    ensures if Accepts(b.ledger, share, bytes) then TookOn(b.ledger, Asked(b, share, bytes).ledger, share, bytes)
            else Asked(b, share, bytes) == b
  {
  }

  lemma ChangeSettles(b: Books, change: Change, requests: seq<Request>, left: set<nat>)
    requires Homed(b.nodes) && Enabled(b, change) && Settled(b.ledger, requests, left)
    ensures Settled(Made(b, change).ledger, requests + Requesting(b.ledger, change), left + Leaving(change))
  {
    assert requests + [] == requests && left + {} == left;
    if change.Asking? {
      AskingTakesOn(b, change.share, change.bytes);
      if Accepts(b.ledger, change.share, change.bytes) {
        TakingOnSettles(b.ledger, Made(b, change).ledger, change.share, change.bytes, requests, left);
      }
    } else if IsOfRequests(change) {
      LeavingSettles(b, change, requests, left);
    } else {
      var moves := MadeMoves(b, change);
      MovedSettles(b.ledger, moves, requests, left);
    }
  }

  lemma NewLedgersAreSettled(capacity: nat)
    ensures Settled(Empty(capacity), [], {})
  {
  }

  lemma {:induction false} HistoriesSettle(capacity: nat, changes: seq<Change>)
    ensures Settled(After(capacity, changes).ledger, Requests(capacity, changes), Leavers(changes))
  {
    if changes == [] {
      NewLedgersAreSettled(capacity);
    } else {
      var init, last := changes[..|changes| - 1], changes[|changes| - 1];
      HistoriesSettle(capacity, init);
      var b, requests, left := After(capacity, init), Requests(capacity, init), Leavers(init);
      if Enabled(b, last) {
        ChangeSettles(b, last, requests, left);
      } else {
        assert requests + Requesting(b.ledger, last) == requests && left + Leaving(last) == left;
      }
    }
  }

  // ----- What becomes of a request -----

  lemma {:induction false} LeaversLeft(changes: seq<Change>, id: nat)
    ensures id in Leavers(changes) ==> Quitting(id) in changes || Forgetting(id) in changes
  {
    if changes != [] {
      LeaversLeft(changes[..|changes| - 1], id);
    }
  }

  /** A request a history took on is numbered by its arrival, and unless someone stopped waiting for it, it is
      admitted for what it asked, or it waits, and not both. */
  lemma EveryRequestIsAdmittedOrWaits(capacity: nat, changes: seq<Change>, id: nat)
    requires id < |Requests(capacity, changes)| && Quitting(id) !in changes && Forgetting(id) !in changes
    ensures var l, request := After(capacity, changes).ledger, Requests(capacity, changes)[id];
            |Requests(capacity, changes)| == l.arrivals && (Granted(l, id, request) <==> !Waits(l, id, request))
  {
    HistoriesSettle(capacity, changes);
    LeaversLeft(changes, id);
    var l, request := After(capacity, changes).ledger, Requests(capacity, changes)[id];
    assert Answered(l, Requests(capacity, changes), Leavers(changes), id);
    assert InTurn(l, request.share);
  }

  /** Nothing is admitted but what a request asked, and no request twice. */
  lemma OnlyRequestsAreAdmitted(capacity: nat, changes: seq<Change>, i: nat, j: nat)
    requires i < j < |After(capacity, changes).ledger.log|
    ensures var log := After(capacity, changes).ledger.log;
            && WasAsked(Requests(capacity, changes), log[i].share, log[i].id, log[i].bytes)
            && WasAsked(Requests(capacity, changes), log[j].share, log[j].id, log[j].bytes)
            && log[i].id != log[j].id
  {
    HistoriesSettle(capacity, changes);
    var l := After(capacity, changes).ledger;
    assert OnlyAsked(l, Requests(capacity, changes), Leavers(changes), l.log[i].share);
    assert OnlyAsked(l, Requests(capacity, changes), Leavers(changes), l.log[j].share);
    assert InTurn(l, l.log[i].share);
  }

  // ----- A request someone stops waiting for -----

  predicate Listens(waiters: seq<Waiter>, id: nat) {
    exists waiter | waiter in waiters :: waiter.id == id && waiter.listening
  }

  /** Whether a request was made, and is not admitted. */
  predicate Unadmitted(l: Ledger, id: nat) {
    id < l.arrivals && forall grant | grant in l.log :: grant.id != id
  }

  /** Whether, besides, nobody waits for it. */
  ghost predicate Left(l: Ledger, id: nat) {
    Unadmitted(l, id) && forall share :: !Listens(l.queues.Of(share), id)
  }

  lemma {:induction false} MovedLeaves(l: Ledger, moves: seq<Move>, id: nat)
    requires Left(l, id)
    ensures Left(Moved(l, moves), id)
    decreases |moves|
  {
    if moves != [] {
      var l' := Moving(l, moves[0]);
      forall share ensures !Listens(l'.queues.Of(share), id) {
        assert !Listens(l.queues.Of(share), id);
        MovingAddsNoWaiter(l, moves[0], share);
      }
      if moves[0].Admits? && Next(l).Some? {
        assert l.queues.Of(Next(l).value)[0] in l.queues.Of(Next(l).value);
      }
      MovedLeaves(l', moves[1..], id);
    }
  }

  lemma QuittingHushes(waiters: seq<Waiter>, quit: nat, id: nat)
    requires quit == id || !Listens(waiters, id)
    ensures !Listens(Unheard(waiters, quit), id)
  {
    var left := Unheard(waiters, quit);
    forall waiter | waiter in left ensures !(waiter.id == id && waiter.listening) {
      var i :| 0 <= i < |left| && left[i] == waiter;
      assert waiters[i] in waiters;
    }
  }

  lemma AskingLeaves(b: Books, share: Class, bytes: nat, id: nat)
    requires Left(b.ledger, id)
    ensures Left(Asked(b, share, bytes).ledger, id)
  {
    var l' := Asked(b, share, bytes).ledger;
    forall other ensures !Listens(l'.queues.Of(other), id) {
      assert !Listens(b.ledger.queues.Of(other), id);
    }
  }

  lemma ChangeLeaves(b: Books, change: Change, id: nat)
    requires Homed(b.nodes) && Enabled(b, change)
    requires Left(b.ledger, id) || (id in Leaving(change) && Unadmitted(b.ledger, id))
    ensures Left(Made(b, change).ledger, id)
  {
    var l := b.ledger;
    match change
    case Asking(share, bytes) => AskingLeaves(b, share, bytes, id);
    case Quitting(quit) =>
      forall share ensures !Listens(Made(b, change).ledger.queues.Of(share), id) {
        assert quit == id || !Listens(l.queues.Of(share), id);
        QuittingHushes(l.queues.Of(share), quit, id);
      }
    case Forgetting(quit) =>
      var l' := l.(queues := QueuesWith(l.queues, q => Forgotten(q, quit)));
      forall share ensures !Listens(l'.queues.Of(share), id) {
        assert quit == id || !Listens(l.queues.Of(share), id);
      }
      var moves := AdmittedMoves(l');
      MovedLeaves(l', moves, id);
    case _ =>
      var moves := MadeMoves(b, change);
      MovedLeaves(l, moves, id);
  }

  /** A request that waits when someone stops waiting for it is never admitted, and holds nothing. */
  lemma {:induction false} LeaversAreNeverAdmitted(capacity: nat, changes: seq<Change>, n: nat, id: nat)
    requires n < |changes| && id in Leaving(changes[n]) && Unadmitted(After(capacity, changes[..n]).ledger, id)
    ensures Left(After(capacity, changes).ledger, id)
  {
    var init, last := changes[..|changes| - 1], changes[|changes| - 1];
    var b := After(capacity, init);
    if n < |init| {
      assert init[..n] == changes[..n];
      LeaversAreNeverAdmitted(capacity, init, n, id);
      assert Left(b.ledger, id);
    }
    if Enabled(b, last) {
      ChangeLeaves(b, last, id);
    }
  }

  /** The first of a queue waits because it does not fit, or, a push, because lowering waits. */
  lemma NoneThatFitsWaits(capacity: nat, changes: seq<Change>, share: Class)
    ensures HasToWait(After(capacity, changes).ledger, share)
  {
    NoneIsNext(After(capacity, changes).ledger, share);
  }
}
