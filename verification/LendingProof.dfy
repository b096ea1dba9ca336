/** Conservation: over any history of requests, parts, lendings and drops, in any nesting, the
    ledger holds exactly what live reservations of the budget hold, and each lending exactly what
    it may still lend and its live parts hold. */
module LendingProof {
  import opened Wrappers
  import opened Common
  import opened Ledger
  import opened Lending

  function Part(node: Node, home: Home, share: Class): nat {
    if node.Live? && node.home == home && node.share == share then node.bytes else 0
  }

  /** What live reservations of a class hold of `home`. */
  function Owed(nodes: seq<Node>, home: Home, share: Class): nat {
    if nodes == [] then 0
    else Owed(nodes[..|nodes| - 1], home, share) + Part(nodes[|nodes| - 1], home, share)
  }

  lemma {:induction false} OwedOfTwo(a: seq<Node>, b: seq<Node>, home: Home, share: Class)
    ensures Owed(a + b, home, share) == Owed(a, home, share) + Owed(b, home, share)
  {
    if b == [] {
      assert a + b == a;
    } else {
      assert (a + b)[..|a + b| - 1] == a + b[..|b| - 1];
      OwedOfTwo(a, b[..|b| - 1], home, share);
    }
  }

  lemma OwedOneMore(nodes: seq<Node>, node: Node, home: Home, share: Class)
    ensures Owed(nodes + [node], home, share) == Owed(nodes, home, share) + Part(node, home, share)
  {
    assert (nodes + [node])[..|nodes|] == nodes;
  }

  lemma {:induction false} OwedOnce(nodes: seq<Node>, place: nat, node: Node, home: Home, share: Class)
    requires place < |nodes|
    ensures Owed(nodes[place := node], home, share) + Part(nodes[place], home, share)
         == Owed(nodes, home, share) + Part(node, home, share)
  {
    var init := nodes[..|nodes| - 1];
    if place == |nodes| - 1 {
      assert nodes[place := node][..|nodes| - 1] == init;
    } else {
      assert nodes[place := node][..|nodes| - 1] == init[place := node];
      OwedOnce(init, place, node, home, share);
    }
  }

  lemma {:induction false} OwedNothing(nodes: seq<Node>, home: Home, share: Class)
    requires forall i | 0 <= i < |nodes| :: Part(nodes[i], home, share) == 0
    ensures Owed(nodes, home, share) == 0
  {
    if nodes != [] {
      assert forall i | 0 <= i < |nodes| - 1 :: nodes[..|nodes| - 1][i] == nodes[i];
      OwedNothing(nodes[..|nodes| - 1], home, share);
    }
  }

  /** A change of what the reservation at `place` holds, and of its loan, is owed to its home
      alone. */
  lemma HoldingOwes(nodes: seq<Node>, place: nat, node: Node, home: Home, share: Class)
    requires place < |nodes| && nodes[place].Live? && node.Live?
    requires node.home == nodes[place].home && node.share == nodes[place].share
    ensures Owed(nodes[place := node], home, share)
         == Owed(nodes, home, share)
            + (if home == node.home && share == node.share then node.bytes - nodes[place].bytes else 0)
  {
    OwedOnce(nodes, place, node, home, share);
  }

  // ----- The books balance -----

  /** The ledger holds of a class what live reservations of the budget hold, and what of `due` is due
      to it. */
  ghost predicate ShareEven(held: Held, nodes: seq<Node>, c: Class, home: Home, share: Class, due: nat) {
    held.Of(c) == Owed(nodes, Budget, c) + if home.Budget? && c == share then due else 0
  }

  /** What the reservation lent at `place` holds is what it may still lend, what its parts hold, and
      what of `due` is due to it; once closed it lends nothing, and until then it holds all it
      lent. */
  ghost predicate LoanEven(nodes: seq<Node>, place: nat, home: Home, due: nat) {
    IsLent(nodes, place) ==>
      var lent := nodes[place];
      && lent.bytes == lent.loan.value.free + Owed(nodes, Lent(place), lent.share)
                       + (if home == Lent(place) then due else 0)
      && (if lent.loan.value.closed then lent.loan.value.free == 0 else lent.bytes == lent.loan.value.total)
  }

  ghost predicate SharesEven(held: Held, nodes: seq<Node>, home: Home, share: Class, due: nat) {
    forall c :: ShareEven(held, nodes, c, home, share, due)
  }

  ghost predicate LoansEven(nodes: seq<Node>, home: Home, due: nat) {
    forall place: nat :: LoanEven(nodes, place, home, due)
  }

  /** The books balance once `due` bytes of a class, on their way back to `home`, arrive. */
  ghost predicate Balances(b: Books, home: Home, share: Class, due: nat) {
    && Homed(b.nodes)
    && IsHome(b.nodes, home, share)
    && SharesEven(b.ledger.held, b.nodes, home, share, due)
    && LoansEven(b.nodes, home, due)
  }

  /** Whether a reservation lent at `place` still has a part or a handle, or is the one at `home`. */
  ghost predicate KeptFor(nodes: seq<Node>, place: nat, home: Home) {
    IsLent(nodes, place) && home != Lent(place) ==> Referenced(nodes, place)
  }

  /** No lent reservation but the one at `home` is left with neither a part nor a handle. */
  ghost predicate NoOrphan(nodes: seq<Node>, home: Home) {
    forall place: nat :: KeptFor(nodes, place, home)
  }

  /** The books balance, and every lent reservation is some holder's still. */
  ghost predicate Even(b: Books) {
    Balances(b, Budget, Intake, 0) && NoOrphan(b.nodes, Budget)
  }

  ghost predicate Inv(b: Books) {
    Even(b) && Sound(b.ledger)
  }

  // ----- What the queue is given -----

  lemma HandedOneMore(grant: Grant, grants: seq<Grant>, share: Class)
    ensures Owed(Handed([grant] + grants), Budget, share)
         == (if grant.share == share then grant.bytes else 0) + Owed(Handed(grants), Budget, share)
  {
    var first := [Live(Budget, grant.share, grant.bytes, None)];
    assert Handed([grant] + grants) == first + Handed(grants);
    OwedOfTwo(first, Handed(grants), Budget, share);
    assert first[..0] == [];
  }

  /** Admitting one request adds to the ledger what it is given. */
  lemma PoppingIsOwed(l: Ledger, c: Class, share: Class, after: seq<Grant>)
    requires l.queues.Of(c) != []
    ensures |l.log| <= |Popped(l, c).log|
    ensures Popped(l, c).held.Of(share) + Owed(Handed(after), Budget, share)
         == l.held.Of(share) + Owed(Handed(Popped(l, c).log[|l.log|..] + after), Budget, share)
  {
    var front := l.queues.Of(c)[0];
    if front.listening {
      var grant := Grant(c, front.id, front.bytes);
      assert Popped(l, c).log[|l.log|..] == [grant];
      HandedOneMore(grant, after, share);
    } else {
      assert Popped(l, c).log[|l.log|..] + after == after;
    }
  }

  /** What admitting adds to the ledger is what the reservations it hands out hold. */
  lemma {:induction false} AdmittingIsOwed(l: Ledger, share: Class)
    ensures Admitted(l).held.Of(share)
         == l.held.Of(share) + Owed(Handed(Admitted(l).log[|l.log|..]), Budget, share)
    decreases l.queues.Count()
  {
    if Next(l).None? {
      assert Admitted(l).log[|l.log|..] == [];
    } else {
      var c := Next(l).value;
      var l' := Popped(l, c);
      PoppingShrinks(l, c);
      AdmittingIsOwed(l', share);
      var after := Admitted(l').log[|l'.log|..];
      PoppingIsOwed(l, c, share, after);
      assert Admitted(l).log[|l.log|..] == l'.log[|l.log|..] + after;
    }
  }

  lemma AdmittingBalances(b: Books, ledger: Ledger)
    requires Homed(b.nodes) && LoansEven(b.nodes, Budget, 0)
    requires SharesEven(ledger.held, b.nodes, Budget, Intake, 0)
    ensures Balances(Admitting(b, ledger), Budget, Intake, 0)
    ensures Extends(b.nodes, Admitting(b, ledger).nodes)
  {
    var r := Admitting(b, ledger);
    var handed := Handed(Admitted(ledger).log[|ledger.log|..]);
    ExtensionsAreHomed(b.nodes, r.nodes);
    forall c ensures ShareEven(r.ledger.held, r.nodes, c, Budget, Intake, 0) {
      assert ShareEven(ledger.held, b.nodes, c, Budget, Intake, 0);
      AdmittingIsOwed(ledger, c);
      OwedOfTwo(b.nodes, handed, Budget, c);
    }
    forall place: nat ensures LoanEven(r.nodes, place, Budget, 0) {
      assert LoanEven(b.nodes, place, Budget, 0);
      if IsLent(r.nodes, place) {
        OwedNothing(handed, Lent(place), r.nodes[place].share);
        OwedOfTwo(b.nodes, handed, Lent(place), r.nodes[place].share);
      }
    }
  }

  // ----- What goes back -----

  /** The books balance but for what is due to the reservation at `place`, or was lent from it. */
  ghost predicate BalancesBut(b: Books, place: nat) {
    && Homed(b.nodes)
    && SharesEven(b.ledger.held, b.nodes, Lent(place), Intake, 0)
    && forall i: nat :: i != place ==> LoanEven(b.nodes, i, Budget, 0)
  }

  lemma BalancesElsewhere(b: Books, home: Home, share: Class, due: nat, place: nat)
    requires Balances(b, home, share, due)
    requires home == Lent(place) || due == 0
    ensures BalancesBut(b, place)
  {
    forall c ensures ShareEven(b.ledger.held, b.nodes, c, Lent(place), Intake, 0) {
      assert ShareEven(b.ledger.held, b.nodes, c, home, share, due);
    }
    forall i: nat | i != place ensures LoanEven(b.nodes, i, Budget, 0) {
      assert LoanEven(b.nodes, i, home, due);
    }
  }

  /** Once the reservation at `place` holds `less` fewer bytes, they are due to its home. */
  lemma HoldingLess(b: Books, place: nat, node: Node, less: nat)
    requires BalancesBut(b, place)
    requires place < |b.nodes| && b.nodes[place].Live? && node.Live?
    requires node.home == b.nodes[place].home && node.share == b.nodes[place].share
    requires b.nodes[place].loan.Some? ==> node.loan.Some?
    requires node.bytes + less == b.nodes[place].bytes
    requires LoanEven(b.nodes[place := node], place, Budget, 0)
    ensures Balances(b.(nodes := b.nodes[place := node]), node.home, node.share, less)
  {
    var nodes := b.nodes[place := node];
    LoanIsHomed(b.nodes, place, node);
    forall c ensures ShareEven(b.ledger.held, nodes, c, node.home, node.share, less) {
      assert ShareEven(b.ledger.held, b.nodes, c, Lent(place), Intake, 0);
      HoldingOwes(b.nodes, place, node, Budget, c);
    }
    assert HomedAt(b.nodes, place);
    forall i: nat ensures LoanEven(nodes, i, node.home, less) {
      if i != place && IsLent(nodes, i) {
        assert LoanEven(b.nodes, i, Budget, 0);
        HoldingOwes(b.nodes, place, node, Lent(i), nodes[i].share);
      }
    }
  }

  lemma NothingIsDue(b: Books, home: Home, share: Class)
    requires Balances(b, home, share, 0)
    ensures Balances(b, Budget, Intake, 0)
  {
    forall c ensures ShareEven(b.ledger.held, b.nodes, c, Budget, Intake, 0) {
      assert ShareEven(b.ledger.held, b.nodes, c, home, share, 0);
    }
    forall i: nat ensures LoanEven(b.nodes, i, Budget, 0) {
      assert LoanEven(b.nodes, i, home, 0);
    }
  }

  /** Bytes that come back to a reservation that still lends may be lent again. */
  lemma ReturningToALoan(b: Books, place: nat, due: nat)
    requires IsLent(b.nodes, place) && Balances(b, Lent(place), b.nodes[place].share, due)
    requires !b.nodes[place].loan.value.closed
    ensures Balances(Returned(b, Lent(place), b.nodes[place].share, due), Budget, Intake, 0)
  {
    var lent := b.nodes[place];
    var node := lent.(loan := Some(lent.loan.value.(free := lent.loan.value.free + due)));
    BalancesElsewhere(b, Lent(place), lent.share, due, place);
    assert LoanEven(b.nodes, place, Lent(place), due);
    HoldingOwes(b.nodes, place, node, Lent(place), lent.share);
    assert HomedAt(b.nodes, place);
    HoldingLess(b, place, node, 0);
    NothingIsDue(b.(nodes := b.nodes[place := node]), node.home, node.share);
  }

  lemma ReturningToTheBudget(b: Books, share: Class, due: nat)
    requires Balances(b, Budget, share, due)
    ensures Balances(Returned(b, Budget, share, due), Budget, Intake, 0)
  {
    assert ShareEven(b.ledger.held, b.nodes, share, Budget, share, due);
    var held := b.ledger.held.With(share, b.ledger.held.Of(share) - due);
    forall c ensures ShareEven(held, b.nodes, c, Budget, Intake, 0) {
      assert ShareEven(b.ledger.held, b.nodes, c, Budget, share, due);
    }
    forall i: nat ensures LoanEven(b.nodes, i, Budget, 0) {
      assert LoanEven(b.nodes, i, Budget, due);
    }
    AdmittingBalances(b, b.ledger.(held := held));
  }

  /** Once a lending is closed, what comes back to it goes on to where it was lent from. */
  lemma ReturningThroughALoan(b: Books, place: nat, due: nat)
    requires IsLent(b.nodes, place) && Balances(b, Lent(place), b.nodes[place].share, due)
    requires b.nodes[place].loan.value.closed
    ensures due <= b.nodes[place].bytes
    ensures var lent := b.nodes[place];
            var b' := b.(nodes := b.nodes[place := lent.(bytes := lent.bytes - due)]);
            && Balances(b', lent.home, lent.share, due)
            && Returned(b, Lent(place), lent.share, due)
               == if due == 0 then b' else Returned(b', lent.home, lent.share, due)
  {
    var lent := b.nodes[place];
    BalancesElsewhere(b, Lent(place), lent.share, due, place);
    assert LoanEven(b.nodes, place, Lent(place), due);
    var node := lent.(bytes := lent.bytes - due);
    HoldingOwes(b.nodes, place, node, Lent(place), lent.share);
    assert HomedAt(b.nodes, place);
    HoldingLess(b, place, node, due);
  }

  /** Whether every holder that bytes on their way back are subtracted from holds them: the budget's share,
      and each closed lending before it. */
  ghost predicate HasRoom(b: Books, home: Home, share: Class, due: nat)
    requires Homed(b.nodes) && IsHome(b.nodes, home, share)
    decreases Rank(home)
  {
    match home
    case Budget => due <= b.ledger.held.Of(share)
    case Lent(place) =>
      var lent := b.nodes[place];
      lent.loan.value.closed ==>
        && due <= lent.bytes
        && var nodes := b.nodes[place := lent.(bytes := lent.bytes - due)];
           LoanIsHomed(b.nodes, place, nodes[place]);
           assert HomedAt(nodes, place);
           (due > 0 ==> HasRoom(b.(nodes := nodes), lent.home, lent.share, due))
  }

  /** Whatever is on its way back arrives, no subtraction on the way saturating, and the books balance. */
  lemma {:induction false} ReturningBalances(b: Books, home: Home, share: Class, due: nat)
    requires Balances(b, home, share, due)
    ensures HasRoom(b, home, share, due)
    ensures Balances(Returned(b, home, share, due), Budget, Intake, 0)
    decreases Rank(home)
  {
    if home.Budget? {
      assert ShareEven(b.ledger.held, b.nodes, share, Budget, share, due);
      ReturningToTheBudget(b, share, due);
    } else if !b.nodes[home.place].loan.value.closed {
      ReturningToALoan(b, home.place, due);
    } else {
      ReturningThroughALoan(b, home.place, due);
      var lent := b.nodes[home.place];
      var b' := b.(nodes := b.nodes[home.place := lent.(bytes := lent.bytes - due)]);
      assert HomedAt(b.nodes, home.place);
      if due > 0 {
        ReturningBalances(b', lent.home, lent.share, due);
      } else {
        NothingIsDue(b', lent.home, lent.share);
      }
    }
  }

  lemma ReleasingIsSound(l: Ledger, share: Class, bytes: nat)
    requires Sound(l)
    ensures Sound(Admitted(l.(held := l.held.With(share, Less(l.held.Of(share), bytes)))))
  {
    var left := l.(held := l.held.With(share, Less(l.held.Of(share), bytes)));
    forall c ensures InTurn(left, c) {
      assert InTurn(l, c);
    }
    AdmittingIsSound(left);
  }

  lemma {:induction false} ReturningIsSound(b: Books, home: Home, share: Class, bytes: nat)
    requires Homed(b.nodes) && IsHome(b.nodes, home, share) && Sound(b.ledger)
    ensures Sound(Returned(b, home, share, bytes).ledger)
    decreases Rank(home)
  {
    if home.Budget? {
      ReleasingIsSound(b.ledger, share, bytes);
    } else {
      var lent := b.nodes[home.place];
      var kept := Less(lent.bytes, bytes);
      if lent.loan.value.closed && kept != lent.bytes {
        var nodes := b.nodes[home.place := lent.(bytes := kept)];
        ExtensionsAreHomed(b.nodes, nodes);
        assert HomedAt(nodes, home.place);
        ReturningIsSound(b.(nodes := nodes), lent.home, share, lent.bytes - kept);
      }
    }
  }

  // ----- Orphans -----

  /** Reservations that keep their homes, and lendings that keep their handles, orphan none. */
  lemma OrphansNone(before: seq<Node>, after: seq<Node>, home: Home)
    requires NoOrphan(before, home) && |before| <= |after|
    requires forall i | 0 <= i < |before| && before[i].Live? :: after[i].Live? && after[i].home == before[i].home
    requires forall i: nat | IsLent(after, i) && home != Lent(i) ::
               after[i].loan.value.handles > 0 || (IsLent(before, i) && before[i].loan.value.handles == 0)
    ensures NoOrphan(after, home)
  {
    forall place: nat ensures KeptFor(after, place, home) {
      assert KeptFor(before, place, home);
      if IsLent(after, place) && home != Lent(place) && after[place].loan.value.handles == 0 {
        var part :| 0 <= part < |before| && before[part].Live? && before[part].home == Lent(place);
        assert after[part].home == Lent(place);
      }
    }
  }

  lemma ExtensionsOrphanNone(before: seq<Node>, after: seq<Node>, home: Home)
    requires Extends(before, after) && NoOrphan(before, home)
    ensures NoOrphan(after, home)
  {
    forall place: nat ensures KeptFor(after, place, home) {
      assert KeptFor(before, place, home) && ExtendsAt(before, after, place);
      if IsLent(after, place) && home != Lent(place) && after[place].loan.value.handles == 0 {
        var part :| 0 <= part < |before| && before[part].Live? && before[part].home == Lent(place);
        assert ExtendsAt(before, after, part);
      }
    }
  }

  /** A reservation that goes leaves no orphan but, maybe, the one it was a part of. */
  lemma GoingOrphansItsHome(nodes: seq<Node>, place: nat, home: Home)
    requires place < |nodes| && nodes[place].Live? && NoOrphan(nodes, home)
    requires home.Budget? || home == Lent(place)
    ensures NoOrphan(nodes[place := Gone], nodes[place].home)
  {
    var after := nodes[place := Gone];
    forall i: nat ensures KeptFor(after, i, nodes[place].home) {
      assert KeptFor(nodes, i, home);
      if IsLent(after, i) && nodes[place].home != Lent(i) && nodes[i].loan.value.handles == 0 {
        var part :| 0 <= part < |nodes| && nodes[part].Live? && nodes[part].home == Lent(i);
        assert after[part] == nodes[part];
      }
    }
  }

  // ----- Each change keeps it -----

  /** A reservation that goes, with no part left, owes its home all it holds. */
  lemma GoingOwesAll(b: Books, place: nat)
    requires Balances(b, Budget, Intake, 0) && place < |b.nodes| && b.nodes[place].Live?
    requires forall i | 0 <= i < |b.nodes| && b.nodes[i].Live? :: b.nodes[i].home != Lent(place)
    ensures var gone := b.nodes[place];
            Balances(b.(nodes := b.nodes[place := Gone]), gone.home, gone.share, gone.bytes)
  {
    var gone := b.nodes[place];
    var nodes := b.nodes[place := Gone];
    GoneIsHomed(b.nodes, place);
    forall c ensures ShareEven(b.ledger.held, nodes, c, gone.home, gone.share, gone.bytes) {
      assert ShareEven(b.ledger.held, b.nodes, c, Budget, Intake, 0);
      OwedOnce(b.nodes, place, Gone, Budget, c);
    }
    forall i: nat ensures LoanEven(nodes, i, gone.home, gone.bytes) {
      assert LoanEven(b.nodes, i, Budget, 0);
      if IsLent(nodes, i) {
        OwedOnce(b.nodes, place, Gone, Lent(i), nodes[i].share);
      }
    }
  }

  lemma {:induction false} SweepingKeeps(b: Books, home: Home)
    requires Balances(b, Budget, Intake, 0) && Sound(b.ledger) && NoOrphan(b.nodes, home)
    requires home.Lent? ==> IsLent(b.nodes, home.place)
    ensures Inv(Swept(b, home))
    decreases Rank(home)
  {
    if home.Budget? {
    } else if Referenced(b.nodes, home.place) {
      forall i: nat ensures KeptFor(b.nodes, i, Budget) {
        assert KeptFor(b.nodes, i, home);
      }
    } else {
      GoingKeeps(b, home.place, home);
      var lent := b.nodes[home.place];
      var gone := b.(nodes := b.nodes[home.place := Gone]);
      assert HomedAt(b.nodes, home.place);
      var returned := Returned(gone, lent.home, lent.share, lent.bytes);
      assert lent.home.Lent? ==> ExtendsAt(gone.nodes, returned.nodes, lent.home.place);
      SweepingKeeps(returned, lent.home);
    }
  }

  /** A reservation that goes, its bytes back where they came from, leaves the books balanced. */
  lemma GoingKeeps(b: Books, place: nat, home: Home)
    requires Balances(b, Budget, Intake, 0) && Sound(b.ledger) && NoOrphan(b.nodes, home)
    requires place < |b.nodes| && b.nodes[place].Live? && (home.Budget? || home == Lent(place))
    requires forall i | 0 <= i < |b.nodes| && b.nodes[i].Live? :: b.nodes[i].home != Lent(place)
    ensures Homed(b.nodes[place := Gone])
    ensures var gone := b.nodes[place];
            && IsHome(b.nodes[place := Gone], gone.home, gone.share)
            && var r := Returned(b.(nodes := b.nodes[place := Gone]), gone.home, gone.share, gone.bytes);
               Balances(r, Budget, Intake, 0) && Sound(r.ledger) && NoOrphan(r.nodes, gone.home)
  {
    var gone := b.nodes[place];
    GoneIsHomed(b.nodes, place);
    GoingOwesAll(b, place);
    GoingOrphansItsHome(b.nodes, place, home);
    var b' := b.(nodes := b.nodes[place := Gone]);
    ReturningBalances(b', gone.home, gone.share, gone.bytes);
    ReturningIsSound(b', gone.home, gone.share, gone.bytes);
    ExtensionsOrphanNone(b'.nodes, Returned(b', gone.home, gone.share, gone.bytes).nodes, gone.home);
  }

  lemma DroppingKeeps(b: Books, place: nat)
    requires Inv(b) && IsHeld(b.nodes, place)
    ensures Inv(Dropped(b, place))
  {
    var held := b.nodes[place];
    HeldHasNoParts(b.nodes, place);
    GoingKeeps(b, place, Budget);
    var gone := b.(nodes := b.nodes[place := Gone]);
    var returned := Returned(gone, held.home, held.share, held.bytes);
    assert held.home.Lent? ==> ExtendsAt(gone.nodes, returned.nodes, held.home.place);
    SweepingKeeps(returned, held.home);
  }

  lemma ShrinkingKeeps(b: Books, place: nat, bytes: nat)
    requires Inv(b) && IsHeld(b.nodes, place)
    ensures Inv(Shrunk(b, place, bytes))
  {
    var held := b.nodes[place];
    if bytes < held.bytes {
      var node, less := held.(bytes := bytes), held.bytes - bytes;
      BalancesElsewhere(b, Budget, Intake, 0, place);
      HoldingLess(b, place, node, less);
      var b' := b.(nodes := b.nodes[place := node]);
      ReturningBalances(b', held.home, held.share, less);
      ReturningIsSound(b', held.home, held.share, less);
      ExtensionsOrphanNone(b.nodes, b'.nodes, Budget);
      ExtensionsOrphanNone(b'.nodes, Returned(b', held.home, held.share, less).nodes, Budget);
    }
  }

  /** A new reservation beside those there were, its bytes the ledger's or its lending's. */
  lemma OneMoreIsHomed(nodes: seq<Node>, node: Node)
    requires Homed(nodes) && node.Live? && node.loan.None? && IsHome(nodes, node.home, node.share)
    ensures Homed(nodes + [node])
  {
    forall i: nat ensures HomedAt(nodes + [node], i) {
      assert HomedAt(nodes, i);
    }
  }

  lemma GrantingKeeps(b: Books, share: Class, bytes: nat)
    requires Even(b)
    ensures Even(Books(Reserved(b.ledger, share, bytes), b.nodes + [Live(Budget, share, bytes, None)]))
  {
    var node := Live(Budget, share, bytes, None);
    var held, nodes := Reserved(b.ledger, share, bytes).held, b.nodes + [node];
    OneMoreIsHomed(b.nodes, node);
    OrphansNone(b.nodes, nodes, Budget);
    forall c ensures ShareEven(held, nodes, c, Budget, Intake, 0) {
      assert ShareEven(b.ledger.held, b.nodes, c, Budget, Intake, 0);
      OwedOneMore(b.nodes, node, Budget, c);
    }
    forall i: nat ensures LoanEven(nodes, i, Budget, 0) {
      assert LoanEven(b.nodes, i, Budget, 0);
      if IsLent(nodes, i) {
        OwedOneMore(b.nodes, node, Lent(i), nodes[i].share);
      }
    }
  }

  lemma AskingKeeps(b: Books, share: Class, bytes: nat)
    requires Inv(b)
    ensures Inv(Asked(b, share, bytes))
  {
    if bytes <= Limit(b.ledger.shares, share) {
      if MayReserve(b.ledger, share, bytes) {
        ReservingIsSound(b.ledger, share, bytes);
        GrantingKeeps(b, share, bytes);
      } else if share != Read {
        QueueingIsSound(b.ledger, share, bytes);
      }
    }
  }

  lemma SplittingOwesNothing(nodes: seq<Node>, place: nat, part: nat, home: Home, share: Class)
    requires IsHeld(nodes, place) && part <= nodes[place].bytes
    ensures var held := nodes[place];
            Owed(nodes[place := held.(bytes := held.bytes - part)] + [held.(bytes := part)], home, share)
            == Owed(nodes, home, share)
  {
    var held := nodes[place];
    var left := held.(bytes := held.bytes - part);
    OwedOneMore(nodes[place := left], held.(bytes := part), home, share);
    HoldingOwes(nodes, place, left, home, share);
  }

  /** Two reservations in place of one, holding its bytes between them. */
  lemma SplittingKeeps(b: Books, place: nat, bytes: nat)
    requires Even(b) && IsHeld(b.nodes, place)
    ensures Even(Split(b, place, bytes))
  {
    var held := b.nodes[place];
    var part := Min(bytes, held.bytes);
    var left := held.(bytes := held.bytes - part);
    var r := Split(b, place, bytes);
    assert HomedAt(b.nodes, place);
    LoanIsHomed(b.nodes, place, left);
    OneMoreIsHomed(b.nodes[place := left], held.(bytes := part));
    OrphansNone(b.nodes, r.nodes, Budget);
    forall c ensures ShareEven(r.ledger.held, r.nodes, c, Budget, Intake, 0) {
      assert ShareEven(b.ledger.held, b.nodes, c, Budget, Intake, 0);
      SplittingOwesNothing(b.nodes, place, part, Budget, c);
    }
    forall i: nat ensures LoanEven(r.nodes, i, Budget, 0) {
      assert LoanEven(b.nodes, i, Budget, 0);
      if IsLent(r.nodes, i) {
        SplittingOwesNothing(b.nodes, place, part, Lent(i), b.nodes[i].share);
      }
    }
  }

  lemma LendingKeeps(b: Books, place: nat)
    requires Even(b) && IsHeld(b.nodes, place)
    ensures Even(LentOut(b, place))
  {
    var r := LentOut(b, place);
    var node := r.nodes[place];
    HeldHasNoParts(b.nodes, place);
    OwedNothing(b.nodes, Lent(place), node.share);
    HoldingOwes(b.nodes, place, node, Lent(place), node.share);
    assert HomedAt(b.nodes, place);
    BalancesElsewhere(b, Budget, Intake, 0, place);
    HoldingLess(b, place, node, 0);
    NothingIsDue(r, node.home, node.share);
    OrphansNone(b.nodes, r.nodes, Budget);
  }

  lemma TakingIsOwedToTheLoan(nodes: seq<Node>, place: nat, left: Node, bytes: nat, home: Home, share: Class)
    requires IsLent(nodes, place) && left.Live?
    requires left.home == nodes[place].home && left.share == nodes[place].share && left.bytes == nodes[place].bytes
    ensures Owed(nodes[place := left] + [Live(Lent(place), left.share, bytes, None)], home, share)
         == Owed(nodes, home, share) + if home == Lent(place) && share == left.share then bytes else 0
  {
    OwedOneMore(nodes[place := left], Live(Lent(place), left.share, bytes, None), home, share);
    HoldingOwes(nodes, place, left, home, share);
  }

  lemma TakingKeeps(b: Books, place: nat, bytes: nat)
    requires Even(b) && IsLent(b.nodes, place)
    ensures Even(Took(b, place, bytes))
  {
    var lent := b.nodes[place];
    if bytes <= lent.loan.value.free {
      var left := lent.(loan := Some(lent.loan.value.(free := lent.loan.value.free - bytes)));
      var r := Took(b, place, bytes);
      LoanIsHomed(b.nodes, place, left);
      OneMoreIsHomed(b.nodes[place := left], Live(Lent(place), lent.share, bytes, None));
      OrphansNone(b.nodes, r.nodes, Budget);
      forall c ensures ShareEven(r.ledger.held, r.nodes, c, Budget, Intake, 0) {
        assert ShareEven(b.ledger.held, b.nodes, c, Budget, Intake, 0);
        TakingIsOwedToTheLoan(b.nodes, place, left, bytes, Budget, c);
      }
      forall i: nat ensures LoanEven(r.nodes, i, Budget, 0) {
        assert LoanEven(b.nodes, i, Budget, 0);
        if IsLent(r.nodes, i) {
          TakingIsOwedToTheLoan(b.nodes, place, left, bytes, Lent(i), b.nodes[i].share);
        }
      }
    }
  }

  /** A lending as it closes. */
  function Shut(lent: Node): Node
    requires lent.Live? && lent.loan.Some? && lent.loan.value.free <= lent.bytes
  {
    lent.(bytes := lent.bytes - lent.loan.value.free, loan := Some(lent.loan.value.(free := 0, closed := true)))
  }

  lemma ShuttingBalances(b: Books, place: nat)
    requires Balances(b, Budget, Intake, 0) && IsLent(b.nodes, place)
    ensures var lent := b.nodes[place];
            && lent.loan.value.free <= lent.bytes
            && Balances(b.(nodes := b.nodes[place := Shut(lent)]), lent.home, lent.share, lent.loan.value.free)
  {
    var lent := b.nodes[place];
    assert LoanEven(b.nodes, place, Budget, 0);
    HoldingOwes(b.nodes, place, Shut(lent), Lent(place), lent.share);
    assert HomedAt(b.nodes, place);
    BalancesElsewhere(b, Budget, Intake, 0, place);
    HoldingLess(b, place, Shut(lent), lent.loan.value.free);
  }

  /** A lending that closes gives back what no part holds, which it holds, and each part as it is released. */
  lemma ClosingKeeps(b: Books, place: nat)
    requires Inv(b) && IsLent(b.nodes, place)
    ensures b.nodes[place].loan.value.free <= b.nodes[place].bytes
    ensures Inv(Closed(b, place))
  {
    ShuttingBalances(b, place);
    var lent := b.nodes[place];
    var free := lent.loan.value.free;
    var b' := b.(nodes := b.nodes[place := Shut(lent)]);
    OrphansNone(b.nodes, b'.nodes, Budget);
    if free > 0 {
      ReturningBalances(b', lent.home, lent.share, free);
      ReturningIsSound(b', lent.home, lent.share, free);
      ExtensionsOrphanNone(b'.nodes, Returned(b', lent.home, lent.share, free).nodes, Budget);
    } else {
      NothingIsDue(b', lent.home, lent.share);
    }
  }

  lemma HandlesBalance(b: Books, place: nat, handles: nat)
    requires Balances(b, Budget, Intake, 0) && IsLent(b.nodes, place)
    ensures Balances(b.(nodes := WithHandles(b.nodes, place, handles)), Budget, Intake, 0)
  {
    var node := WithHandles(b.nodes, place, handles)[place];
    assert LoanEven(b.nodes, place, Budget, 0);
    HoldingOwes(b.nodes, place, node, Lent(place), node.share);
    assert HomedAt(b.nodes, place);
    BalancesElsewhere(b, Budget, Intake, 0, place);
    HoldingLess(b, place, node, 0);
    NothingIsDue(b.(nodes := WithHandles(b.nodes, place, handles)), node.home, node.share);
  }

  lemma HandlesOrphanAtMost(nodes: seq<Node>, place: nat, handles: nat, home: Home)
    requires NoOrphan(nodes, Budget) && IsLent(nodes, place)
    requires home == Lent(place) || handles > 0
    ensures NoOrphan(WithHandles(nodes, place, handles), home)
  {
    forall i: nat ensures KeptFor(nodes, i, home) {
      assert KeptFor(nodes, i, Budget);
    }
    OrphansNone(nodes, WithHandles(nodes, place, handles), home);
  }

  lemma UnheardIsSound(l: Ledger, id: nat)
    requires Sound(l)
    ensures Sound(l.(queues := QueuesWith(l.queues, q => Unheard(q, id))))
  {
    var l' := l.(queues := QueuesWith(l.queues, q => Unheard(q, id)));
    forall c ensures InTurn(l', c) {
      assert InTurn(l, c);
      var q, q' := l.queues.Of(c), l'.queues.Of(c);
      assert |q'| == |q| && forall i | 0 <= i < |q| :: q'[i].id == q[i].id;
    }
  }

  lemma {:induction false} ForgottenAscends(waiters: seq<Waiter>, below: nat, id: nat)
    requires Ascending(waiters, below)
    ensures Ascending(Forgotten(waiters, id), below)
  {
    if waiters != [] {
      ForgottenAscends(waiters[1..], below, id);
      var rest := Forgotten(waiters[1..], id);
      if waiters[0].id != id {
        forall k | 0 <= k < |rest| ensures waiters[0].id < rest[k].id {
          assert rest[k] in waiters[1..];
        }
      }
    }
  }

  lemma ForgottenInTurn(waiters: seq<Waiter>, log: seq<Grant>, arrivals: nat, share: Class, id: nat)
    requires Turn(waiters, log, arrivals, share)
    ensures Turn(Forgotten(waiters, id), log, arrivals, share)
  {
    ForgottenAscends(waiters, arrivals, id);
    var left := Forgotten(waiters, id);
    forall i, k | 0 <= i < |log| && log[i].share == share && 0 <= k < |left| ensures log[i].id < left[k].id {
      assert left[k] in waiters;
    }
  }

  lemma ForgettingIsSound(l: Ledger, id: nat)
    requires Sound(l)
    ensures Sound(Admitted(l.(queues := QueuesWith(l.queues, q => Forgotten(q, id)))))
  {
    var left := l.(queues := QueuesWith(l.queues, q => Forgotten(q, id)));
    forall c ensures InTurn(left, c) {
      assert InTurn(l, c);
      ForgottenInTurn(l.queues.Of(c), l.log, l.arrivals, c, id);
    }
    AdmittingIsSound(left);
  }

  lemma ForgettingKeeps(b: Books, id: nat)
    requires Even(b)
    ensures Even(Made(b, Forgetting(id)))
  {
    var left := b.ledger.(queues := QueuesWith(b.ledger.queues, q => Forgotten(q, id)));
    AdmittingBalances(b, left);
    ExtensionsOrphanNone(b.nodes, Admitting(b, left).nodes, Budget);
  }

  lemma FreeingKeeps(b: Books, place: nat)
    requires Inv(b) && Enabled(b, Freeing(place))
    ensures Inv(Made(b, Freeing(place)))
  {
    var handles := b.nodes[place].loan.value.handles - 1;
    HandlesBalance(b, place, handles);
    HandlesOrphanAtMost(b.nodes, place, handles, Lent(place));
    SweepingKeeps(b.(nodes := WithHandles(b.nodes, place, handles)), Lent(place));
  }

  /** Every change keeps the books balanced, the shares within their bounds and the queue in turn. */
  lemma ChangeKeeps(b: Books, change: Change)
    requires Inv(b) && Enabled(b, change)
    ensures Inv(Made(b, change))
  {
    match change
    case Asking(share, bytes) => AskingKeeps(b, share, bytes);
    case Quitting(id) => UnheardIsSound(b.ledger, id);
    case Forgetting(id) =>
      ForgettingIsSound(b.ledger, id);
      ForgettingKeeps(b, id);
    case Shrinking(place, bytes) => ShrinkingKeeps(b, place, bytes);
    case Splitting(place, bytes) => SplittingKeeps(b, place, bytes);
    case Lending(place) => LendingKeeps(b, place);
    case Taking(place, bytes) => TakingKeeps(b, place, bytes);
    case Closing(place) => ClosingKeeps(b, place);
    case Cloning(place) =>
      HandlesBalance(b, place, b.nodes[place].loan.value.handles + 1);
      HandlesOrphanAtMost(b.nodes, place, b.nodes[place].loan.value.handles + 1, Budget);
    case Freeing(place) => FreeingKeeps(b, place);
    case Dropping(place) => DroppingKeeps(b, place);
  }

  // ----- Every history -----

  /** The books of a budget of `capacity` bytes after `changes`, in order, those not possible when
      they come apart: balanced, within their shares, and in turn, whatever they were. */
  function After(capacity: nat, changes: seq<Change>): (b: Books)
    ensures Inv(b) && b.ledger.shares == SharesOf(capacity)
  {
    if changes == [] then
      NewBooksAreEven(capacity);
      Books(Empty(capacity), [])
    else
      var b := After(capacity, changes[..|changes| - 1]);
      var change := changes[|changes| - 1];
      if !Enabled(b, change) then b
      else
        ChangeKeeps(b, change);
        Made(b, change)
  }

  lemma NewBooksAreEven(capacity: nat)
    ensures Inv(Books(Empty(capacity), []))
  {
    var b := Books(Empty(capacity), []);
    assert forall c :: ShareEven(b.ledger.held, b.nodes, c, Budget, Intake, 0);
    assert forall i: nat :: HomedAt([], i) && LoanEven([], i, Budget, 0) && KeptFor([], i, Budget);
  }

  /** The budget is never exceeded. */
  lemma NeverExceededInAnyHistory(capacity: nat, changes: seq<Change>)
    ensures After(capacity, changes).ledger.held.Total() <= capacity
  {
    NeverExceeded(After(capacity, changes).ledger, capacity);
  }

  /** Whether every reservation was dropped, and every handle on a lent one. */
  ghost predicate AllLetGo(nodes: seq<Node>) {
    forall i | 0 <= i < |nodes| && nodes[i].Live? :: nodes[i].loan.Some? && nodes[i].loan.value.handles == 0
  }

  lemma PartsComeLater(nodes: seq<Node>, place: nat)
    requires Homed(nodes)
    ensures forall i | 0 <= i < |nodes| && nodes[i].Live? && nodes[i].home == Lent(place) :: place < i
  {
    forall i | 0 <= i < |nodes| && nodes[i].Live? && nodes[i].home == Lent(place) ensures place < i {
      assert HomedAt(nodes, i);
    }
  }

  lemma {:induction false} NoneIsLeft(nodes: seq<Node>, from: nat)
    requires Homed(nodes) && NoOrphan(nodes, Budget) && AllLetGo(nodes) && from <= |nodes|
    ensures forall i | from <= i < |nodes| :: nodes[i].Gone?
    decreases |nodes| - from
  {
    if from < |nodes| {
      NoneIsLeft(nodes, from + 1);
      assert KeptFor(nodes, from, Budget);
      PartsComeLater(nodes, from);
    }
  }

  /** Once every reservation and every handle is dropped, in whatever order, every byte is back: no
      lending is left, and the ledger holds nothing. */
  lemma DroppingEverythingReturnsEveryByte(b: Books)
    requires Even(b) && AllLetGo(b.nodes)
    ensures b.ledger.held.Total() == 0 && forall i | 0 <= i < |b.nodes| :: b.nodes[i].Gone?
  {
    NoneIsLeft(b.nodes, 0);
    forall c ensures b.ledger.held.Of(c) == 0 {
      OwedNothing(b.nodes, Budget, c);
      assert ShareEven(b.ledger.held, b.nodes, c, Budget, Intake, 0);
    }
    assert b.ledger.held.Of(Intake) == b.ledger.held.Of(Work) == b.ledger.held.Of(Cursor) == 0;
    assert b.ledger.held.Of(Tables) == b.ledger.held.Of(Read) == b.ledger.held.Of(Control) == 0;
  }

  /** What a lending's parts hold is within what it lent, and a request of no more than that fits once
      its parts are back, unless it is closed. */
  lemma TakesFitOncePartsAreBack(b: Books, place: nat, bytes: nat)
    requires Even(b) && IsLent(b.nodes, place) && !b.nodes[place].loan.value.closed
    requires bytes <= b.nodes[place].loan.value.total
    requires forall i | 0 <= i < |b.nodes| && b.nodes[i].Live? :: b.nodes[i].home != Lent(place)
    ensures |Took(b, place, bytes).nodes| == |b.nodes| + 1
  {
    assert LoanEven(b.nodes, place, Budget, 0);
    OwedNothing(b.nodes, Lent(place), b.nodes[place].share);
  }

  /** Once a lending is closed, a part of it is taken exactly where it is a part of no bytes. */
  lemma ClosedLendsNoByte(b: Books, place: nat, bytes: nat)
    requires Even(b) && IsLent(b.nodes, place) && b.nodes[place].loan.value.closed
    ensures |Took(b, place, bytes).nodes| > |b.nodes| <==> bytes == 0
  {
    assert LoanEven(b.nodes, place, Budget, 0);
  }

  lemma {:induction false} ReturningLeavesHolders(b: Books, home: Home, share: Class, bytes: nat, i: nat)
    requires Homed(b.nodes) && IsHome(b.nodes, home, share) && IsHeld(b.nodes, i)
    ensures i < |Returned(b, home, share, bytes).nodes|
    ensures Returned(b, home, share, bytes).nodes[i] == b.nodes[i]
    decreases Rank(home)
  {
    if home.Lent? {
      var lent := b.nodes[home.place];
      var kept := Less(lent.bytes, bytes);
      if lent.loan.value.closed && kept != lent.bytes {
        var nodes := b.nodes[home.place := lent.(bytes := kept)];
        ExtensionsAreHomed(b.nodes, nodes);
        assert HomedAt(nodes, home.place);
        ReturningLeavesHolders(b.(nodes := nodes), lent.home, share, lent.bytes - kept, i);
      }
    }
  }

  lemma {:induction false} SweepingLeavesHolders(b: Books, home: Home, i: nat)
    requires Homed(b.nodes) && (home.Lent? ==> IsLent(b.nodes, home.place)) && IsHeld(b.nodes, i)
    ensures i < |Swept(b, home).nodes| && Swept(b, home).nodes[i] == b.nodes[i]
    decreases Rank(home)
  {
    if home.Lent? && !Referenced(b.nodes, home.place) {
      var lent := b.nodes[home.place];
      GoneIsHomed(b.nodes, home.place);
      assert HomedAt(b.nodes, home.place);
      var gone := b.(nodes := b.nodes[home.place := Gone]);
      var r := Returned(gone, lent.home, lent.share, lent.bytes);
      ReturningLeavesHolders(gone, lent.home, lent.share, lent.bytes, i);
      assert lent.home.Lent? ==> ExtendsAt(gone.nodes, r.nodes, lent.home.place);
      SweepingLeavesHolders(r, lent.home, i);
    }
  }

  /** The reservation a change is made to, if any. */
  function Touched(change: Change): Option<nat> {
    match change
    case Asking(_, _) => None
    case Quitting(_) => None
    case Forgetting(_) => None
    case Shrinking(place, _) => Some(place)
    case Splitting(place, _) => Some(place)
    case Lending(place) => Some(place)
    case Taking(place, _) => Some(place)
    case Closing(place) => Some(place)
    case Cloning(place) => Some(place)
    case Freeing(place) => Some(place)
    case Dropping(place) => Some(place)
  }

  /** No change of one holder's takes a byte of another's reservation. */
  lemma OtherHoldersKeepTheirBytes(b: Books, change: Change, i: nat)
    requires Homed(b.nodes) && Enabled(b, change) && IsHeld(b.nodes, i) && Touched(change) != Some(i)
    ensures i < |Made(b, change).nodes| && Made(b, change).nodes[i] == b.nodes[i]
  {
    match change
    case Shrinking(place, bytes) =>
      var held := b.nodes[place];
      if bytes < held.bytes {
        var nodes := b.nodes[place := held.(bytes := bytes)];
        LoanIsHomed(b.nodes, place, nodes[place]);
        ReturningLeavesHolders(b.(nodes := nodes), held.home, held.share, held.bytes - bytes, i);
      }
    case Closing(place) =>
      var lent := b.nodes[place];
      var kept := Less(lent.bytes, lent.loan.value.free);
      if kept != lent.bytes {
        var node := lent.(bytes := kept, loan := Some(lent.loan.value.(free := 0, closed := true)));
        LoanIsHomed(b.nodes, place, node);
        ReturningLeavesHolders(b.(nodes := b.nodes[place := node]), lent.home, lent.share, lent.bytes - kept, i);
      }
    case Freeing(place) =>
      var nodes := WithHandles(b.nodes, place, b.nodes[place].loan.value.handles - 1);
      LoanIsHomed(b.nodes, place, nodes[place]);
      SweepingLeavesHolders(b.(nodes := nodes), Lent(place), i);
    case Dropping(place) =>
      var held := b.nodes[place];
      HeldHasNoParts(b.nodes, place);
      GoneIsHomed(b.nodes, place);
      var gone := b.(nodes := b.nodes[place := Gone]);
      var r := Returned(gone, held.home, held.share, held.bytes);
      ReturningLeavesHolders(gone, held.home, held.share, held.bytes, i);
      assert held.home.Lent? ==> ExtendsAt(gone.nodes, r.nodes, held.home.place);
      SweepingLeavesHolders(r, held.home, i);
    case _ =>
  }
}
