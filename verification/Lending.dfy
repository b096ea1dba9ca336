/** Reservations that may themselves be lent in parts, to any depth: one node each, at the place it was made,
    and what each change makes of all of them. */
module Lending {
  import opened Wrappers
  import opened Common
  import opened Ledger

  /** Whom a reservation owes its bytes. */
  datatype Home = Budget | Lent(place: nat)

  /** What a reservation lends: `total` bytes at first, of which no part holds `free`, to the
      `handles` that may take parts of it. */
  datatype Loan = Loan(total: nat, free: nat, closed: bool, handles: nat)

  /** A reservation, held by its holder or lent in parts; or one whose bytes went back. */
  datatype Node = Gone | Live(home: Home, share: Class, bytes: nat, loan: Option<Loan>)

  datatype Books = Books(ledger: Ledger, nodes: seq<Node>)

  /** Whether a reservation is there, and not lent. */
  predicate IsHeld(nodes: seq<Node>, place: nat) {
    place < |nodes| && nodes[place].Live? && nodes[place].loan.None?
  }

  predicate IsLent(nodes: seq<Node>, place: nat) {
    place < |nodes| && nodes[place].Live? && nodes[place].loan.Some?
  }

  /** Whether `home` is one reservations of a class may go back to. */
  predicate IsHome(nodes: seq<Node>, home: Home, share: Class) {
    home.Lent? ==> IsLent(nodes, home.place) && nodes[home.place].share == share
  }

  /** Whether the reservation at `place` is of the budget, or a part of one made before it, of its
      class. */
  predicate HomedAt(nodes: seq<Node>, place: nat) {
    place < |nodes| && nodes[place].Live? ==>
      && IsHome(nodes, nodes[place].home, nodes[place].share)
      && (nodes[place].home.Lent? ==> nodes[place].home.place < place)
  }

  ghost predicate Homed(nodes: seq<Node>) {
    forall place: nat :: HomedAt(nodes, place)
  }

  /** How far from the budget `home` is. */
  function Rank(home: Home): nat { if home.Budget? then 0 else home.place + 1 }

  /** The reservations requests admitted from the queue are given. */
  function Handed(grants: seq<Grant>): (nodes: seq<Node>)
    ensures |nodes| == |grants|
    ensures forall i | 0 <= i < |nodes| :: nodes[i] == Live(Budget, grants[i].share, grants[i].bytes, None)
  {
    seq(|grants|, i requires 0 <= i < |grants| => Live(Budget, grants[i].share, grants[i].bytes, None))
  }

  /** The books once the ledger admits whoever fits, each given its reservation. */
  function Admitting(b: Books, ledger: Ledger): Books {
    var admitted := Admitted(ledger);
    Books(admitted, b.nodes + Handed(admitted.log[|ledger.log|..]))
  }

  /** Whether two reservations differ in nothing but the bytes they hold. */
  predicate Alike(a: Node, b: Node) {
    match a
    case Gone => b.Gone?
    case Live(home, share, _, loan) =>
      && b.Live? && b.home == home && b.share == share && b.loan.Some? == loan.Some?
      && (loan.Some? ==>
            b.loan.value.total == loan.value.total && b.loan.value.closed == loan.value.closed
            && b.loan.value.handles == loan.value.handles)
  }

  /** Whether the reservation at `place` is as it was but for the bytes it holds, or a new one of the
      budget. */
  predicate ExtendsAt(before: seq<Node>, after: seq<Node>, place: nat) {
    && (place < |before| ==> place < |after| && Alike(before[place], after[place]))
    && (|before| <= place < |after| ==>
          after[place].Live? && after[place].home == Budget && after[place].loan.None?)
  }

  ghost predicate Extends(before: seq<Node>, after: seq<Node>) {
    |before| <= |after| && forall place: nat :: ExtendsAt(before, after, place)
  }

  lemma ExtensionsAreHomed(before: seq<Node>, after: seq<Node>)
    requires Extends(before, after) && Homed(before)
    ensures Homed(after)
  {
    forall place: nat ensures HomedAt(after, place) {
      assert HomedAt(before, place) && ExtendsAt(before, after, place);
      if place < |before| && before[place].Live? && before[place].home.Lent? {
        assert ExtendsAt(before, after, before[place].home.place);
      }
    }
  }

  /** The books once `bytes` go back to `home`: into the budget, or, of a lending, to be lent again
      or, once it is closed, on to where it was lent from. */
  function Returned(b: Books, home: Home, share: Class, bytes: nat): (r: Books)
    requires Homed(b.nodes) && IsHome(b.nodes, home, share)
    ensures Extends(b.nodes, r.nodes) && Homed(r.nodes) && r.ledger.shares == b.ledger.shares
    decreases Rank(home)
  {
    match home
    case Budget =>
      var left := b.ledger.(held := b.ledger.held.With(share, Less(b.ledger.held.Of(share), bytes)));
      var r := Admitting(b, left);
      ExtensionsAreHomed(b.nodes, r.nodes);
      r
    case Lent(place) =>
      var lent := b.nodes[place];
      var loan := lent.loan.value;
      if !loan.closed then
        var nodes := b.nodes[place := lent.(loan := Some(loan.(free := loan.free + bytes)))];
        ExtensionsAreHomed(b.nodes, nodes);
        b.(nodes := nodes)
      else
        var kept := Less(lent.bytes, bytes);
        var nodes := b.nodes[place := lent.(bytes := kept)];
        ExtensionsAreHomed(b.nodes, nodes);
        assert HomedAt(nodes, place);
        if kept == lent.bytes then b.(nodes := nodes)
        else
          var r := Returned(b.(nodes := nodes), lent.home, share, lent.bytes - kept);
          ExtensionsExtend(b.nodes, nodes, r.nodes);
          r
  }

  lemma ExtensionsExtend(a: seq<Node>, b: seq<Node>, c: seq<Node>)
    requires Extends(a, b) && Extends(b, c)
    ensures Extends(a, c)
  {
    forall place: nat ensures ExtendsAt(a, c, place) {
      assert ExtendsAt(a, b, place) && ExtendsAt(b, c, place);
    }
  }

  /** Whether a part of the reservation lent at `place` is left, or a handle on it. */
  predicate Referenced(nodes: seq<Node>, place: nat)
    requires IsLent(nodes, place)
  {
    || nodes[place].loan.value.handles > 0
    || exists i | 0 <= i < |nodes| :: nodes[i].Live? && nodes[i].home == Lent(place)
  }

  lemma GoneIsHomed(nodes: seq<Node>, place: nat)
    requires Homed(nodes) && place < |nodes| && nodes[place].Live?
    requires forall i | 0 <= i < |nodes| && nodes[i].Live? :: nodes[i].home != Lent(place)
    ensures Homed(nodes[place := Gone]) && IsHome(nodes[place := Gone], nodes[place].home, nodes[place].share)
  {
    var after := nodes[place := Gone];
    assert HomedAt(nodes, place);
    forall i: nat ensures HomedAt(after, i) {
      assert HomedAt(nodes, i);
    }
  }

  lemma HeldHasNoParts(nodes: seq<Node>, place: nat)
    requires Homed(nodes) && IsHeld(nodes, place)
    ensures forall i | 0 <= i < |nodes| && nodes[i].Live? :: nodes[i].home != Lent(place)
  {
    forall i | 0 <= i < |nodes| && nodes[i].Live? ensures nodes[i].home != Lent(place) {
      assert HomedAt(nodes, i);
    }
  }

  /** The books once a lent reservation that nothing refers to any more goes, and those it was the
      last part of. */
  function Swept(b: Books, home: Home): (r: Books)
    requires Homed(b.nodes) && (home.Lent? ==> IsLent(b.nodes, home.place))
    ensures Homed(r.nodes) && r.ledger.shares == b.ledger.shares
    decreases Rank(home)
  {
    if home.Budget? || Referenced(b.nodes, home.place) then b
    else
      var lent := b.nodes[home.place];
      GoneIsHomed(b.nodes, home.place);
      var gone := b.(nodes := b.nodes[home.place := Gone]);
      var r := Returned(gone, lent.home, lent.share, lent.bytes);
      assert HomedAt(b.nodes, home.place);
      assert lent.home.Lent? ==> ExtendsAt(gone.nodes, r.nodes, lent.home.place);
      Swept(r, lent.home)
  }

  // ----- What a holder does -----

  datatype Change =
    | Asking(share: Class, bytes: nat)   // a request: admitted at once, refused, or left waiting
    | Quitting(id: nat)                  // nobody waits for the request any more
    | Forgetting(id: nat)                // its place among those waiting is given up
    | Shrinking(place: nat, bytes: nat)
    | Splitting(place: nat, bytes: nat)
    | Lending(place: nat)
    | Taking(place: nat, bytes: nat)
    | Closing(place: nat)
    | Cloning(place: nat)                // one more handle on a lent reservation
    | Freeing(place: nat)                // one handle fewer
    | Dropping(place: nat)

  predicate Enabled(b: Books, change: Change) {
    match change
    case Asking(_, _) => true
    case Quitting(_) => true
    case Forgetting(_) => true
    case Shrinking(place, _) => IsHeld(b.nodes, place)
    case Splitting(place, _) => IsHeld(b.nodes, place)
    case Lending(place) => IsHeld(b.nodes, place)
    case Taking(place, _) => IsLent(b.nodes, place) && b.nodes[place].loan.value.handles > 0
    case Closing(place) => IsLent(b.nodes, place) && b.nodes[place].loan.value.handles > 0
    case Cloning(place) => IsLent(b.nodes, place) && b.nodes[place].loan.value.handles > 0
    case Freeing(place) => IsLent(b.nodes, place) && b.nodes[place].loan.value.handles > 0
    case Dropping(place) => IsHeld(b.nodes, place)
  }

  /** A request: refused where no wait could admit it, or for what reads keep where it does not fit;
      given its reservation where it may be reserved now; else left waiting. */
  function Asked(b: Books, share: Class, bytes: nat): Books {
    if bytes > Limit(b.ledger.shares, share) then b
    else if MayReserve(b.ledger, share, bytes) then
      Books(Reserved(b.ledger, share, bytes), b.nodes + [Live(Budget, share, bytes, None)])
    else if share == Read then b
    else b.(ledger := Queued(b.ledger, share, bytes))
  }

  function QueuesWith(queues: Queues, f: seq<Waiter> -> seq<Waiter>): Queues {
    Queues(f(queues.cursors), f(queues.tables), f(queues.control), f(queues.work), f(queues.intake))
  }

  function Shrunk(b: Books, place: nat, bytes: nat): (r: Books)
    requires Homed(b.nodes) && place < |b.nodes| && b.nodes[place].Live?
    ensures Homed(r.nodes)
  {
    var held := b.nodes[place];
    if bytes >= held.bytes then b
    else
      var nodes := b.nodes[place := held.(bytes := bytes)];
      ExtensionsAreHomed(b.nodes, nodes);
      assert HomedAt(nodes, place);
      Returned(b.(nodes := nodes), held.home, held.share, held.bytes - bytes)
  }

  function Split(b: Books, place: nat, bytes: nat): Books
    requires IsHeld(b.nodes, place)
  {
    var held := b.nodes[place];
    var part := Min(bytes, held.bytes);
    b.(nodes := b.nodes[place := held.(bytes := held.bytes - part)] + [held.(bytes := part)])
  }

  function LentOut(b: Books, place: nat): Books
    requires IsHeld(b.nodes, place)
  {
    var held := b.nodes[place];
    b.(nodes := b.nodes[place := held.(loan := Some(Loan(held.bytes, held.bytes, false, 1)))])
  }

  /** A part taken where no other part holds its bytes; nothing otherwise. */
  function Took(b: Books, place: nat, bytes: nat): Books
    requires IsLent(b.nodes, place)
  {
    var lent := b.nodes[place];
    var loan := lent.loan.value;
    if bytes > loan.free then b
    else
      b.(nodes := b.nodes[place := lent.(loan := Some(loan.(free := loan.free - bytes)))]
                  + [Live(Lent(place), lent.share, bytes, None)])
  }

  /** A lending once it closes: its free bytes are gone from it, on their way home. */
  function Closed(b: Books, place: nat): Books
    requires Homed(b.nodes) && IsLent(b.nodes, place)
  {
    var lent := b.nodes[place];
    var kept := Less(lent.bytes, lent.loan.value.free);
    var nodes := b.nodes[place := lent.(bytes := kept, loan := Some(lent.loan.value.(free := 0, closed := true)))];
    LoanIsHomed(b.nodes, place, nodes[place]);
    if kept == lent.bytes then b.(nodes := nodes)
    else Returned(b.(nodes := nodes), lent.home, lent.share, lent.bytes - kept)
  }

  /** A change of a reservation's bytes and loan leaves every home where it was. */
  lemma LoanIsHomed(nodes: seq<Node>, place: nat, node: Node)
    requires Homed(nodes) && place < |nodes| && nodes[place].Live? && node.Live?
    requires node.home == nodes[place].home && node.share == nodes[place].share
    requires nodes[place].loan.Some? ==> node.loan.Some?
    ensures Homed(nodes[place := node]) && IsHome(nodes[place := node], node.home, node.share)
  {
    var after := nodes[place := node];
    forall i: nat ensures HomedAt(after, i) {
      assert HomedAt(nodes, i);
    }
    assert HomedAt(after, place);
  }

  function WithHandles(nodes: seq<Node>, place: nat, handles: nat): seq<Node>
    requires IsLent(nodes, place)
  {
    nodes[place := nodes[place].(loan := Some(nodes[place].loan.value.(handles := handles)))]
  }

  function Dropped(b: Books, place: nat): Books
    requires Homed(b.nodes) && IsHeld(b.nodes, place)
  {
    var held := b.nodes[place];
    HeldHasNoParts(b.nodes, place);
    GoneIsHomed(b.nodes, place);
    var gone := b.(nodes := b.nodes[place := Gone]);
    var r := Returned(gone, held.home, held.share, held.bytes);
    assert held.home.Lent? ==> ExtendsAt(gone.nodes, r.nodes, held.home.place);
    Swept(r, held.home)
  }

  function Made(b: Books, change: Change): Books
    requires Homed(b.nodes) && Enabled(b, change)
  {
    match change
    case Asking(share, bytes) => Asked(b, share, bytes)
    case Quitting(id) => b.(ledger := b.ledger.(queues := QueuesWith(b.ledger.queues, q => Unheard(q, id))))
    case Forgetting(id) =>
      Admitting(b, b.ledger.(queues := QueuesWith(b.ledger.queues, q => Forgotten(q, id))))
    case Shrinking(place, bytes) => Shrunk(b, place, bytes)
    case Splitting(place, bytes) => Split(b, place, bytes)
    case Lending(place) => LentOut(b, place)
    case Taking(place, bytes) => Took(b, place, bytes)
    case Closing(place) => Closed(b, place)
    case Cloning(place) => b.(nodes := WithHandles(b.nodes, place, b.nodes[place].loan.value.handles + 1))
    case Freeing(place) =>
      var handles := b.nodes[place].loan.value.handles - 1;
      LoanIsHomed(b.nodes, place, WithHandles(b.nodes, place, handles)[place]);
      Swept(b.(nodes := WithHandles(b.nodes, place, handles)), Lent(place))
    case Dropping(place) => Dropped(b, place)
  }

  /** A reservation shrunk is the difference on its way home. */
  lemma ShrunkIsReturned(b: Books, place: nat, bytes: nat)
    requires Homed(b.nodes) && IsHeld(b.nodes, place) && bytes < b.nodes[place].bytes
    ensures var held := b.nodes[place];
            var less := b.(nodes := b.nodes[place := held.(bytes := bytes)]);
            && Homed(less.nodes) && IsHome(less.nodes, held.home, held.share)
            && Made(b, Shrinking(place, bytes)) == Returned(less, held.home, held.share, held.bytes - bytes)
  {
    var held := b.nodes[place];
    LoanIsHomed(b.nodes, place, held.(bytes := bytes));
    assert HomedAt(b.nodes[place := held.(bytes := bytes)], place);
  }
}
