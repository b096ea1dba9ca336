/** The accounts of a memory budget: bytes held per share, queues per class, and in which turn a queue moves. */
module Ledger {
  import opened Wrappers
  import opened Common

  datatype Class = Intake | Work | Cursor | Tables | Read | Control

  /** The limits of a budget. */
  datatype Shares = Shares(
    cursors: nat, tables: nat, kept: nat, control: nat, data: nat, request: nat, intake: nat, piece: nat)

  const CURSOR_SHARE: nat := 64
  const TABLE_SHARE: nat := 32
  const READ_SHARE: nat := 4
  const CONTROL_SHARE: nat := 16
  const REQUEST_SHARE: nat := 4
  const PIECE_SHARE: nat := 16
  const MIN_PIECE: nat := 65536

  /** A capacity divided into limits: nothing of it is lost, intake and the largest request make up the data
      exactly, each limit is its part of the capacity to the byte, and no limit plus a request within it overflows
      64 bits. */
  function SharesOf(capacity: nat): (shares: Shares)
    ensures shares.cursors + shares.tables + shares.kept + shares.control + shares.data == capacity
    ensures shares.intake + shares.request == shares.data && shares.piece <= shares.request
    ensures 0 <= capacity - 64 * shares.cursors < 64 && 0 <= capacity - 32 * shares.tables < 32
    ensures 0 <= capacity - 4 * shares.kept < 4 && 0 <= capacity - 16 * shares.control < 16
    ensures 0 <= capacity - 4 * shares.request < 4
    ensures capacity <= U64_MAX ==>
              && 2 * shares.intake <= U64_MAX && shares.data + shares.request <= U64_MAX
              && 2 * shares.cursors <= U64_MAX && 2 * shares.tables <= U64_MAX
              && 2 * shares.kept <= U64_MAX && 2 * shares.control <= U64_MAX
              && shares.data < U64_MAX
  {
    var cursors, tables, kept, control :=
      capacity / CURSOR_SHARE, capacity / TABLE_SHARE, capacity / READ_SHARE, capacity / CONTROL_SHARE;
    var data := capacity - cursors - tables - kept - control;
    var request := Min(capacity / REQUEST_SHARE, data);
    Shares(cursors, tables, kept, control, data, request, data - request,
           Min(Max(capacity / PIECE_SHARE, MIN_PIECE), request))
  }

  /** Bytes held, by class. */
  datatype Held = Held(intake: nat, work: nat, cursors: nat, tables: nat, kept: nat, control: nat) {
    function Of(share: Class): nat {
      match share
      case Intake => intake
      case Work => work
      case Cursor => cursors
      case Tables => tables
      case Read => kept
      case Control => control
    }

    function With(share: Class, bytes: nat): Held {
      match share
      case Intake => this.(intake := bytes)
      case Work => this.(work := bytes)
      case Cursor => this.(cursors := bytes)
      case Tables => this.(tables := bytes)
      case Read => this.(kept := bytes)
      case Control => this.(control := bytes)
    }

    function Total(): nat { intake + work + cursors + tables + kept + control }
  }

  /** A request waiting for room, and whether anyone still waits for it. */
  datatype Waiter = Waiter(id: nat, bytes: nat, listening: bool)

  /** A queue for each class but reads, whose requests are answered at once. */
  datatype Queues = Queues(
    cursors: seq<Waiter>, tables: seq<Waiter>, control: seq<Waiter>, work: seq<Waiter>, intake: seq<Waiter>)
  {
    function Of(share: Class): seq<Waiter> {
      match share
      case Intake => intake
      case Work => work
      case Cursor => cursors
      case Tables => tables
      case Read => []
      case Control => control
    }

    function With(share: Class, waiters: seq<Waiter>): Queues {
      match share
      case Intake => this.(intake := waiters)
      case Work => this.(work := waiters)
      case Cursor => this.(cursors := waiters)
      case Tables => this.(tables := waiters)
      case Read => this
      case Control => this.(control := waiters)
    }

    function Count(): nat { |cursors| + |tables| + |control| + |work| + |intake| }
  }

  /** A request admitted: its class, its place in arrival order, and its bytes. */
  datatype Grant = Grant(share: Class, id: nat, bytes: nat)

  /** The ledger; `arrivals` counts the requests made so far, and `log` is those admitted. */
  datatype Ledger = Ledger(shares: Shares, held: Held, queues: Queues, arrivals: nat, log: seq<Grant>)

  function Empty(capacity: nat): Ledger {
    Ledger(SharesOf(capacity), Held(0, 0, 0, 0, 0, 0), Queues([], [], [], [], []), 0, [])
  }

  /** The most one request of a class may take. */
  function Limit(shares: Shares, share: Class): nat {
    match share
    case Intake => shares.intake
    case Work => shares.request
    case Cursor => shares.cursors
    case Tables => shares.tables
    case Read => shares.kept
    case Control => shares.control
  }

  /** Whether so many more bytes of a class keep its limit. */
  predicate Fits(shares: Shares, held: Held, share: Class, bytes: nat) {
    match share
    case Intake => held.intake + bytes <= shares.intake && held.intake + held.work + bytes <= shares.data
    case Work => held.intake + held.work + bytes <= shares.data
    case Cursor => held.cursors + bytes <= shares.cursors
    case Tables => held.tables + bytes <= shares.tables
    case Read => held.kept + bytes <= shares.kept
    case Control => held.control + bytes <= shares.control
  }

  /** Whether a request is granted without a wait: it keeps its limit and passes nobody whose turn is first. */
  predicate MayReserve(l: Ledger, share: Class, bytes: nat) {
    && l.queues.Of(share) == []
    && (share == Intake ==> l.queues.work == [])
    && Fits(l.shares, l.held, share, bytes)
  }

  function Reserved(l: Ledger, share: Class, bytes: nat): Ledger {
    l.(held := l.held.With(share, l.held.Of(share) + bytes), arrivals := l.arrivals + 1,
       log := l.log + [Grant(share, l.arrivals, bytes)])
  }

  function Queued(l: Ledger, share: Class, bytes: nat): Ledger {
    l.(queues := l.queues.With(share, l.queues.Of(share) + [Waiter(l.arrivals, bytes, true)]),
       arrivals := l.arrivals + 1)
  }

  /** Whether the first request waiting for a class fits. */
  predicate FrontFits(l: Ledger, share: Class) {
    l.queues.Of(share) != [] && Fits(l.shares, l.held, share, l.queues.Of(share)[0].bytes)
  }

  /** Whose front goes next, if anyone's: classes take turns in a fixed order, those that do not fit are
      skipped, and intake yields to any waiting work. */
  function Next(l: Ledger): Option<Class> {
    if FrontFits(l, Cursor) then Some(Cursor)
    else if FrontFits(l, Tables) then Some(Tables)
    else if FrontFits(l, Control) then Some(Control)
    else if FrontFits(l, Work) then Some(Work)
    else if l.queues.work != [] then None
    else if FrontFits(l, Intake) then Some(Intake)
    else None
  }

  /** Whether the first request waiting for a class, if any, has to wait: it does not fit, or it is a push and
      lowering waits. */
  predicate HasToWait(l: Ledger, share: Class) {
    !FrontFits(l, share) || (share == Intake && l.queues.work != [])
  }

  lemma NoneIsNext(l: Ledger, share: Class)
    requires Next(l).None?
    ensures HasToWait(l, share)
  {
  }

  /** The ledger once the first request waiting for `share` leaves its queue, admitted where
      someone waits for it. */
  function Popped(l: Ledger, share: Class): Ledger
    requires l.queues.Of(share) != []
  {
    var front := l.queues.Of(share)[0];
    var left := l.(queues := l.queues.With(share, l.queues.Of(share)[1..]));
    if front.listening then
      left.(held := l.held.With(share, l.held.Of(share) + front.bytes),
            log := l.log + [Grant(share, front.id, front.bytes)])
    else left
  }

  lemma PoppingShrinks(l: Ledger, share: Class)
    requires l.queues.Of(share) != []
    ensures Popped(l, share).queues.Count() == l.queues.Count() - 1
  {
  }

  /** The ledger once waiting requests are admitted while the first of a share fits. */
  function Admitted(l: Ledger): (admitted: Ledger)
    ensures l.log <= admitted.log && admitted.shares == l.shares && admitted.arrivals == l.arrivals
    decreases l.queues.Count()
  {
    match Next(l)
    case None => l
    case Some(share) => PoppingShrinks(l, share); Admitted(Popped(l, share))
  }

  function Forgotten(waiters: seq<Waiter>, id: nat): (left: seq<Waiter>)
    ensures forall waiter | waiter in left :: waiter in waiters && waiter.id != id
    ensures forall waiter | waiter in waiters && waiter.id != id :: waiter in left
  {
    if waiters == [] then []
    else
      var rest := Forgotten(waiters[1..], id);
      if waiters[0].id == id then rest else [waiters[0]] + rest
  }

  function Unheard(waiters: seq<Waiter>, id: nat): seq<Waiter> {
    seq(|waiters|, i requires 0 <= i < |waiters| =>
      if waiters[i].id == id then waiters[i].(listening := false) else waiters[i])
  }

  // ----- What every ledger keeps -----

  /** No share holds more than it may. */
  ghost predicate Within(shares: Shares, held: Held) {
    && held.intake <= shares.intake
    && held.intake + held.work <= shares.data
    && held.cursors <= shares.cursors
    && held.tables <= shares.tables
    && held.kept <= shares.kept
    && held.control <= shares.control
  }

  ghost predicate Ascending(waiters: seq<Waiter>, below: nat) {
    && (forall i, j | 0 <= i < j < |waiters| :: waiters[i].id < waiters[j].id)
    && (forall waiter | waiter in waiters :: waiter.id < below)
  }

  /** The requests of one class: those admitted in arrival order, and those waiting after them. */
  ghost predicate Turn(waiters: seq<Waiter>, log: seq<Grant>, arrivals: nat, share: Class) {
    && Ascending(waiters, arrivals)
    && (forall i, j | 0 <= i < j < |log| && log[i].share == log[j].share == share :: log[i].id < log[j].id)
    && (forall i | 0 <= i < |log| && log[i].share == share :: log[i].id < arrivals)
    && (forall i, k | 0 <= i < |log| && log[i].share == share && 0 <= k < |waiters| ::
          log[i].id < waiters[k].id)
  }

  ghost predicate InTurn(l: Ledger, share: Class) {
    Turn(l.queues.Of(share), l.log, l.arrivals, share)
  }

  /** Within its shares, in arrival order, and with no request left waiting that may be admitted. */
  ghost predicate Sound(l: Ledger) {
    && Within(l.shares, l.held)
    && (forall share :: InTurn(l, share))
    && Next(l) == None
  }

  lemma ReservingKeepsTurn(l: Ledger, share: Class, bytes: nat, other: Class)
    requires InTurn(l, other) && l.queues.Of(share) == []
    ensures InTurn(Reserved(l, share, bytes), other)
  {
  }

  lemma ReservingIsSound(l: Ledger, share: Class, bytes: nat)
    requires Sound(l) && MayReserve(l, share, bytes)
    ensures Sound(Reserved(l, share, bytes))
  {
    forall other ensures InTurn(Reserved(l, share, bytes), other) {
      ReservingKeepsTurn(l, share, bytes, other);
    }
  }

  lemma QueueingKeepsTurn(l: Ledger, share: Class, bytes: nat, other: Class)
    requires InTurn(l, other)
    ensures InTurn(Queued(l, share, bytes), other)
  {
    var l' := Queued(l, share, bytes);
    if other == share && share != Read {
      var old_, new_ := l.queues.Of(share), l'.queues.Of(share);
      assert new_ == old_ + [Waiter(l.arrivals, bytes, true)];
    }
  }

  lemma QueueingIsSound(l: Ledger, share: Class, bytes: nat)
    requires Sound(l) && !MayReserve(l, share, bytes)
    ensures Sound(Queued(l, share, bytes))
  {
    forall other ensures InTurn(Queued(l, share, bytes), other) {
      QueueingKeepsTurn(l, share, bytes, other);
    }
    if l.queues.Of(share) != [] {
      assert Queued(l, share, bytes).queues.Of(share)[0] == l.queues.Of(share)[0] || share == Read;
    }
  }

  lemma TurnOfTheNext(waiters: seq<Waiter>, log: seq<Grant>, arrivals: nat, share: Class, grant: Grant)
    requires Turn(waiters, log, arrivals, share) && waiters != []
    requires grant.share == share && grant.id == waiters[0].id
    ensures Turn(waiters[1..], log, arrivals, share)
    ensures Turn(waiters[1..], log + [grant], arrivals, share)
  {
  }

  lemma TurnOfOthers(waiters: seq<Waiter>, log: seq<Grant>, arrivals: nat, share: Class, grant: Grant)
    requires Turn(waiters, log, arrivals, share) && grant.share != share
    ensures Turn(waiters, log + [grant], arrivals, share)
  {
  }

  lemma PoppingKeepsTurn(l: Ledger, share: Class, other: Class)
    requires InTurn(l, other) && l.queues.Of(share) != []
    ensures InTurn(Popped(l, share), other)
  {
    var front := l.queues.Of(share)[0];
    var grant := Grant(share, front.id, front.bytes);
    if other == share {
      TurnOfTheNext(l.queues.Of(share), l.log, l.arrivals, share, grant);
    } else {
      TurnOfOthers(l.queues.Of(other), l.log, l.arrivals, other, grant);
    }
  }

  /** Admitting keeps every share within its bounds and every class in turn, and leaves no request
      waiting that may be admitted. */
  lemma {:induction false} AdmittingIsSound(l: Ledger)
    requires Within(l.shares, l.held) && forall share :: InTurn(l, share)
    ensures Sound(Admitted(l))
    decreases l.queues.Count()
  {
    if Next(l).Some? {
      var share := Next(l).value;
      PoppingShrinks(l, share);
      forall other ensures InTurn(Popped(l, share), other) {
        PoppingKeepsTurn(l, share, other);
      }
      AdmittingIsSound(Popped(l, share));
    }
  }

  /** Within its shares, a budget never holds more than its capacity. */
  lemma NeverExceeded(l: Ledger, capacity: nat)
    requires l.shares == SharesOf(capacity) && Within(l.shares, l.held)
    ensures l.held.Total() <= capacity
  {
  }
}
