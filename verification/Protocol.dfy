/** The commit protocol as a step system: sessions that read, stage, seal and commit; a destination
    that fences them; and commits delivered late, again, out of order or never.

    A partition's source is its rows by index, so a row is its partition and its index, and a
    partition's cursor is the index it resumes at. */
module Protocol {
  import opened Wrappers
  import opened Landed

  type Cursors = map<nat, nat>

  /** Where `partition` resumes: at its first row before anything of it is committed. */
  function CursorOf(cursors: Cursors, partition: nat): nat {
    if partition in cursors then cursors[partition] else 0
  }

  datatype Row = Row(partition: nat, index: nat)

  /** A staged row: the epoch and segment that name it, and, for the proofs, the fence epoch it was staged
      under. */
  datatype StagedRow = StagedRow(epoch: nat, segment: nat, under: nat, row: Row)

  datatype Meta = Meta(
    key: CommitKey,
    after: Option<CommitKey>,
    segments: set<nat>,
    abandoned: set<nat>,
    delta: Cursors)

  /** The segment a partition's read fills: the rows from `first` up to `next` are in it. */
  datatype OpenSegment = OpenSegment(id: nat, first: nat, next: nat)

  datatype Session = Session(
    alive: bool,
    key: CommitKey,            // the next commit's
    after: Option<CommitKey>,  // what the next commit will ask to have landed
    base: Cursors,             // the cursors committed as of `after`
    pending: Option<Meta>,     // the commit in flight
    sealed: set<nat>,          // segments no commit took yet
    moved: Cursors,            // where those seals stand their partitions
    reading: map<nat, OpenSegment>,
    abandoned: set<nat>,
    unused: nat)                // the next segment id

  datatype World = World(
    fence: Fence,
    cursors: Cursors,          // the committed state
    staging: seq<StagedRow>,
    published: seq<StagedRow>,
    sessions: map<nat, Session>,
    messages: set<Meta>,       // every commit ever sent: any may be delivered, at any time, again
    answers: set<Receipt>)

  const Start := World(Fence(0, None), map[], [], [], map[], {}, {})

  datatype Step =
    | Opening(epoch: nat)
    | Discarding(epoch: nat)
    | Starting(epoch: nat, partition: nat)
    | Writing(epoch: nat, partition: nat)
    | Sealing(epoch: nat, partition: nat)
    | Abandoning(epoch: nat, partition: nat)
    | Committing(epoch: nat)
    | Delivering(meta: Meta)
    | Answering(epoch: nat)
    | Crashing(epoch: nat)

  /** The rows of `rows` staged at `epoch` in `segments`. */
  function Selected(rows: seq<StagedRow>, epoch: nat, segments: set<nat>): seq<StagedRow> {
    if rows == [] then []
    else
      var last := rows[|rows| - 1];
      var rest := Selected(rows[..|rows| - 1], epoch, segments);
      if last.epoch == epoch && last.segment in segments then rest + [last] else rest
  }

  /** The rows of `rows` but those staged at `epoch` in `segments`. */
  function Without(rows: seq<StagedRow>, epoch: nat, segments: set<nat>): seq<StagedRow> {
    if rows == [] then []
    else
      var last := rows[|rows| - 1];
      var rest := Without(rows[..|rows| - 1], epoch, segments);
      if last.epoch == epoch && last.segment in segments then rest else rest + [last]
  }

  /** The rows of `rows` staged at `epoch` or later. */
  function Since(rows: seq<StagedRow>, epoch: nat): seq<StagedRow> {
    if rows == [] then []
    else
      var last := rows[|rows| - 1];
      var rest := Since(rows[..|rows| - 1], epoch);
      if last.epoch < epoch then rest else rest + [last]
  }

  /** How many of `rows` are `row`. */
  function Copies(rows: seq<StagedRow>, row: Row): nat {
    if rows == [] then 0
    else Copies(rows[..|rows| - 1], row) + if rows[|rows| - 1].row == row then 1 else 0
  }

  predicate Alive(w: World, epoch: nat) {
    epoch in w.sessions && w.sessions[epoch].alive
  }

  /** The cursors a session's commits, the one in flight among them, leave. */
  function Taken(session: Session): Cursors {
    if session.pending.Some? then session.base + session.pending.value.delta else session.base
  }

  predicate Enabled(w: World, step: Step) {
    match step
    case Opening(epoch) => w.fence.epoch < epoch
    case Discarding(epoch) => Alive(w, epoch)
    case Starting(epoch, p) =>
      // A partition is read from where the commits that landed stand it.
      Alive(w, epoch) && var s := w.sessions[epoch];
      p !in s.reading && p !in s.moved && (s.pending.Some? ==> p !in s.pending.value.delta)
    case Writing(epoch, p) => Alive(w, epoch) && p in w.sessions[epoch].reading
    case Sealing(epoch, p) => Alive(w, epoch) && p in w.sessions[epoch].reading
    case Abandoning(epoch, p) => Alive(w, epoch) && p in w.sessions[epoch].reading
    case Committing(epoch) => Alive(w, epoch) && w.sessions[epoch].pending.None?
    case Delivering(meta) => meta in w.messages
    case Answering(epoch) =>
      Alive(w, epoch) && var s := w.sessions[epoch];
      s.pending.Some? && exists receipt :: receipt in w.answers && receipt.key == s.pending.value.key
    case Crashing(epoch) => Alive(w, epoch)
  }

  function WithSession(w: World, epoch: nat, session: Session): World {
    w.(sessions := w.sessions[epoch := session])
  }

  function Opened(w: World, epoch: nat): World {
    var session := Session(true, CommitKey(epoch, 1), w.fence.LandedKey(), w.cursors, None, {}, map[],
                           map[], {}, 1);
    WithSession(w.(fence := w.fence.(epoch := epoch)), epoch, session)
  }

  function Started(s: Session, p: nat): Session {
    var first := CursorOf(s.base, p);
    s.(reading := s.reading[p := OpenSegment(s.unused, first, first)], unused := s.unused + 1)
  }

  function Written(w: World, epoch: nat, p: nat): World
    requires Enabled(w, Writing(epoch, p))
  {
    var s := w.sessions[epoch];
    var open := s.reading[p];
    var staged := StagedRow(epoch, open.id, w.fence.epoch, Row(p, open.next));
    WithSession(w.(staging := w.staging + [staged]), epoch,
                s.(reading := s.reading[p := open.(next := open.next + 1)]))
  }

  /** The session once the segment `p` fills is sealed; an empty one is no segment to publish. */
  function Sealed(s: Session, p: nat): Session
    requires p in s.reading
  {
    var open := s.reading[p];
    s.(sealed := if open.first < open.next then s.sealed + {open.id} else s.sealed,
       moved := s.moved[p := open.next],
       reading := s.reading[p := OpenSegment(s.unused, open.next, open.next)],
       unused := s.unused + 1)
  }

  function Abandoned(s: Session, p: nat): Session
    requires p in s.reading
  {
    s.(abandoned := s.abandoned + {s.reading[p].id}, reading := s.reading - {p})
  }

  function Committed(w: World, epoch: nat): World
    requires Enabled(w, Committing(epoch))
  {
    var s := w.sessions[epoch];
    var meta := Meta(s.key, s.after, s.sealed, s.abandoned, s.moved);
    WithSession(w.(messages := w.messages + {meta}), epoch,
                s.(pending := Some(meta), sealed := {}, moved := map[], abandoned := {}))
  }

  /** A commit applied in one step: rows out of staging, cursors, and the receipt that lands its key. */
  function Applied(w: World, meta: Meta): World {
    var rows := Selected(w.staging, meta.key.epoch, meta.segments);
    var receipt := Receipt(meta.key, |rows|);
    w.(fence := w.fence.(landed := Some(receipt)),
       cursors := w.cursors + meta.delta,
       staging := Without(w.staging, meta.key.epoch, meta.segments + meta.abandoned),
       published := w.published + rows,
       answers := w.answers + {receipt})
  }

  function Delivered(w: World, meta: Meta): World {
    match AnswerTo(w.fence, meta.key, meta.after)
    case Landed(receipt) => w.(answers := w.answers + {receipt})
    case Fenced => w
    case Stale => w
    case Apply => Applied(w, meta)
  }

  /** The session once its commit in flight is acknowledged. */
  function Answered(s: Session): Session
    requires s.pending.Some?
  {
    s.(key := s.key.(place := s.key.place + 1), after := Some(s.pending.value.key),
       base := s.base + s.pending.value.delta, pending := None)
  }

  function Next(w: World, step: Step): World
    requires Enabled(w, step)
  {
    match step
    case Opening(epoch) => Opened(w, epoch)
    case Discarding(epoch) => w.(staging := Since(w.staging, epoch))
    case Starting(epoch, p) => WithSession(w, epoch, Started(w.sessions[epoch], p))
    case Writing(epoch, p) => Written(w, epoch, p)
    case Sealing(epoch, p) => WithSession(w, epoch, Sealed(w.sessions[epoch], p))
    case Abandoning(epoch, p) => WithSession(w, epoch, Abandoned(w.sessions[epoch], p))
    case Committing(epoch) => Committed(w, epoch)
    case Delivering(meta) => Delivered(w, meta)
    case Answering(epoch) => WithSession(w, epoch, Answered(w.sessions[epoch]))
    case Crashing(epoch) => WithSession(w, epoch, w.sessions[epoch].(alive := false))
  }

  /** Worlds a run of `steps` goes through, from the start. */
  ghost predicate IsRun(worlds: seq<World>, steps: seq<Step>) {
    && |worlds| == |steps| + 1
    && worlds[0] == Start
    && forall i | 0 <= i < |steps| :: Enabled(worlds[i], steps[i]) && worlds[i + 1] == Next(worlds[i], steps[i])
  }
}
