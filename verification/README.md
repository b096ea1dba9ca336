# A verified model of rdlt's exactly-once core

rdlt is a data loader that promises to load each row exactly once. This project models the parts of it that carry
that promise, and the bookkeeping under them, in Dafny, and proves what they promise for every input, every run and
every reachable state. `dafny verify dfyconfig.toml` checks the whole of it.

## What is modelled

- **The commit protocol** (`Landed`, `Protocol`, `ProtocolProof`, `ProtocolReads`, `ProtocolStaging`,
  `ProtocolProgress`). A destination keeps one fence row of a pipeline: the newest epoch, and the receipt of the commit
  that landed last. Sessions open, read partitions, stage rows in segments, seal, abandon and commit; commits are
  delivered late, again, out of order or never; answers are lost; sessions crash. Published rows are the source's rows
  before the committed cursors, each once, at every point of every run; a commit that applies moves each cursor by the
  rows its session wrote and sealed; and from anywhere in any run the next row of any partition may be published.
- **The memory budget** (`Ledger`, `Lending`, `LendingProof`, `LendingHandles`, `LendingMoves`, `LendingRequests`,
  `LendingWaits`, `Budget`, `Taking`). Shares, queues and admission in turn, and reservations that are shrunk, split,
  lent a part at a time, lent again, closed early and dropped in any order. The books balance over any history, and no
  saturating subtraction ever saturates; every request accepted is admitted once or waits, for bytes its own class
  holds; and a lending is there while a handle or a part of it is. Requests that wait for a lending's parts are a step
  system of their own.
- **Compute slots** (`Slots`, `SlotsLetGo`). A job handed between a pool's thread, a caller that waits and a caller
  that lets it go, with each locked section one step.
- **Merging** (`Merge`, `Children`, `Changes`, `ChangesProof`, `ChangesReplayed`, `SoftChanges`, `ChangeTable`).
  Upserts by key, child tables that follow their roots, and change streams, with hard deletes or soft: what any
  history of commits leaves, exactly when histories of the same changes agree, what sending changes again does, and
  the lazy table that merges them.
- **Cutting batches** (`Cuts`), **segment sets** (`Segments`) and **the condition that selects staged rows**
  (`Staged`).
- **Schemas** (`Lattice`, `Values`, `Narrowest`, `Columns`), **projection and unchanged flags** (`Flags`,
  `Projection`), **shown text** (`Text`, `TextShown`), **kept positions** (`KeeperFile`, `Keeper`), **the partition
  channel** (`Sink`), **temporal widening** (`Instants`) and **generated partitions** (`Generator`).

## How it is modelled

Code that updates things in place is a class or a method with a loop, proved against a specification function; code that
only computes is a function; what runs concurrently is a step system whose every interleaving is covered. Clocks, files,
the network and the tokio runtime are steps or parameters: a file replace may fail either way, a caller may be polled
without being woken, a commit may be delivered at any time.

Numbers are unbounded where the source's bounds are proved not to matter, and bounded where they do: segment ids up to
`u64::MAX`, the sign bit of a bound id, the integers a temporal type stores, a row id that saturates. `SharesOf` states
that the sums the ledger makes stay within a `u64`.

A merge compares keys, ids and sequences as byte strings; here they are natural numbers, which is all an order on them
needs, and the empty string a missing maximum starts from is zero. A root row's id is a hash of its key, so the model
takes the id and the key for one. Arrow batches are rows or cells by value.

What the proofs take as given: rows measured together never cost more than apart, which is what the row meter is for
(`Cuts.Subadditive`); and a job ends with a result, which the pool's closure ensures by catching its panic.

## What does not hold, and exactly when it does

- `Lent::try_take` says a closed lending gives nothing; it gives a part of no bytes
  (`LendingProof.ClosedLendsNoByte`).
- The staged-row condition selects its segments' ids if and only if no range starts below 2⁶³ and ends at or above it
  (`Staged.SelectsItsSegments`); such a range selects none of its own ids.
- Shown text stays within its limit if and only if the limit holds the six bytes of the mark of a cut
  (`Text.LimitsThatHold`).
- A republished root has exactly its winning row's children if and only if no other row staged with its id and
  sequence has a child (`Children.WinnersChildren`, `Children.TiedRowsMixTheirChildren`); the tables hold a document
  if and only if that is so of the last commit that has it (`Children.TablesHoldTheDocuments`).
- Two commits upsert as one of both would if and only if each shared key's second winning row is of a later sequence,
  or the same row (`Merge.TwoCommitsAreOne`).
- Histories of the same changes, in whatever order, grouping and repetition, leave the same table if and only if each
  key is decided by the changes themselves. Where deletes are hard: where no truncate is past a key's last changes,
  they all delete it, or all put the same cells, none of which is left to what an earlier put sets
  (`ChangesProof.ConvergesExactlyWhenDecided`; `ChangesProof.TiedPutsDisagree` and `ChangesProof.LeftColumnsDisagree`
  are inputs that fail). Where they are soft: also, nothing removes the key past its last put, nor at its sequence
  where an earlier put could be marked (`SoftChanges.SoftConvergesExactlyWhenDecided`;
  `SoftChanges.ADeleteBeforeItsRowLeavesNoTrace` is an input that fails).
- Changes sent again change nothing where deletes are hard (`ChangesReplayed.ReplaysChangeNothing`). Where they are
  soft, if and only if no row is sequenced before a truncate sent again, or before a delete of its own key
  (`ChangesReplayed.SoftReplaysChangeNothingExactly`; `ChangesReplayed.ATruncateAtTenSentAgainMarksARowAtFive` is an
  input that fails).
- Where deletes are soft, a truncate and a change no earlier come to the same in one commit or two if and only if the
  truncate does not give the change's row the change's sequence, or the change sets just the cells the row then has
  (`ChangesReplayed.SameSequenceInALaterCommit`; `ChangesReplayed.APutAtATruncatesSequenceIsLostLater` is an input
  that fails): what tells the two apart is not stored. Of changes as the engine writes them that leaves the deletes
  (`SoftChanges.WrittenInALaterCommit`).
- A request that waits for a lending's parts may sleep on where it could be served: each return tells one waiter, and
  it may be the wrong one, or not the only one. None does where one waits at a time (`Taking.LoneTakersAreServed`),
  and, of takers of given sizes, if and only if those that wait all ask for the same, more than half of what is lent
  (`Taking.NoneSleepsOnExactly`). Once the lending closes none is served at all (`Taking.ClosedServesNone`).
- A keeper's file goes back on a position if and only if that position's write was the last, was reported failed and
  reached the file all the same, and the next write is of another partition or an earlier position
  (`Keeper.FileGoesBackExactly`; `Keeper.AnUnacknowledgedPositionMayGoBack` is such a run). It never falls behind what
  was acknowledged.
- The join of two types is said to hold every value of both. It holds one if and only if no time in it is too far for
  the join's unit (`Values.JoinHoldsExactly`; `Values.AFarTimeIsNotHeld` is an input that fails).
- The join is said to be the narrowest type that holds both. By the values types hold it is, of types that nest no
  others, if and only if they are not a whole decimal and an integer of more digits, a float of four bytes and an
  integer of at most two, or a whole decimal of at most fifteen digits and a float (`Narrowest.NarrowestExactly`;
  `Narrowest.AWiderFloatThanNeeded` is an input that fails).
- `widens` is said to keep a timestamp's zone or give it one; the code also changes one zone for another. The two
  agree if and only if no timestamp goes from one zone to another in a unit no coarser
  (`Instants.WidensAsDocumentedExactly`, `Instants.AZoneMayChange`); the nanoseconds denoted stay the same.

## Model

| member | source | states |
|---|---|---|
| `Landed.Decide` | crates/rdlt-connector/src/landed.rs:46-89 | A commit applies if and only if its epoch is the row's, the key it expects landed is, and its own is not; it gets a receipt if and only if its own key landed last, and that receipt; a refusal names why. |
| `Landed.RunsPublishEachKeyOnce` | crates/rdlt-connector/src/landed.rs:46-89 | Over any run of opens and deliveries of commits that expect a key below their own, the published keys strictly ascend, the row holds the last, and sending that one again gets its receipt; a commit delivered next changes nothing if and only if it is not answered to apply, and none whose key published is. |
| `Landed.OpeningFences` | crates/rdlt-connector/src/landed.rs:46-89 | Once a session opened, a commit of an earlier epoch publishes nothing: it gets its receipt where it landed last, and is refused as fenced otherwise. |
| `Landed.DisorderedKeysPublishTwice` | crates/rdlt-connector/src/commit.rs:159-171 | Without the order of keys the result fails: a run that publishes a key twice. |
| `ProtocolProof.NextKeeps` | crates/rdlt-connector/src/destination.rs:300-364 | Every step of the protocol, from any session, live or fenced, keeps the invariant. |
| `ProtocolProof.RunKeeps` | crates/rdlt-engine/src/attempt.rs:205-245 | The invariant holds at every point of every run. |
| `ProtocolProof.ExactlyOnce` | crates/rdlt-connector/src/destination.rs:339-354 | At every point of every run each source row before its partition's committed cursor is published once, and no other row is. |
| `ProtocolProof.OnlyTheCommitInFlightApplies` | crates/rdlt-connector/src/landed.rs:46-58 | A delivered commit that applies is the one the newest session, live or crashed, has in flight, and the key that session expects landed is the one that did. |
| `ProtocolProof.TheCommitInFlightIsAnswered` | crates/rdlt-connector/src/landed.rs:46-58 | At every point of every run the newest session's commit in flight is answered to apply or with its own receipt, never fenced and never stale. |
| `ProtocolProof.OpeningFindsWhatLanded` | crates/rdlt-engine/src/attempt.rs:299-300 | A session that opens any time after a commit applied, its answer lost or not, resumes nowhere before the cursors that commit moved, and expects it or a later one landed. |
| `ProtocolProof.RunsGoOnward` | crates/rdlt-connector/src/landed.rs:46-89 | Nothing published is taken back, no cursor moves back, and the landed key only moves to one above it. |
| `ProtocolProof.NoKeyPublishesTwice` | crates/rdlt-connector/src/landed.rs:46-58 | Of two deliveries that apply in a run, the later one's key is above the earlier's. |
| `ProtocolProof.LateRowsAreNeverPublished` | crates/rdlt-connector/src/destination.rs:360-364 | No row a session staged after a newer one opened is ever published. |
| `ProtocolReads.CommitsPublishWhatWasSealed` | crates/rdlt-engine/src/coordinator.rs:463-474 | In every run a commit that applies moves each partition's cursor to where its session had sealed the partition when it made the commit, told from the run's steps alone. |
| `ProtocolReads.CommitsPublishWhatWasWritten` | crates/rdlt-connector/src/destination.rs:339-354 | That is where the partition's cursor stood when the session last started it, plus the rows it wrote of it from then to its last seal before the commit; just the rows below that are published, once each. |
| `ProtocolReads.UnsealedStay` | crates/rdlt-engine/src/coordinator.rs:463-474 | A partition the session never sealed before the commit keeps the cursor it had when the session opened. |
| `ProtocolReads.WritesWhatWasStarted` | crates/rdlt-engine/src/coordinator.rs:425-474 | The newest session, while it lives, may write, seal or abandon a partition if and only if the run started it and has not abandoned it since. |
| `ProtocolReads.CommitsGoRound` | crates/rdlt-connector/src/destination.rs:339-354 | A live newest session with no commit in flight may commit; the commit applies when delivered, is answered, and the session may commit again, expecting that one landed. |
| `ProtocolReads.ReceiptsCountTheirRows` | crates/rdlt-connector/src/landed.rs:46-89 | Every receipt answered in a run is of a commit that applied, and counts the rows that commit published. |
| `ProtocolReads.CrashesEndASession` | crates/rdlt-engine/src/attempt.rs:205-245 | A session that crashed makes no step again. |
| `ProtocolStaging.CommitsLeaveNothingStaged` | crates/rdlt-engine/src/coordinator.rs:242-244 | Once a commit applies, what is left staged of its session is what the session fills, or sealed or abandoned since it made the commit. |
| `ProtocolStaging.DiscardsLeaveTheNewer` | crates/rdlt-connector/src/destination.rs:332-337 | A discard, however late, leaves exactly what its own session or a newer one staged, in order. |
| `ProtocolProgress.EveryPartitionMayGoOn` | crates/rdlt-engine/src/attempt.rs:205-245 | However a run went, it may go on so that exactly the next row of any given partition is published, and its cursor moves past it. |
| `Ledger.SharesOf` | crates/rdlt-engine/src/budget/ledger.rs:94-116 | The shares add up to the capacity, each its part of it to the byte; pushes and one request for lowering take all the data, and no sum of a share and a request of it passes a `u64`. |
| `Ledger.Admitted` | crates/rdlt-engine/src/budget/ledger.rs:503-517 | Admitting only adds to what was admitted, and changes neither shares nor arrivals. |
| `Ledger.AdmittingIsSound` | crates/rdlt-engine/src/budget/ledger.rs:482-517 | Admission keeps every share within its bounds and every class in arrival order, and leaves no request waiting that may be admitted. |
| `Ledger.ReservingIsSound` | crates/rdlt-engine/src/budget/ledger.rs:331-347 | A reservation made at once keeps the bounds and overtakes no request that goes before it. |
| `Ledger.QueueingIsSound` | crates/rdlt-engine/src/budget/ledger.rs:378-391 | A request left waiting is one that may not be admitted yet, and keeps its class in order. |
| `LendingProof.ReturningBalances` | crates/rdlt-engine/src/budget.rs:367-378 | Bytes on their way back, through any chain of open and closed lendings, arrive exactly: every holder they are subtracted from holds them, and the books balance. |
| `LendingProof.SweepingKeeps` | crates/rdlt-engine/src/budget.rs:551-557 | When the last part or handle of a lending goes, its own bytes go where they came from, up the chain, and the books balance. |
| `LendingProof.ShrinkingKeeps` | crates/rdlt-engine/src/budget.rs:402-411 | Shrinking keeps the books balanced. |
| `LendingProof.SplittingKeeps` | crates/rdlt-engine/src/budget.rs:415-423 | Splitting keeps the books balanced: two reservations hold one's bytes between them. |
| `LendingProof.LendingKeeps` | crates/rdlt-engine/src/budget.rs:427-447 | Lending a reservation, itself lent or not, keeps the books balanced. |
| `LendingProof.TakingKeeps` | crates/rdlt-engine/src/budget.rs:505-515 | Taking a part keeps a lending's bytes equal to what is free and what its parts hold. |
| `LendingProof.ClosingKeeps` | crates/rdlt-engine/src/budget.rs:495-501 | A lending that closes holds what it gives back, gives back what no part holds, and is left holding exactly its parts. |
| `LendingProof.DroppingKeeps` | crates/rdlt-engine/src/budget.rs:551-557 | Dropping a reservation keeps the books balanced. |
| `LendingProof.ChangeKeeps` | crates/rdlt-engine/src/budget.rs:367-557 | Every request, quit, shrink, split, lend, take, close, clone and drop keeps the books balanced, the shares within bounds and the queues in turn. |
| `LendingProof.After` | crates/rdlt-engine/src/budget.rs:367-557 | After any history of such changes the ledger's total of each class is what live reservations of the budget hold, and each lending's bytes are what is free and what its parts hold. |
| `LendingProof.NeverExceededInAnyHistory` | crates/rdlt-engine/src/budget.rs:28-33 | No history reserves more than the capacity. |
| `LendingProof.DroppingEverythingReturnsEveryByte` | crates/rdlt-engine/src/budget.rs:449-451 | Once every reservation and handle is dropped, in any order, no lending is left and the ledger holds nothing. |
| `LendingProof.TakesFitOncePartsAreBack` | crates/rdlt-engine/src/budget.rs:523-547 | A take of no more than was lent fits once the parts are back, unless the lending is closed. |
| `LendingProof.ClosedLendsNoByte` | crates/rdlt-engine/src/budget.rs:503-515 | Of a closed lending a part is taken if and only if it is of no bytes. |
| `LendingProof.OtherHoldersKeepTheirBytes` | crates/rdlt-engine/src/budget.rs:402-515 | No change made to one reservation changes what another holder holds. |
| `LendingHandles.HandlesAreCounted` | crates/rdlt-engine/src/budget.rs:427-452 | Over any history the handles on what is lent are one for lending it, one more for each clone and one fewer for each given up; with none left nothing more is taken of it, and it is there only while a part of it is. |
| `LendingHandles.LendingAndFreeingIsDropping` | crates/rdlt-engine/src/budget.rs:427-452 | Lending a reservation and giving up the handle is dropping the reservation. |
| `LendingHandles.CloningAndFreeingIsNothing` | crates/rdlt-engine/src/budget.rs:449-452 | One more handle, given up, changes nothing. |
| `LendingHandles.TakingAndDroppingIsNothing` | crates/rdlt-engine/src/budget.rs:505-515 | A part taken and dropped leaves the lending and the ledger as they were. |
| `LendingHandles.ClosingIsForGood` | crates/rdlt-engine/src/budget.rs:495-515 | Once a lending is closed, however the history goes on, it stays closed, no byte of it is free, and no part of any bytes is taken of it. |
| `LendingHandles.ShrunkToSize` | crates/rdlt-engine/src/budget.rs:402-411 | A reservation shrunk holds what was asked, or what it held where that is less. |
| `LendingRequests.EveryRequestIsAdmittedOrWaits` | crates/rdlt-engine/src/budget/ledger.rs:378-391 | Over any history every request taken on, numbered by its arrival, is admitted for what it asked or waits, and not both, unless someone stopped waiting for it. |
| `LendingRequests.OnlyRequestsAreAdmitted` | crates/rdlt-engine/src/budget/ledger.rs:503-517 | Nothing is admitted but what a request asked, and no request twice. |
| `LendingRequests.LeaversAreNeverAdmitted` | crates/rdlt-engine/src/budget/ledger.rs:431-436 | A request that waits when someone stops waiting for it is never admitted after. |
| `LendingRequests.NoneThatFitsWaits` | crates/rdlt-engine/src/budget/ledger.rs:482-501 | Over any history the first of each queue does not fit, or is a push while lowering waits. |
| `LendingWaits.WaitsOnlyForItsOwn` | crates/rdlt-engine/src/budget/ledger.rs:87-89 | Over any history, where a request waits its own class holds something, or, for a push, lowering does: pushes never keep lowering waiting. |
| `LendingWaits.LimitsAreExact` | crates/rdlt-engine/src/budget/ledger.rs:289-328 | A request is within its limit if and only if it fits whatever the other classes hold, once its own holds nothing, and, for a push, lowering nothing. |
| `LendingWaits.PushesYieldToLowering` | crates/rdlt-engine/src/budget/ledger.rs:331-338 | Where a request for lowering waits before a change and after it, the change admits no push. |
| `Taking.LoneTakersAreServed` | crates/rdlt-engine/src/budget.rs:523-547 | In any interleaving of returns, takes, closings and cancellations in which one request waits at a time, none that could be served sleeps on. |
| `Taking.NoneSleepsOnExactly` | crates/rdlt-engine/src/budget.rs:474-485 | Over every interleaving of requests of given sizes none does if and only if those that wait all ask for the same, more than half of what is lent. |
| `Taking.ClosingIsForGood` | crates/rdlt-engine/src/budget.rs:495-501 | Once a lending closes it lends nothing, however a run goes on. |
| `Taking.ClosedServesNone` | crates/rdlt-engine/src/budget.rs:495-501 | Once a lending closes, a request that waits for a byte of it is never served, whatever goes back. |
| `Budget.MemoryBudget.AdmitWaiting` | crates/rdlt-engine/src/budget/ledger.rs:503-517 | The loop that admits waiters comes to the specified admission, each admitted request given its reservation. |
| `Budget.MemoryBudget.Release` | crates/rdlt-engine/src/budget.rs:367-378 | Bytes released go back as specified, up a chain of lendings. |
| `Budget.MemoryBudget.Sweep` | crates/rdlt-engine/src/budget.rs:551-557 | The last reference to a lent reservation gone, it goes, and those it was the last part of. |
| `Budget.MemoryBudget.Request` | crates/rdlt-engine/src/budget.rs:211-243 | A request is refused, admitted at once with its bytes, or left waiting at the end of its class's queue under the number returned, and the invariant is kept; what reads keep never waits. |
| `Budget.MemoryBudget.Forget` | crates/rdlt-engine/src/budget.rs:78-85 | A request given up admits whoever it kept waiting, and the invariant is kept. |
| `Budget.MemoryBudget.Shrink` | crates/rdlt-engine/src/budget.rs:402-411 | A reservation holds what was asked, where that is less, and the rest goes home; the invariant is kept. |
| `Budget.MemoryBudget.Split` | crates/rdlt-engine/src/budget.rs:415-423 | The part holds what was asked, or all there was; the invariant is kept. |
| `Budget.MemoryBudget.Lend` | crates/rdlt-engine/src/budget.rs:427-447 | A reservation becomes a lending of all its bytes to one handle, which given up is the reservation dropped; the invariant is kept. |
| `Budget.MemoryBudget.TryTake` | crates/rdlt-engine/src/budget.rs:505-515 | A part is taken if and only if no other part holds its bytes; the invariant is kept. |
| `Budget.MemoryBudget.Close` | crates/rdlt-engine/src/budget.rs:495-501 | A lending that closes gives back what is free; the invariant is kept. |
| `Budget.MemoryBudget.Free` | crates/rdlt-engine/src/budget.rs:449-452 | A handle given up, the lending goes if nothing else refers to it; the invariant is kept. |
| `Budget.MemoryBudget.Drop` | crates/rdlt-engine/src/budget.rs:551-557 | A reservation dropped gives its bytes back; the invariant is kept. |
| `Slots.Slot.Start` | crates/rdlt-engine/src/compute.rs:258-267 | The job is taken if and only if it waits; anything else is left as it was. |
| `Slots.Slot.End` | crates/rdlt-engine/src/compute.rs:270-275 | The slot ends with the result, and its waker is taken. |
| `Slots.Slot.Ask` | crates/rdlt-engine/src/compute.rs:283-290 | The result is taken once it is there; else the waker is left. |
| `Slots.Slot.LetGo` | crates/rdlt-engine/src/compute.rs:294-312 | A waiting job is dropped unrun, a running one waited for, and what one made dropped. |
| `Slots.StepKeeps` | crates/rdlt-engine/src/compute.rs:245-336 | Every step of a pool's thread or of the caller keeps the invariant. |
| `Slots.EveryRunHolds` | crates/rdlt-engine/src/compute.rs:165-217 | The invariant holds after any interleaving. |
| `Slots.EachJobOnce` | crates/rdlt-engine/src/compute.rs:165-217 | Each job is run or dropped unrun at most once, and exactly once by the time its caller is over; each result made is taken or dropped exactly once. |
| `Slots.NoJobOutlivesItsCaller` | crates/rdlt-engine/src/compute.rs:294-336 | Once its caller is over no job waits or runs, and no slot holds a result. |
| `Slots.ResultsComeInWorkOrder` | crates/rdlt-engine/src/compute.rs:193-217 | A caller that returns has every value in the order of its work; one a panic unwinds has those before the first job that panicked, all of which ran. |
| `Slots.NoResultIsMissing` | crates/rdlt-engine/src/compute.rs:196-198 | A job that ended has its own result for the caller that asks. |
| `Slots.NoWakeIsLost` | crates/rdlt-engine/src/compute.rs:270-290 | A caller waiting or blocked on a job that ended was woken or notified, or the thread that ended it has yet to do so. |
| `Slots.DueStep` | crates/rdlt-engine/src/compute.rs:193-312 | A call that is not over always has a step to take by itself: it is never stuck. |
| `Slots.NoRunGoesOnForEver` | crates/rdlt-engine/src/compute.rs:193-312 | However such steps interleave, they run out. |
| `Slots.EveryCallEnds` | crates/rdlt-engine/src/compute.rs:165-217 | From anywhere in any run such steps alone end the call. |
| `SlotsLetGo.DroppedCallersTakeNoMore` | crates/rdlt-engine/src/compute.rs:161-164 | Over every run a caller dropped as it waits takes no value and no result again, and its call can only end let go. |
| `SlotsLetGo.WaitingJobsLetGoNeverRun` | crates/rdlt-engine/src/compute.rs:294-301 | A job that waits when its caller lets it go never runs. |
| `SlotsLetGo.PanicsUnwindTheirCaller` | crates/rdlt-engine/src/compute.rs:211-214 | A caller that takes a job's panic has the values before it, takes nothing after, and its call ends unwound. |
| `SlotsLetGo.CallsEndByWhatHappened` | crates/rdlt-engine/src/compute.rs:161-217 | A call that is over was let go if and only if its caller was dropped; else it returned if and only if no job panicked. |
| `SlotsLetGo.WaitingCallersMayBeDropped` | crates/rdlt-engine/src/compute.rs:314-336 | Whenever a caller waits it may be dropped, and then the call's own steps end it, let go. |
| `Merge.Upsert` | crates/rdlt-connector/src/merge.rs:223-260 | The loops over the sources' rows give the published rows whose key no incoming row has, then each incoming key's winning row, in order. |
| `Merge.WinningIs` | crates/rdlt-connector/src/merge.rs:239-248 | Each incoming key has one winning row: of its greatest sequence, the first on a tie. |
| `Merge.UpsertIsOverride` | crates/rdlt-connector/src/merge.rs:223-260 | Keys stay unique, and the table becomes its override by each incoming key's winning row. |
| `Merge.UpsertAgain` | crates/rdlt-connector/src/merge.rs:223-260 | Merging the same rows again changes nothing, not the rows' order either. |
| `Merge.TwoCommitsAreOne` | crates/rdlt-connector/src/merge.rs:223-260 | Two commits leave the table one of both would if and only if each shared key's second winning row is of a later sequence, or the same row. |
| `Children.MergeChildren` | crates/rdlt-connector/src/merge.rs:265-315 | The loops keep the children of roots not published, and add the incoming rows of each root's winning row. |
| `Children.EveryChildIsRooted` | crates/rdlt-connector/src/destination.rs:188-209 | After any commits, whatever they stage, every stored child row carries the id and sequence of a stored root row. |
| `Children.RootsStayDistinct` | crates/rdlt-connector/src/merge.rs:223-260 | After any commits the root table's keys are unique. |
| `Children.ChildrenOf` | crates/rdlt-connector/src/merge.rs:292-309 | A root published again has exactly the rows staged with its winning row's id and sequence; any other root's children are as they were. |
| `Children.WinnersChildren` | crates/rdlt-connector/src/merge.rs:262-309 | A root published again has exactly its winning row's children if and only if no other row of its id and sequence has a child. |
| `Children.TiedRowsMixTheirChildren` | crates/rdlt-connector/src/merge.rs:279-283 | Two rows of one root and sequence: the loser's child is published too. |
| `Children.TablesHoldTheDocuments` | crates/rdlt-connector/src/destination.rs:188-209 | After any commits the two tables together hold of an id exactly the document last merged, with its own children, if and only if no other record that ties with the winner in its last commit has a child. |
| `Changes.SortedIsInOrder` | crates/rdlt-connector/src/merge/changes.rs:63-69 | A commit's changes apply by sequence, a truncate before the other changes of its sequence. |
| `ChangesProof.StepKeeps` | crates/rdlt-connector/src/merge/changes.rs:83-107 | Where deletes are hard, each change, tied or not, admitted or refused, whatever columns it leaves, keeps the table holding a last change of each key past the last truncate. |
| `ChangesProof.AfterHolds` | crates/rdlt-connector/src/merge/changes.rs:46-112 | Where deletes are hard, so does every history of commits, its tombstones below the bound gone. |
| `ChangesProof.ConvergesExactlyWhenDecided` | crates/rdlt-connector/src/merge/tombstones.rs:1-12 | Where deletes are hard, every two histories of the same changes leave the same rows, tombstones and bound if and only if each key is decided by the changes themselves. |
| `ChangesProof.TiedPutsDisagree` | crates/rdlt-connector/src/merge/changes/table.rs:234-241 | Two different puts of one key and sequence: the first to arrive stays. |
| `ChangesProof.LeftColumnsDisagree` | crates/rdlt-connector/src/merge/changes/table.rs:245-258 | An update that leaves a column takes it from whichever row it finds. |
| `ChangesReplayed.NothingChangesExactlyWhenSettled` | crates/rdlt-connector/src/merge/changes.rs:46-112 | Hard or soft, a commit leaves a stored table as it is if and only if the table is at or past each of its changes. |
| `ChangesReplayed.ReplaysChangeNothing` | crates/rdlt-connector/src/merge/tombstones.rs:1-2 | Where deletes are hard, sending again any changes already merged changes nothing, ties and updates that leave columns included. |
| `ChangesReplayed.SoftReplaysChangeNothingExactly` | crates/rdlt-connector/src/merge/changes/table.rs:178-219 | Where they are soft it changes nothing if and only if no row is sequenced before a truncate sent again, or a delete of its key. |
| `ChangesReplayed.SentAgainMarksALateRow` | crates/rdlt-connector/src/merge/changes/table.rs:178-219 | Any truncate sent again after a row that arrived after it, sequenced before it, changes the table. |
| `ChangesReplayed.ATruncateAtTenSentAgainMarksARowAtFive` | crates/rdlt-connector/src/merge/changes/table.rs:178-219 | Such a truncate and row. |
| `ChangesReplayed.CommitsInSequenceAreOne` | crates/rdlt-connector/src/merge/changes.rs:46-112 | Hard or soft, a commit and a later one of later sequences leave what one commit of both does, on any stored table. |
| `ChangesReplayed.HistoriesInSequenceAreOne` | crates/rdlt-connector/src/merge/changes.rs:46-112 | So does any history whose commits follow in sequence. |
| `ChangesProof.LastWriterWins` | crates/rdlt-connector/src/merge/changes.rs:1-2 | Where deletes are hard, a key some change touched has a row if and only if one of its last changes puts it and no truncate is past it; the row is of that sequence, with its cells, or, of columns it leaves, cells earlier puts set. |
| `ChangesReplayed.SameSequenceInALaterCommit` | crates/rdlt-connector/src/merge/changes/table.rs:33-35 | Where deletes are soft, a truncate and any change no earlier come to the same in one commit or two if and only if the truncate did not give the change's row the change's sequence, or the change sets just the cells the row then has. |
| `ChangesReplayed.APutAtATruncatesSequenceIsLostLater` | crates/rdlt-connector/src/merge/changes/table.rs:33-35 | A row at three, a truncate at five and a put at five, which differ. |
| `ChangesReplayed.PutsStandAtATruncatesSequence` | crates/rdlt-connector/src/merge/changes.rs:63-69 | A put at a truncate's sequence stands, with the cells it sets, whichever of the two comes first in the commit, unless the table is past it. |
| `SoftChanges.WrittenInALaterCommit` | crates/rdlt-engine/src/table/lowering/changes.rs:173-181 | Of changes as the engine writes them they come to the same if and only if the truncate did not give the row the change's sequence, or the change is a delete. |
| `SoftChanges.LastToWrite` | crates/rdlt-connector/src/merge/changes/table.rs:272-295 | Where deletes are soft, over every history a key has a row if and only if a change put it, no put of it is past the row, and the row is live or marked as the change it stands at puts or removes it. |
| `SoftChanges.SoftConvergesExactlyWhenDecided` | crates/rdlt-connector/src/merge/changes/table.rs:223-295 | Where deletes are soft, every two histories of the same changes leave the same table if and only if each key's last puts leave the same cells, none left to what an earlier put sets, nothing removes the key past them, and nothing at their sequence marks an earlier put. |
| `SoftChanges.ADeleteBeforeItsRowLeavesNoTrace` | crates/rdlt-connector/src/merge/changes/table.rs:280-282 | A delete that arrives before its row is forgotten, and one that arrives after it is not. |
| `ChangeTable.MetAtOnceIsMet` | crates/rdlt-connector/src/merge/changes/table.rs:178-219 | Meeting all the truncates at once, by two searches, gives what meeting them one after another does, hard or soft. |
| `ChangeTable.MeetRow` | crates/rdlt-connector/src/merge/changes/table.rs:178-219 | The row computed is the one met at once. |
| `ChangeTable.Table.Truncate` | crates/rdlt-connector/src/merge/changes/table.rs:154-173 | A truncate recorded leaves the table holding what truncating every row now would. |
| `ChangeTable.Table.Meet` | crates/rdlt-connector/src/merge/changes/table.rs:178-219 | A row that meets its truncates leaves what the table holds as it is. |
| `ChangeTable.Table.Apply` | crates/rdlt-connector/src/merge/changes/table.rs:223-268 | A change applied to the lazy table changes its key's row as applying it to the eager one does. |
| `ChangeTable.Table.Delete` | crates/rdlt-connector/src/merge/changes/table.rs:272-295 | So does a delete, hard or soft. |
| `ChangeTable.Table.Hold` | crates/rdlt-connector/src/merge/changes/table.rs:140-147 | A row put takes its key's place and no other. |
| `ChangeTable.Table.Assemble` | crates/rdlt-connector/src/merge/changes/table.rs:299-311 | The rows assembled are those of the eager table, each truncate having visited every row, in the order of their keys' places. |
| `ChangeTable.Load` | crates/rdlt-connector/src/merge/changes/table.rs:105-133 | The table loaded holds the published rows, in the order in which their keys first come. |
| `ChangeTable.MergeChanges` | crates/rdlt-connector/src/merge/changes.rs:46-138 | A merge is refused if and only if a row lacks a sequence, or one admitted when its turn comes leaves its sequence; else, truncates met lazily, it gives the rows, tombstones and bound that applying each change at once to every row gives, its rows in the order of their keys' places: as first published, a key deleted outright losing its own, and one put without any taking the next. |
| `ChangeTable.ApplyAll` | crates/rdlt-connector/src/merge/changes.rs:83-107 | Changes in order are refused at one that is to be, or leave the rows and the order of places that one step after another does. |
| `ChangeTable.SoftPlacesStay` | crates/rdlt-connector/src/merge/changes/table.rs:140-147 | Where deletes are soft no key that has a place loses it. |
| `Cuts.Measure.Stretch` | crates/rdlt-connector/src/cost.rs:253-265 | A measure is exact up to its stop, and beyond it some value beyond. |
| `Cuts.Measure.NextPiece` | crates/rdlt-connector/src/cost.rs:291-323 | A piece has a row, is within the limit or one row, could not take its next row, and measures at most three rows for each it keeps beside the whole batch's try; the whole batch is one piece where it fits. |
| `Cuts.Measure.Cut` | crates/rdlt-connector/src/cost.rs:329-342 | Cutting ends, its pieces follow one another to the last row, and it measures at most four rows for each. |
| `Cuts.EveryRowOnce` | crates/rdlt-connector/src/cost.rs:325-328 | Every row is in exactly one piece. |
| `Cuts.NeighboursPassTheLimit` | crates/rdlt-connector/src/cost.rs:280-290 | Two neighbouring pieces together pass the limit. |
| `Cuts.PiecesAreFew` | crates/rdlt-connector/src/cost.rs:280-290 | So every two pieces hold more than the limit. |
| `Segments.SegmentSet.Insert` | crates/rdlt-connector/src/commit.rs:45-71 | Insertion adds the id and nothing else, and keeps the ranges sorted, disjoint and non-adjacent up to the last id. |
| `Segments.SegmentSet.Contains` | crates/rdlt-connector/src/commit.rs:74-79 | Membership, by search, is the set's. |
| `Segments.SegmentSet.Len` | crates/rdlt-connector/src/commit.rs:83-88 | The length is the set's, or `u64::MAX` where it is more. |
| `Segments.SegmentSet.Overlaps` | crates/rdlt-connector/src/commit.rs:109-124 | Two sets overlap if and only if an id is in both. |
| `Segments.SegmentSet.FromIds` | crates/rdlt-connector/src/commit.rs:127-135 | Ids collected in any order, repeated or not, are the set of them. |
| `Segments.TryFrom` | crates/rdlt-connector/src/commit.rs:137-150 | Ranges are taken, as they are, if and only if they are canonical. |
| `Segments.OneFormForEachSet` | crates/rdlt-connector/src/commit.rs:26-31 | Equal sets have equal ranges. |
| `Staged.Integer` | crates/rdlt-connector/src/sqlgen.rs:357-363 | The integer an id is bound as reads back as the id. |
| `Staged.Sql.StagedBy` | crates/rdlt-connector/src/sqlgen.rs:298-328 | The condition written, and the values bound, are the ones specified, after whatever the statement held. |
| `Staged.Sql.Within` | crates/rdlt-connector/src/sqlgen.rs:316-326 | So are its alternatives, a range each. |
| `Staged.ConditionMeans` | crates/rdlt-connector/src/sqlgen.rs:297-328 | The condition, read with every value bound before and after it, selects the rows of its pipeline and epoch whose segment a range spans as signed integers. |
| `Staged.SelectsItsSegments` | crates/rdlt-connector/src/sqlgen.rs:298-363 | The condition as written, among any values bound before and after, selects exactly the rows staged by its pipeline, at its epoch, in its segments, if and only if no range straddles the sign bit. |
| `Text.Showing.Keep` | crates/rdlt-connector/src/text.rs:52-63 | A piece is kept whole, or the text is cut. |
| `Text.Showing.WriteStr` | crates/rdlt-connector/src/text.rs:66-92 | A piece written is its characters written one by one, and nothing once the text is cut. |
| `Text.Shown` | crates/rdlt-connector/src/text.rs:19-36 | The text shown depends on what its pieces say together, not on how it is split. |
| `Text.ShownIsClean` | crates/rdlt-connector/src/text.rs:12-18 | What is shown holds nothing that deceives and no run of spaces, within the limit wherever that holds the mark. |
| `Text.NothingShownDeceives` | crates/rdlt-connector/src/text.rs:97-169 | No character shown deceives, and no space follows a space. |
| `Text.ShowingAgain` | crates/rdlt-connector/src/text.rs:15-17 | Showing what was shown changes nothing, for every limit. |
| `Text.LimitsThatHold` | crates/rdlt-connector/src/text.rs:27-36 | Every text is within its limit if and only if the limit holds the mark. |
| `TextShown.ShownExactly` | crates/rdlt-connector/src/text.rs:12-36 | A text that fits is shown whole, each character by its shape and a run of spaces as one; one that does not is cut to the most of its characters that leave room for the mark, less the spaces they end in, and ends in the mark. |
| `TextShown.ShapesDiffer` | crates/rdlt-connector/src/text.rs:14-15 | No two characters are shown alike: an escape names the one it stands for. |
| `Keeper.Kept.Advance` | crates/rdlt-connector-reference/src/kept.rs:160-187 | Memory moves only after the file did, neither moves back on the partition, and one partition too many is refused. |
| `Keeper.NothingAcknowledgedIsLost` | crates/rdlt-connector-reference/src/kept.rs:151-159 | Over any run of writes that fail either way, crashes and reopenings, what was acknowledged is never lost, the file is never behind the process, and it lists no more than a keeper opens. |
| `Keeper.EveryFileOpens` | crates/rdlt-connector-reference/src/kept.rs:215-233 | Over any run of any sources that connect, the next one opens the file: what they hand over never takes more bytes than a file may have. |
| `KeeperFile.EntryAtMost` | crates/rdlt-connector-reference/src/kept.rs:262-271 | A position as it is written, of a stream with a valid name and a partition it has, takes at most 588 bytes. |
| `Keeper.NoPositionMovesBack` | crates/rdlt-connector-reference/src/kept.rs:1-3 | No look at a partition finds it behind an earlier one. |
| `Keeper.LooksFindWhereItStands` | crates/rdlt-connector-reference/src/kept.rs:189-195 | Each look while a process keeps the positions finds where it then stands, after all that were found before. |
| `Keeper.AcknowledgingShows` | crates/rdlt-connector-reference/src/kept.rs:160-196 | A position handed over is refused if and only if its write fails or it is of one partition too many; once acknowledged, every later process and every later file stands past it, whatever comes between. |
| `Keeper.FileGoesBackExactly` | crates/rdlt-connector-reference/src/kept.rs:181-186 | Over any run, a step takes the file back on a partition if and only if it writes, the write before it was of that partition, reported failed yet in place, and its own is of another partition or an earlier position. |
| `Keeper.FileNeverGoesBack` | crates/rdlt-connector-reference/src/kept.rs:181-186 | In a run whose failed writes never reach the file, it never goes back, crashes as a write is made included. |
| `Keeper.AnUnacknowledgedPositionMayGoBack` | crates/rdlt-connector-reference/src/kept.rs:181-186 | A run in which it does. |
| `Lattice.JoinAssociates` | crates/rdlt-connector/src/types/lattice.rs:11-57 | The join is associative, structs and lists nested to any depth included. |
| `Lattice.JoinCommutes` | crates/rdlt-connector/src/types/lattice.rs:11-57 | The join is commutative. |
| `Lattice.JoinIsLeast` | crates/rdlt-connector/src/types/lattice.rs:1-12 | The join is the least upper bound of two types in the order it defines. |
| `Narrowest.NarrowestExactly` | crates/rdlt-connector/src/types/lattice.rs:1-57 | Of types that nest no others, whatever holds every value of both holds every value of the join, if and only if they are none of three pairs of a number's types. |
| `Narrowest.AWiderFloatThanNeeded` | crates/rdlt-connector/src/types/lattice.rs:74-79 | An integer of two bytes and a float of four join as one of eight, though the one of four holds both. |
| `Values.JoinHoldsExactly` | crates/rdlt-connector/src/types/lattice.rs:1-57 | Of a value either type holds, numbers exact, structs and lists nested to any depth, the join holds it if and only if no time in it is too far for the join's unit. |
| `Values.JoinHoldsBoth` | crates/rdlt-connector/src/types/lattice.rs:13-15 | A join with no times in it holds every value of both, none rounded. |
| `Values.AFarTimeIsNotHeld` | crates/rdlt-connector/src/types/lattice.rs:39-46 | A timestamp in seconds that the join with nanoseconds does not hold. |
| `Lattice.FixedAssociate` | crates/rdlt-connector/src/types/lattice.rs:82-89 | Integers and decimals associate, a precision past 76 digits included. |
| `Lattice.FloatsAssociate` | crates/rdlt-connector/src/types/lattice.rs:74-79 | So do numbers with a float among them. |
| `Lattice.FieldsAssociate` | crates/rdlt-connector/src/types/lattice.rs:94-121 | So do structs' fields, whichever sides miss them, where their types do. |
| `Columns.Apply` | crates/rdlt-connector-reference/src/columns.rs:13-67 | The loop over declared columns comes to the change specified, refused whole where one column is. |
| `Columns.DeclaringAddsWhatIsMissing` | crates/rdlt-connector-reference/src/columns.rs:13-33 | A declaration succeeds if and only if no column of a declared one's name is too narrow for it, and adds exactly the columns there are none of, in order, made nullable, after those there are. |
| `Columns.ChangingGrows` | crates/rdlt-connector-reference/src/columns.rs:13-67 | A change that succeeds leaves every column where it was, at a type that holds its own, and is reflected from then on. |
| `Columns.ReflectedChangesNothing` | crates/rdlt-connector-reference/src/columns.rs:10-12 | A change the columns reflect succeeds and changes nothing. |
| `Columns.ReplaysChangeNothing` | crates/rdlt-connector-reference/src/columns.rs:10-52 | However changes that succeeded are replayed, in any order and number, all succeed and nothing changes. |
| `Columns.WideningsConverge` | crates/rdlt-connector-reference/src/columns.rs:34-48 | Widenings of a column to the same types, in any order and however often, come to the same columns. |
| `Flags.OrdinalsBelow` | crates/rdlt-connector/src/change.rs:44-64 | The ordinals read, a set bit at a time, are those flagged below the count, in order. |
| `Flags.OrdinalsAre` | crates/rdlt-connector/src/change.rs:35-39 | Those are exactly the ordinals below the count whose bit is set. |
| `Flags.RemapUnchanged` | crates/rdlt-connector/src/change.rs:74-98 | Each row's flags are moved; a row without flags stays without. |
| `Flags.RemappedContains` | crates/rdlt-connector/src/change.rs:66-73 | An ordinal is flagged if and only if one that maps there was, whatever the bitmap's length. |
| `Flags.MovedIsShort` | crates/rdlt-connector/src/change.rs:69-73 | A row is as long as its last flag needs, and no longer. |
| `Projection.Projection.WorkFor` | crates/rdlt-connector/src/exclusion.rs:148-164 | What is kept for a schema is what working it out again gives, whichever schema was met last. |
| `Projection.WorkOut` | crates/rdlt-connector/src/exclusion.rs:169-197 | The loop finds the kept columns and their places, and nothing where no column is excluded. |
| `Projection.Projection.Arrow` | crates/rdlt-connector/src/exclusion.rs:118-123 | A batch is projected as without the cache. |
| `Projection.Projection.Changes` | crates/rdlt-connector/src/exclusion.rs:130-143 | So is a change batch, its flags moved. |
| `Projection.ProjectedTwice` | crates/rdlt-connector/src/sink.rs:274-277 | A batch projected by its emitter and again by the sink is as projected once. |
| `Projection.KeptColumnsAreTheirOwn` | crates/rdlt-connector/src/exclusion.rs:118-143 | Every column that is not excluded comes after those before it that are not, with its own field and values; of a change batch the flags alone differ. |
| `Projection.OnlyKeptColumnsAreThere` | crates/rdlt-connector/src/exclusion.rs:169-197 | Nothing else is in a projection. |
| `Projection.FlagsFollowTheirColumns` | crates/rdlt-connector/src/exclusion.rs:125-143 | A kept column is flagged at its new ordinal if and only if it was at its old one, row by row. |
| `Sink.PartitionSink.RequestCheckpoint` | crates/rdlt-connector/src/sink.rs:405-408 | Barriers only move forward. |
| `Sink.PartitionSink.Begin` | crates/rdlt-connector/src/sink.rs:256-273 | A checkpoint is refused if and only if it answers a barrier past the newest asked for. |
| `Sink.PartitionSink.End` | crates/rdlt-connector/src/sink.rs:278-303 | A send ends well if and only if it is let through, no stop was asked for and the feed is there; then its event is queued last and its barrier answered, and otherwise neither. |
| `Sink.PartitionSink.PendingBarrier` | crates/rdlt-connector/src/sink.rs:347-350 | The pending barrier is the newest asked for that no queued checkpoint answered. |
| `Sink.PartitionSink.Requested` | crates/rdlt-connector/src/sink.rs:309-328 | The newest barrier is forwarded if and only if no stop was asked for and it is past every one forwarded and answered; a stop, or a dropped feed with no such barrier, stops the read. |
| `Sink.EveryInterleaving` | crates/rdlt-connector/src/sink.rs:256-328 | In every interleaving the answered barrier is the newest a queued checkpoint answered, never past the requested one, and what is forwarded strictly increases. |
| `Sink.QueuedIsSent` | crates/rdlt-connector/src/sink.rs:256-303 | In every interleaving what is queued is exactly the events whose sends were let through before a stop, in that order, and the barrier answered is the newest of theirs, all told from the steps alone. |
| `Sink.PendingUntilAnswered` | crates/rdlt-connector/src/sink.rs:242-243 | A barrier stays pending until a queued checkpoint answers it or a later one, whatever other sends came to. |
| `Instants.DenotesTheSame` | crates/rdlt-connector/src/instants.rs:98-123 | A widening that succeeds denotes the same nanoseconds, a `Date64` as its day. |
| `Instants.FailsOnlyBeyond` | crates/rdlt-connector/src/instants.rs:98-123 | A widening of a stored value fails if and only if the wider type's integer cannot hold what it denotes. |
| `Instants.PathsAgree` | crates/rdlt-connector/src/instants.rs:143-157 | Where a value widens in two steps, it widens in one, to the same value. |
| `Instants.WidensAsDocumentedExactly` | crates/rdlt-connector/src/instants.rs:140-157 | What widens is what is said to if and only if no timestamp changes one zone for another in a unit no coarser; each such widening makes of a value what the one with the zone kept does, and denotes the same. |
| `Instants.AZoneMayChange` | crates/rdlt-connector/src/instants.rs:150-152 | A timestamp in one zone widens to one in another, to the same value and nanoseconds. |
| `Instants.ColumnsWidenByValue` | crates/rdlt-connector/src/instants.rs:171-201 | A column widens if and only if every value of it does, each to its own, and its nulls stay. |
| `Generator.Read` | crates/rdlt-connector-reference/src/generator.rs:157-196 | A read emits exactly its partition's rows from its cursor on, and what was emitted before any checkpoint and the rows left from it are all of them, for every batch size and barrier timing, a saturated id included; there is a checkpoint before each batch a barrier is due at, and one after each but the last of a read that does not follow, and no other; it is refused if and only if its cursor is another partition's. |
| `Generator.Take` | crates/rdlt-connector-reference/src/generator.rs:181-190 | A batch is full unless it is the last, it and the rows left after it are the rows there were, and where it stands next is the partition's own. |
| `Generator.EachRowOnce` | crates/rdlt-connector-reference/src/generator.rs:143-155 | Each row below the count is read by exactly one partition, exactly once. |

## Left out

- Serving, TLS, wire frames, gRPC and the certifier's connections: plumbing over libraries.
- File systems, SQLite calls and adoption of descriptors: a keeper's file is one atomic replace that may be reported
  failed either way.
- The tables' generations, replace streams, and the state records beside the cursors: the protocol models a
  partition's cursor as where its source resumes.
- Protocol: one table, and segments as sets of ids; `Staged` and `Segments` say how a commit's own rows are selected.
- Merge: the keys', ids' and sequences' encodings, the refusals of a key or a sequence the rows lack, and how merged
  rows are laid out in batches.
- SoftChanges: changes as the engine writes them where deletes are soft: a put's deletion time is null, it leaves
  neither that nor its sequence to the row before, and a delete or a truncate says when.
- ChangeTable.MergeChanges: the refusals of a change of no valid op or with a flag on its key, which is apart from the
  cells here.
- History tables (versions of a row over time).
- Cuts.Measure.Stretch: what a row costs; the meter is any subadditive cost, exact up to its stop.
- Slots: the times a job waited and ran, and a clock that panics between a job's end and its result.
- Taking: one lending by itself; `Lending` says where its bytes go, and the signals that press holders are not
  modelled.
- Values: JSON holds every value as text would; a time of day is any count its integer holds.
- Budget.MemoryBudget: how long a request waits before it gives up, the signals that press holders to write, and the
  peaks and waits that are only reported.
- Narrowest: structs and lists, of which the join may be wider where it is of what they nest.
- Keeper: the registry that shares keepers by name, and the lock that makes a file one keeper's.
- Text: lengths are of Unicode characters in UTF-8; a text is its characters.
- Sink: admission's charges and the channel's capacity; a send is queued, refused, stopped or cancelled.
- Generator: the values and names of generated rows.
- Serde and base64 round trips, identifiers, catalogs, specs, reports and verdicts: easy members.
