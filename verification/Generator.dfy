/** A generated stream's rows, split across partitions by their ids and read a batch at a time. */
module Generator {
  import opened Wrappers
  import opened Common

  /** What a read emits: a batch of row ids, or a checkpoint at the next one. */
  datatype Event = Batch(ids: seq<nat>) | Checkpoint(next: nat)

  datatype Refusal = CursorInvalid

  /** The row ids left from `next` on, `stride` apart. */
  function Rest(next: nat, rows: nat, stride: nat): seq<nat>
    requires stride > 0
    decreases if next < rows then rows - next else 0
  {
    if next >= rows then [] else [next] + Rest(next + stride, rows, stride)
  }

  /** The ids of batches, in order. */
  function Emitted(events: seq<Event>): seq<nat> {
    if events == [] then []
    else
      Emitted(events[..|events| - 1])
      + match events[|events| - 1] case Batch(ids) => ids case Checkpoint(_) => []
  }

  /** Whether a read that resumes at `next` is one of the partition. */
  predicate IsCursor(next: nat, rows: nat, stride: nat, index: nat)
    requires stride > 0
  {
    next < rows ==> next % stride == index
  }

  /** Whether a checkpoint among events is where the rest begins: what was emitted before it, and the
      rows left from it on, are all the rows there were from `first`; and a read may resume at it. */
  ghost predicate ResumesAt(events: seq<Event>, k: nat, first: nat, rows: nat, stride: nat, index: nat)
    requires stride > 0
  {
    k < |events| && events[k].Checkpoint? ==>
      && Emitted(events[..k]) + Rest(events[k].next, rows, stride) == Rest(first, rows, stride)
      && IsCursor(events[k].next, rows, stride, index)
  }

  function BatchesIn(events: seq<Event>): nat {
    if events == [] then 0
    else BatchesIn(events[..|events| - 1]) + if events[|events| - 1].Batch? then 1 else 0
  }

  /** Before how many of the first `n` batches a barrier was due. */
  function Dues(due: nat -> bool, n: nat): nat {
    if n == 0 then 0 else Dues(due, n - 1) + if due(n - 1) then 1 else 0
  }

  /** Whether a batch is behind the batches before it, a checkpoint after each, and one more for each barrier due
      by then: the last of those just before it where one is due at it. */
  ghost predicate InPlace(events: seq<Event>, k: nat, due: nat -> bool) {
    k < |events| && events[k].Batch? ==>
      var before := BatchesIn(events[..k]);
      k == 2 * before + Dues(due, before + 1)
  }

  /** Whether so many batches are in their places, `owed` checkpoints short of all there are to be. */
  ghost predicate Paced(events: seq<Event>, due: nat -> bool, batches: nat, owed: int) {
    && (forall k: nat :: InPlace(events, k, due))
    && BatchesIn(events) == batches && |events| + owed == 2 * batches + Dues(due, batches)
  }

  lemma InPlaceOn(events: seq<Event>, more: seq<Event>, due: nat -> bool)
    requires more != [] && more[..|more| - 1] == events && forall k: nat :: InPlace(events, k, due)
    requires InPlace(more, |events|, due)
    ensures forall k: nat :: InPlace(more, k, due)
  {
    forall k: nat ensures InPlace(more, k, due) {
      if k < |events| {
        assert InPlace(events, k, due);
        assert more[..k] == events[..k] && more[k] == events[k];
      }
    }
  }

  lemma CheckpointPaces(events: seq<Event>, more: seq<Event>, due: nat -> bool, batches: nat, owed: int)
    requires Paced(events, due, batches, owed)
    requires more != [] && more[..|more| - 1] == events && more[|more| - 1].Checkpoint?
    ensures Paced(more, due, batches, owed - 1)
  {
    InPlaceOn(events, more, due);
  }

  /** A batch goes where a checkpoint was emitted for each barrier due, this batch's own included. */
  lemma BatchPaces(events: seq<Event>, more: seq<Event>, due: nat -> bool, batches: nat)
    requires Paced(events, due, batches, if due(batches) then -1 else 0)
    requires more != [] && more[..|more| - 1] == events && more[|more| - 1].Batch?
    ensures Paced(more, due, batches + 1, 1)
  {
    assert InPlace(more, |events|, due);
    InPlaceOn(events, more, due);
  }

  /** The first `count` ids from `next` on, `stride` apart and below `rows`, and the id after them, or
      the last a number holds. */
  method Take(next: nat, rows: nat, stride: nat, count: nat) returns (ids: seq<nat>, after: nat)
    requires stride > 0 && count > 0 && next < rows <= U64_MAX
    ensures ids != [] && next < after <= U64_MAX && |ids| <= count && (|ids| < count ==> after >= rows)
    ensures ids + Rest(after, rows, stride) == Rest(next, rows, stride)
    ensures forall index | IsCursor(next, rows, stride, index) :: IsCursor(after, rows, stride, index)
  {
    ids := [];
    var id := next;
    while id < rows && |ids| < count
      invariant |ids| <= count && (ids == [] ==> id == next) && (ids != [] ==> next < id)
      invariant ids + Rest(id, rows, stride) == Rest(next, rows, stride)
      invariant SameResidue(id, next, stride)
      decreases rows - id
    {
      OneStrideOn(id, stride);
      ids := ids + [id];
      id := id + stride;
    }
    // An id that would not fit 64 bits is past every row.
    after := if id > U64_MAX then U64_MAX else id;
  }

  predicate SameResidue(id: nat, other: nat, stride: nat)
    requires stride > 0
  {
    id % stride == other % stride
  }

  lemma OneStrideOn(id: nat, stride: nat)
    requires stride > 0
    ensures (id + stride) % stride == id % stride
  {
    assert (id + stride) % stride == id % stride by {
      var q, r := id / stride, id % stride;
      assert id + stride == (q + 1) * stride + r;
      Remainder(q + 1, stride, r);
      Remainder(q, stride, r);
    }
  }

  lemma AtLeast(k: nat, stride: nat)
    requires k >= 1
    ensures k * stride >= stride
  {
  }

  lemma OneQuotient(q: nat, r: nat, q': nat, r': nat, stride: nat)
    requires r < stride && r' < stride && q * stride + r == q' * stride + r'
    ensures q >= q'
  {
    if q < q' {
      assert (q' - q) * stride == q' * stride - q * stride;
      AtLeast(q' - q, stride);
    }
  }

  lemma Remainder(q: nat, stride: nat, r: nat)
    requires r < stride
    ensures (q * stride + r) % stride == r
  {
    var all := q * stride + r;
    var q', r' := all / stride, all % stride;
    assert all == q' * stride + r';
    OneQuotient(q, r, q', r', stride);
    OneQuotient(q', r', q, r, stride);
  }

  /** Emits the checkpoint a barrier waits for before a batch, the batch, and the checkpoint after it where rows
      are left or the read goes on. */
  method Round(events: seq<Event>, next: nat, batches: nat, ghost first: nat, rows: nat, stride: nat, batchRows: nat,
               ghost index: nat, due: nat -> bool, follows: bool)
    returns (emitted: seq<Event>, after: nat)
    requires 0 < stride && 0 < batchRows && next < rows <= U64_MAX
    requires Stands(events, next, first, rows, stride, index) && Paced(events, due, batches, 0)
    ensures next < after && Stands(emitted, after, first, rows, stride, index)
    ensures Paced(emitted, due, batches + 1, if after >= rows && !follows then 1 else 0)
  {
    emitted := events;
    if due(batches) {
      CheckpointStands(emitted, next, first, rows, stride, index);
      CheckpointPaces(emitted, emitted + [Checkpoint(next)], due, batches, 0);
      emitted := emitted + [Checkpoint(next)];
    }
    var ids;
    ids, after := Take(next, rows, stride, batchRows);
    BatchStands(emitted, next, ids, after, first, rows, stride, index);
    BatchPaces(emitted, emitted + [Batch(ids)], due, batches);
    emitted := emitted + [Batch(ids)];
    if after < rows || follows {
      CheckpointStands(emitted, after, first, rows, stride, index);
      CheckpointPaces(emitted, emitted + [Checkpoint(after)], due, batches + 1, 1);
      emitted := emitted + [Checkpoint(after)];
    }
  }

  /** Reads the partition from its cursor, a batch at a time: `due` says whether a barrier waits before
      each batch, and `follows` whether the read goes on past its last. */
  method Read(rows: nat, stride: nat, batchRows: nat, index: nat, cursor: Option<nat>, due: nat -> bool, follows: bool)
    returns (outcome: Result<seq<Event>, Refusal>)
    requires 0 < stride && 0 < batchRows && index < stride && rows <= U64_MAX
    requires cursor.Some? ==> cursor.value <= U64_MAX
    ensures var first := if cursor.Some? then cursor.value else index;
            && (outcome.Err? <==> !IsCursor(first, rows, stride, index))
            && (outcome.Ok? ==>
                  && Emitted(outcome.value) == Rest(first, rows, stride)
                  && (forall k: nat :: ResumesAt(outcome.value, k, first, rows, stride, index))
                  && var batches := BatchesIn(outcome.value);
                  && (batches == 0 <==> first >= rows)
                  && Paced(outcome.value, due, batches, if batches > 0 && !follows then 1 else 0))
  {
    var first := if cursor.Some? then cursor.value else index;
    if first < rows && first % stride != index {
      return Err(CursorInvalid);
    }
    var events: seq<Event> := [];
    var next, batches := first, 0;
    while next < rows
      invariant Stands(events, next, first, rows, stride, index)
      invariant Paced(events, due, batches, if batches > 0 && next >= rows && !follows then 1 else 0)
      invariant if batches == 0 then next == first else first < next && first < rows
      decreases if next < rows then rows - next else 0
    {
      events, next := Round(events, next, batches, first, rows, stride, batchRows, index, due, follows);
      batches := batches + 1;
    }
    return Ok(events);
  }

  /** What a read has emitted, and the rows left from where it stands, are all the rows there were, and
      it may resume at any checkpoint of it. */
  ghost predicate Stands(events: seq<Event>, next: nat, first: nat, rows: nat, stride: nat, index: nat)
    requires stride > 0
  {
    && Emitted(events) + Rest(next, rows, stride) == Rest(first, rows, stride)
    && IsCursor(next, rows, stride, index)
    && forall k: nat :: ResumesAt(events, k, first, rows, stride, index)
  }

  lemma CheckpointStands(events: seq<Event>, next: nat, first: nat, rows: nat, stride: nat, index: nat)
    requires stride > 0 && Stands(events, next, first, rows, stride, index)
    ensures Stands(events + [Checkpoint(next)], next, first, rows, stride, index)
  {
    OneMoreResumes(events, Checkpoint(next), first, rows, stride, index);
    assert (events + [Checkpoint(next)])[..|events|] == events;
  }

  lemma BatchStands(events: seq<Event>, next: nat, ids: seq<nat>, after: nat,
                    first: nat, rows: nat, stride: nat, index: nat)
    requires stride > 0 && Stands(events, next, first, rows, stride, index)
    requires ids + Rest(after, rows, stride) == Rest(next, rows, stride) && IsCursor(after, rows, stride, index)
    ensures Stands(events + [Batch(ids)], after, first, rows, stride, index)
  {
    OneMoreResumes(events, Batch(ids), first, rows, stride, index);
    assert (events + [Batch(ids)])[..|events|] == events;
    assert Emitted(events) + ids + Rest(after, rows, stride) == Emitted(events) + (ids + Rest(after, rows, stride));
  }

  lemma OneMoreResumes(events: seq<Event>, event: Event, first: nat, rows: nat, stride: nat, index: nat)
    requires stride > 0 && forall k: nat :: ResumesAt(events, k, first, rows, stride, index)
    requires event.Checkpoint? ==>
               && Emitted(events) + Rest(event.next, rows, stride) == Rest(first, rows, stride)
               && IsCursor(event.next, rows, stride, index)
    ensures forall k: nat :: ResumesAt(events + [event], k, first, rows, stride, index)
  {
    var more := events + [event];
    assert more[..|events|] == events;
    forall k: nat ensures ResumesAt(more, k, first, rows, stride, index) {
      assert ResumesAt(events, k, first, rows, stride, index);
      assert k < |events| ==> more[..k] == events[..k] && more[k] == events[k];
    }
  }

  // ----- All partitions together -----

  /** The rows left from `next` on ascend, and are those of its partition. */
  lemma {:induction false} RestIs(next: nat, rows: nat, stride: nat, id: nat)
    requires stride > 0
    ensures id in Rest(next, rows, stride) <==> next <= id < rows && id % stride == next % stride
    decreases if next < rows then rows - next else 0
  {
    if next < rows {
      RestIs(next + stride, rows, stride, id);
      OneStrideOn(next, stride);
      if next < id < next + stride && id % stride == next % stride {
        NoneBetween(next, id, stride);
      }
    }
  }

  lemma NoneBetween(next: nat, id: nat, stride: nat)
    requires next < id < next + stride
    ensures id % stride != next % stride
  {
    var q, r := next / stride, next % stride;
    var d := id - next;
    assert next == q * stride + r;
    if r + d < stride {
      Remainder(q, stride, r + d);
    } else {
      assert id == (q + 1) * stride + (r + d - stride);
      Remainder(q + 1, stride, r + d - stride);
    }
  }

  lemma {:induction false} RestAscends(next: nat, rows: nat, stride: nat)
    requires stride > 0
    ensures forall i, j | 0 <= i < j < |Rest(next, rows, stride)| ::
              Rest(next, rows, stride)[i] < Rest(next, rows, stride)[j]
    decreases if next < rows then rows - next else 0
  {
    if next < rows {
      var rest := Rest(next + stride, rows, stride);
      RestAscends(next + stride, rows, stride);
      forall j | 0 <= j < |rest| ensures next < rest[j] {
        RestIs(next + stride, rows, stride, rest[j]);
      }
      assert Rest(next, rows, stride) == [next] + rest;
    }
  }

  /** Each row below the stream's count is read by exactly one partition, exactly once. */
  lemma EachRowOnce(rows: nat, stride: nat, id: nat, index: nat)
    requires index < stride && id < rows
    ensures multiset(Rest(index, rows, stride))[id] == if index == id % stride then 1 else 0
  {
    var rest := Rest(index, rows, stride);
    RestIs(index, rows, stride, id);
    Remainder(0, stride, index);
    RestAscends(index, rows, stride);
    Remaining(id, stride);
    AscendingHoldsOnce(rest, id);
  }

  lemma Remaining(id: nat, stride: nat)
    requires stride > 0
    ensures id % stride <= id
  {
  }

  lemma {:induction false} AscendingHoldsOnce(ids: seq<nat>, id: nat)
    requires forall i, j | 0 <= i < j < |ids| :: ids[i] < ids[j]
    ensures multiset(ids)[id] == if id in ids then 1 else 0
  {
    if ids != [] {
      var init, last := ids[..|ids| - 1], ids[|ids| - 1];
      assert ids == init + [last];
      AscendingHoldsOnce(init, id);
    }
  }
}
