/** Cutting a batch so that no piece costs more than a limit, by doubling and then halving how far each try
    goes; and how many rows that measures. */
module Cuts {
  import opened Wrappers
  import opened Common

  const USIZE_MAX: nat := 0xFFFF_FFFF_FFFF_FFFF

  /** What rows cost once expanded, by their first row and the one after their last: the rows of two
      stretches never cost more together than apart. */
  ghost predicate Subadditive(cost: (nat, nat) -> nat) {
    forall a: nat, b: nat, c: nat | a <= b <= c :: Together(cost, a, b, c)
  }

  predicate Together(cost: (nat, nat) -> nat, a: nat, b: nat, c: nat) {
    cost(a, c) <= cost(a, b) + cost(b, c)
  }

  /** A piece of a batch: the row after its last, and what it expands to at most. */
  datatype Piece = Piece(end: nat, bytes: nat)

  /** Whether the piece from `first` is one a batch of `rows` rows may be cut into: it has a row, and
      either all the batch's or no more than the limit lets it, one at least. Its bytes are no less
      than what its rows expand to, nor than what its first row does, and its next row would pass the
      limit. */
  ghost predicate IsPiece(cost: (nat, nat) -> nat, rows: nat, limit: nat, first: nat, piece: Piece) {
    && first < piece.end <= rows
    && (piece.bytes <= limit || piece.end == first + 1)
    && (piece.bytes <= limit ==> cost(first, piece.end) <= piece.bytes)
    && (piece.end < rows ==> piece.bytes + cost(piece.end, piece.end + 1) > limit)
    && (piece.bytes <= limit ==> (first == 0 && piece.end == rows) || cost(first, first + 1) <= piece.bytes)
    && (piece.bytes > limit ==> cost(first, first + 1) > limit)
  }

  /** Where the piece at `i` starts. */
  function Start(cuts: seq<Piece>, i: nat): nat
    requires i <= |cuts|
  {
    if i == 0 then 0 else cuts[i - 1].end
  }

  ghost predicate PieceAt(cost: (nat, nat) -> nat, rows: nat, limit: nat, cuts: seq<Piece>, i: nat) {
    i < |cuts| ==> IsPiece(cost, rows, limit, Start(cuts, i), cuts[i])
  }

  class Measure {
    const rows: nat
    const limit: nat
    const cost: (nat, nat) -> nat
    /** How far past its stop a measure of the rows went. */
    const past: (nat, nat, nat) -> nat
    /** How many rows stretches were measured of. */
    ghost var measured: nat

    constructor (rows: nat, limit: nat, cost: (nat, nat) -> nat, past: (nat, nat, nat) -> nat)
      requires rows <= USIZE_MAX
      ensures this.rows == rows && this.limit == limit && this.cost == cost && measured == 0
    {
      this.rows, this.limit, this.cost, this.past := rows, limit, cost, past;
      measured := 0;
    }

    /** The cost of some rows where it is at most `stop`; more than `stop`, and no more is said, otherwise. */
    method Stretch(first: nat, end: nat, stop: nat) returns (bytes: nat)
      requires first <= end <= rows
      modifies this`measured
      ensures cost(first, end) <= stop ==> bytes == cost(first, end)
      ensures cost(first, end) > stop ==> bytes > stop
      ensures measured == old(measured) + end - first
    {
      bytes := cost(first, end);
      measured := measured + end - first;
      if bytes > stop {
        bytes := stop + 1 + past(first, end, stop);
      }
    }

    /** A maximal piece that starts at `first`. All of what is left is tried once; beyond that, at most three
        rows are measured for each row kept. */
    method NextPiece(first: nat) returns (piece: Piece)
      requires rows <= USIZE_MAX && Subadditive(cost)
      modifies this`measured
      ensures first < rows ==> IsPiece(cost, rows, limit, first, piece)
      ensures first >= rows ==> piece.end == rows && measured == old(measured)
      ensures first == 0 && cost(0, rows) <= limit ==>
                piece == Piece(rows, cost(0, rows)) && measured == old(measured) + rows
      ensures first < rows ==>
                measured <= old(measured) + (if first == 0 then rows else 0) + 3 * (piece.end - first)
    {
      if first == 0 {
        var whole := Stretch(0, rows, limit);
        if whole <= limit {
          return Piece(rows, whole);
        }
      }
      ghost var before := measured;
      var end := Min(first + 1, rows);
      var bytes := Stretch(Min(first, rows), end, limit);
      if end == rows {
        return Piece(end, bytes);
      }
      var step, unfit: Option<nat> := 1, None;
      while end < rows && bytes <= limit
        invariant first < end <= rows
        invariant bytes <= limit || end == first + 1
        invariant bytes <= limit ==> cost(first, end) <= bytes && cost(first, first + 1) <= bytes
        invariant bytes > limit ==> cost(first, first + 1) > limit
        invariant unfit.Some? ==> 0 < unfit.value <= rows - end && bytes <= limit
        invariant unfit.Some? ==> bytes + cost(end, end + unfit.value) > limit
        invariant step > 0 && (unfit.None? && end < rows ==> step <= end - first)
        invariant unfit.None? ==> measured == before + end - first
        invariant unfit.Some? ==> measured + unfit.value <= before + 3 * (end - first)
        decreases if unfit.None? then rows + rows - end else unfit.value
      {
        var tried;
        match unfit {
          case None => tried := Min(step, rows - end);
          case Some(known) =>
            if known <= 1 {
              break;
            }
            tried := known / 2;
        }
        var more := Stretch(end, end + tried, limit - bytes);
        if more <= limit - bytes {
          assert Together(cost, first, end, end + tried);
          assert unfit.Some? ==> Together(cost, end, end + tried, end + unfit.value);
          end, bytes := end + tried, bytes + more;
          step := Min(2 * step, USIZE_MAX);
          unfit := if unfit.None? then None else Some(unfit.value - tried);
        } else {
          unfit := Some(tried);
        }
      }
      return Piece(end, bytes);
    }

    /** Pieces that follow one another from the first row to the end, each one of `IsPiece`; no rows are one
        piece. */
    method Cut() returns (cuts: seq<Piece>)
      requires rows <= USIZE_MAX && Subadditive(cost)
      modifies this`measured
      ensures cuts != [] && cuts[|cuts| - 1].end == rows
      ensures rows == 0 ==> cuts == [Piece(0, 0)]
      ensures rows > 0 ==> forall i: nat :: PieceAt(cost, rows, limit, cuts, i)
      ensures measured <= old(measured) + 4 * rows
    {
      cuts := [];
      var first := 0;
      while first < rows
        invariant first == Start(cuts, |cuts|) <= rows && (cuts == [] <==> first == 0)
        invariant forall i: nat :: PieceAt(cost, rows, limit, cuts, i)
        invariant measured <= old(measured) + (if first == 0 then 0 else rows) + 3 * first
        decreases rows - first
      {
        var piece := NextPiece(first);
        ghost var before := cuts;
        first := piece.end;
        cuts := cuts + [piece];
        forall i: nat ensures PieceAt(cost, rows, limit, cuts, i) {
          assert PieceAt(cost, rows, limit, before, i);
          assert i <= |before| ==> Start(cuts, i) == Start(before, i);
        }
      }
      if cuts == [] {
        cuts := cuts + [Piece(0, 0)];
      }
    }
  }

  // ----- What cuts come to -----

  /** Every row is in exactly one piece: the one it is at or past the start of, and before the end. */
  lemma {:induction false} EveryRowOnce(cost: (nat, nat) -> nat, rows: nat, limit: nat, cuts: seq<Piece>, row: nat)
    returns (i: nat)
    requires cuts != [] && cuts[|cuts| - 1].end == rows && forall i: nat :: PieceAt(cost, rows, limit, cuts, i)
    requires row < rows
    ensures i < |cuts| && Start(cuts, i) <= row < cuts[i].end
    ensures forall j: nat | j < |cuts| && j != i :: !(Start(cuts, j) <= row < cuts[j].end)
  {
    i := |cuts| - 1;
    while row < Start(cuts, i)
      invariant i < |cuts| && row < cuts[i].end
      decreases i
    {
      i := i - 1;
    }
    forall j: nat | j < |cuts| && j != i ensures !(Start(cuts, j) <= row < cuts[j].end) {
      if j < i {
        EndsAscend(cost, rows, limit, cuts, j, i - 1);
      } else {
        EndsAscend(cost, rows, limit, cuts, i, j - 1);
      }
    }
  }

  lemma {:induction false} EndsAscend(cost: (nat, nat) -> nat, rows: nat, limit: nat, cuts: seq<Piece>, i: nat, j: nat)
    requires i <= j < |cuts| && forall k: nat :: PieceAt(cost, rows, limit, cuts, k)
    ensures cuts[i].end <= cuts[j].end
  {
    if i < j {
      EndsAscend(cost, rows, limit, cuts, i, j - 1);
      assert PieceAt(cost, rows, limit, cuts, j);
    }
  }

  /** Two neighbouring pieces together expand beyond the limit: no two could have been one. */
  lemma NeighboursPassTheLimit(cost: (nat, nat) -> nat, rows: nat, limit: nat, cuts: seq<Piece>, i: nat)
    requires forall i: nat :: PieceAt(cost, rows, limit, cuts, i)
    requires i + 1 < |cuts|
    ensures cuts[i].bytes + cuts[i + 1].bytes > limit
  {
    assert PieceAt(cost, rows, limit, cuts, i);
    assert PieceAt(cost, rows, limit, cuts, i + 1);
  }

  function Bytes(cuts: seq<Piece>): nat {
    if cuts == [] then 0 else Bytes(cuts[..|cuts| - 1]) + cuts[|cuts| - 1].bytes
  }

  /** So the pieces are few: every two of them hold more than the limit. */
  lemma {:induction false} PiecesAreFew(cost: (nat, nat) -> nat, rows: nat, limit: nat, cuts: seq<Piece>)
    requires forall i: nat :: PieceAt(cost, rows, limit, cuts, i)
    ensures (|cuts| / 2) * (limit + 1) <= Bytes(cuts)
  {
    if |cuts| >= 2 {
      var n := |cuts|;
      var init := cuts[..n - 2];
      forall i: nat ensures PieceAt(cost, rows, limit, init, i) {
        assert PieceAt(cost, rows, limit, cuts, i);
        assert i < |init| ==> Start(init, i) == Start(cuts, i);
      }
      PiecesAreFew(cost, rows, limit, init);
      NeighboursPassTheLimit(cost, rows, limit, cuts, n - 2);
      assert cuts[..n - 1][..n - 2] == init;
      assert n / 2 == |init| / 2 + 1;
      calc {
        (n / 2) * (limit + 1);
        (|init| / 2) * (limit + 1) + (limit + 1);
        <= Bytes(init) + (limit + 1);
        <= Bytes(init) + cuts[n - 2].bytes + cuts[n - 1].bytes;
        == Bytes(cuts);
      }
    }
  }
}
