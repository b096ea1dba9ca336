/** The condition that selects a commit's own staged rows: by pipeline, by epoch, and by the ranges of
    its segments, each id bound as the signed integer of the same bits. */
module Staged {
  import opened Segments

  const SIGN: int := 0x8000_0000_0000_0000
  const WRAP: int := 0x1_0000_0000_0000_0000

  type Stored = x: int | -SIGN <= x < SIGN

  /** The signed integer of the same bits. */
  function Integer(value: Id): (stored: Stored)
    ensures Unsigned(stored) == value
  {
    if value < SIGN then value else value - WRAP
  }

  /** The unsigned value of the same bits. */
  function Unsigned(stored: Stored): Id {
    if stored < 0 then stored + WRAP else stored
  }

  /** The staging columns. */
  datatype Column = Pipeline | Epoch | Segment

  datatype Value = Text(text: string) | Number(number: Stored)

  /** What a statement's text is made of, as far as the condition writes it: placeholders are numbered
      from one. */
  datatype Token =
    | Equal(column: Column, placeholder: nat)
    | Between(column: Column, first: nat, last: nat)
    | Never
    | And
    | Or
    | Open
    | Close

  /** A staged row: what its pipeline, epoch and segment columns hold. */
  datatype Row = Row(pipeline: string, epoch: Stored, segment: Stored)

  /** The row a pipeline's writer stages at an epoch, in a segment. */
  function StagedRow(pipeline: string, epoch: Id, segment: Id): Row {
    Row(pipeline, Integer(epoch), Integer(segment))
  }

  // ----- What a condition means -----

  predicate Bound(params: seq<Value>, placeholder: nat) {
    0 < placeholder <= |params|
  }

  /** Whether a comparison holds of a row, each placeholder read from the values bound. */
  predicate Compares(token: Token, params: seq<Value>, row: Row) {
    match token
    case Equal(column, placeholder) =>
      && Bound(params, placeholder)
      && match column {
           case Pipeline => params[placeholder - 1] == Text(row.pipeline)
           case Epoch => params[placeholder - 1] == Number(row.epoch)
           case Segment => params[placeholder - 1] == Number(row.segment)
         }
    case Between(column, first, last) =>
      && column == Segment
      && Bound(params, first) && Bound(params, last)
      && params[first - 1].Number? && params[last - 1].Number?
      && params[first - 1].number <= row.segment <= params[last - 1].number
    case _ => false
  }

  /** Whether one of alternatives joined by `Or` holds. */
  predicate AnyOf(tokens: seq<Token>, params: seq<Value>, row: Row) {
    if |tokens| == 0 then false
    else if |tokens| == 1 then Compares(tokens[0], params, row)
    else tokens[|tokens| - 2].Or?
         && (AnyOf(tokens[..|tokens| - 2], params, row) || Compares(tokens[|tokens| - 1], params, row))
  }

  /** Whether a condition of two comparisons and a group of alternatives holds of a row. */
  predicate Selects(tokens: seq<Token>, params: seq<Value>, row: Row) {
    && |tokens| >= 6
    && tokens[1].And? && tokens[3].And? && tokens[4].Open? && tokens[|tokens| - 1].Close?
    && Compares(tokens[0], params, row) && Compares(tokens[2], params, row)
    && AnyOf(tokens[5..|tokens| - 1], params, row)
  }

  // ----- Writing it -----

  class Sql {
    var text: seq<Token>
    var params: seq<Value>

    constructor ()
      ensures text == [] && params == []
    {
      text, params := [], [];
    }

    method Push(token: Token)
      modifies this
      ensures text == old(text) + [token] && params == old(params)
    {
      text := text + [token];
    }

    /** Binds `value` and returns its placeholder. */
    method Bind(value: Value) returns (placeholder: nat)
      modifies this
      ensures text == old(text) && params == old(params) + [value] && placeholder == |params|
    {
      params := params + [value];
      placeholder := |params|;
    }

    /** Appends `Condition` to the statement and `Values` to what it binds, after whatever both hold. */
    method StagedBy(pipeline: string, epoch: Id, ranges: seq<Range>)
      modifies this
      ensures text == old(text) + Condition(ranges, |old(params)|)
      ensures params == old(params) + Values(pipeline, epoch, ranges)
    {
      var bound := Bind(Text(pipeline));
      Push(Equal(Pipeline, bound));
      Push(And);
      bound := Bind(Number(Integer(epoch)));
      Push(Equal(Epoch, bound));
      Push(And);
      Push(Open);
      if ranges == [] {
        Push(Never);
      }
      Within(ranges);
      Push(Close);
    }

    /** Writes the alternatives: each of `ranges` in order. */
    method Within(ranges: seq<Range>)
      modifies this
      ensures text == old(text) + Alternatives(ranges, |old(params)|)
      ensures params == old(params) + Ends(ranges)
    {
      ghost var base := |params|;
      for index := 0 to |ranges|
        invariant text == old(text) + Alternatives(ranges[..index], base)
        invariant params == old(params) + Ends(ranges[..index])
      {
        assert ranges[..index + 1][..index] == ranges[..index];
        if index > 0 {
          Push(Or);
        }
        var first := Bind(Number(Integer(ranges[index].first)));
        var last := Bind(Number(Integer(ranges[index].last)));
        Push(Between(Segment, first, last));
      }
      assert ranges[..|ranges|] == ranges;
    }
  }

  function Alternatives(ranges: seq<Range>, base: nat): (tokens: seq<Token>)
    ensures |tokens| == if ranges == [] then 0 else 2 * |ranges| - 1
  {
    if ranges == [] then []
    else
      var at := base + 2 * |ranges| - 1;
      if |ranges| == 1 then [Between(Segment, at, at + 1)]
      else Alternatives(ranges[..|ranges| - 1], base) + [Or, Between(Segment, at, at + 1)]
  }

  function Group(ranges: seq<Range>, base: nat): seq<Token> {
    if ranges == [] then [Never] else Alternatives(ranges, base)
  }

  function Condition(ranges: seq<Range>, base: nat): seq<Token> {
    [Equal(Pipeline, base + 1), And, Equal(Epoch, base + 2), And, Open] + Group(ranges, base + 2) + [Close]
  }

  /** The ends of each range, in order, as they are bound. */
  function Ends(ranges: seq<Range>): (values: seq<Value>)
    ensures |values| == 2 * |ranges|
    ensures forall i: nat :: BoundAt(values, 0, ranges, i)
  {
    if ranges == [] then []
    else
      var init, range := ranges[..|ranges| - 1], ranges[|ranges| - 1];
      BindsOneMore(Ends(init), init, range);
      assert ranges == init + [range];
      Ends(init) + [Number(Integer(range.first)), Number(Integer(range.last))]
  }

  lemma BindsOneMore(values: seq<Value>, ranges: seq<Range>, range: Range)
    requires |values| == 2 * |ranges| && forall i: nat :: BoundAt(values, 0, ranges, i)
    ensures forall i: nat ::
              BoundAt(values + [Number(Integer(range.first)), Number(Integer(range.last))], 0, ranges + [range], i)
  {
    var more := values + [Number(Integer(range.first)), Number(Integer(range.last))];
    forall i: nat ensures BoundAt(more, 0, ranges + [range], i) {
      assert BoundAt(values, 0, ranges, i);
    }
  }

  /** Whether the range at `i` is bound where the ranges bound from `base` are. */
  predicate BoundAt(params: seq<Value>, base: nat, ranges: seq<Range>, i: nat) {
    i < |ranges| ==>
      && base + 1 + 2 * i < |params|
      && params[base + 2 * i] == Number(Integer(ranges[i].first))
      && params[base + 1 + 2 * i] == Number(Integer(ranges[i].last))
  }

  function Values(pipeline: string, epoch: Id, ranges: seq<Range>): seq<Value> {
    [Text(pipeline), Number(Integer(epoch))] + Ends(ranges)
  }

  // ----- What it selects -----

  /** Whether a stored segment is between the integers a range is bound as. */
  predicate Spans(range: Range, segment: Stored) {
    Integer(range.first) <= segment <= Integer(range.last)
  }

  ghost predicate SomeSpans(ranges: seq<Range>, segment: Stored) {
    exists i :: 0 <= i < |ranges| && Spans(ranges[i], segment)
  }

  lemma {:induction false} AlternativesMean(ranges: seq<Range>, base: nat, params: seq<Value>, row: Row)
    requires forall i: nat :: BoundAt(params, base, ranges, i)
    ensures AnyOf(Alternatives(ranges, base), params, row) <==> SomeSpans(ranges, row.segment)
  {
    if ranges != [] {
      var n := |ranges|;
      var init, at := ranges[..n - 1], base + 2 * n - 1;
      forall i: nat ensures BoundAt(params, base, init, i) {
        assert BoundAt(params, base, ranges, i);
      }
      AlternativesMean(init, base, params, row);
      assert BoundAt(params, base, ranges, n - 1);
      assert Compares(Between(Segment, at, at + 1), params, row) <==> Spans(ranges[n - 1], row.segment);
      SpansOneMore(init, ranges[n - 1], row.segment);
      assert ranges == init + [ranges[n - 1]];
      if n > 1 {
        var tokens := Alternatives(ranges, base);
        assert tokens[..|tokens| - 2] == Alternatives(init, base);
      }
    }
  }

  lemma SpansOneMore(ranges: seq<Range>, range: Range, segment: Stored)
    ensures SomeSpans(ranges + [range], segment) <==> SomeSpans(ranges, segment) || Spans(range, segment)
  {
    var more := ranges + [range];
    if SomeSpans(ranges, segment) {
      var i :| 0 <= i < |ranges| && Spans(ranges[i], segment);
      assert Spans(more[i], segment);
    }
    if Spans(range, segment) {
      assert Spans(more[|ranges|], segment);
    }
  }

  lemma GroupMeans(ranges: seq<Range>, base: nat, params: seq<Value>, row: Row)
    requires forall i: nat :: BoundAt(params, base, ranges, i)
    ensures AnyOf(Group(ranges, base), params, row) <==> SomeSpans(ranges, row.segment)
  {
    if ranges != [] {
      AlternativesMean(ranges, base, params, row);
    }
  }

  lemma SelectsByParts(first: Token, second: Token, group: seq<Token>, params: seq<Value>, row: Row)
    ensures Selects([first, And, second, And, Open] + group + [Close], params, row)
            <==> Compares(first, params, row) && Compares(second, params, row) && AnyOf(group, params, row)
  {
    var tokens := [first, And, second, And, Open] + group + [Close];
    assert tokens[5..|tokens| - 1] == group;
  }

  /** The condition, wherever among a statement's values it was bound, selects the rows of its pipeline
      and epoch whose segment one of its ranges spans as signed integers. */
  lemma ConditionMeans(pipeline: string, epoch: Id, ranges: seq<Range>, before: seq<Value>, after: seq<Value>,
                       staged: string, at: Id, segment: Id)
    ensures Selects(Condition(ranges, |before|), before + Values(pipeline, epoch, ranges) + after,
                    StagedRow(staged, at, segment))
            <==> staged == pipeline && at == epoch && SomeSpans(ranges, Integer(segment))
  {
    var row, base := StagedRow(staged, at, segment), |before|;
    var params := before + Values(pipeline, epoch, ranges) + after;
    assert params == before + [Text(pipeline), Number(Integer(epoch))] + Ends(ranges) + after;
    EndsStayBound(ranges, before + [Text(pipeline), Number(Integer(epoch))], after, params);
    GroupMeans(ranges, base + 2, params, row);
    var first, second := Equal(Pipeline, base + 1), Equal(Epoch, base + 2);
    assert Compares(first, params, row) <==> staged == pipeline;
    assert Compares(second, params, row) <==> at == epoch;
    SelectsByParts(first, second, Group(ranges, base + 2), params, row);
  }

  lemma EndsStayBound(ranges: seq<Range>, before: seq<Value>, after: seq<Value>, params: seq<Value>)
    requires params == before + Ends(ranges) + after
    ensures forall i: nat :: BoundAt(params, |before|, ranges, i)
  {
    forall i: nat ensures BoundAt(params, |before|, ranges, i) {
      assert BoundAt(Ends(ranges), 0, ranges, i);
    }
  }

  /** Whether a range starts below the sign bit and ends at or above it. */
  predicate Straddles(range: Range) {
    range.first < SIGN <= range.last
  }

  lemma SpansAsHolds(range: Range, segment: Id)
    requires range.first <= range.last
    ensures !Straddles(range) ==> (Spans(range, Integer(segment)) <==> Holds(range, segment))
    ensures Straddles(range) ==> !Spans(range, Integer(segment))
  {
  }

  lemma NoStraddleSelects(ranges: seq<Range>, segment: Id)
    requires Canonical(ranges) && forall i | 0 <= i < |ranges| :: !Straddles(ranges[i])
    ensures SomeSpans(ranges, Integer(segment)) <==> Has(ranges, segment)
  {
    forall i: nat | i < |ranges| ensures Spans(ranges[i], Integer(segment)) <==> Holds(ranges[i], segment) {
      assert OrderedAt(ranges, i, i);
      SpansAsHolds(ranges[i], segment);
    }
  }

  lemma StraddleMisses(ranges: seq<Range>, i: nat)
    requires Canonical(ranges) && i < |ranges| && Straddles(ranges[i])
    ensures !SomeSpans(ranges, Integer(ranges[i].first)) && Has(ranges, ranges[i].first)
  {
    var segment := ranges[i].first;
    assert OrderedAt(ranges, i, i) && Holds(ranges[i], segment);
    forall j: nat | j < |ranges| ensures !Spans(ranges[j], Integer(segment)) {
      assert OrderedAt(ranges, i, j) && OrderedAt(ranges, j, i);
      SpansAsHolds(ranges[j], segment);
    }
  }

  /** Whether the condition of a pipeline, an epoch and segments, written after `before`, selects the row staged
      by a pipeline at an epoch in a segment. */
  ghost predicate Picks(pipeline: string, epoch: Id, ranges: seq<Range>, before: seq<Value>, after: seq<Value>,
                        staged: string, at: Id, segment: Id) {
    Selects(Condition(ranges, |before|), before + Values(pipeline, epoch, ranges) + after,
            StagedRow(staged, at, segment))
  }

  /** The condition as it is written selects exactly the rows staged by its pipeline, at its epoch, in a segment
      of its set, if and only if none of the set's ranges straddles the sign bit. */
  lemma SelectsItsSegments(pipeline: string, epoch: Id, ranges: seq<Range>, before: seq<Value>, after: seq<Value>)
    requires Canonical(ranges)
    ensures (forall staged: string, at: Id, segment: Id ::
               Picks(pipeline, epoch, ranges, before, after, staged, at, segment)
               <==> staged == pipeline && at == epoch && Has(ranges, segment))
            <==> forall i | 0 <= i < |ranges| :: !Straddles(ranges[i])
  {
    if forall i | 0 <= i < |ranges| :: !Straddles(ranges[i]) {
      forall staged: string, at: Id, segment: Id
        ensures Picks(pipeline, epoch, ranges, before, after, staged, at, segment)
                <==> staged == pipeline && at == epoch && Has(ranges, segment) {
        ConditionMeans(pipeline, epoch, ranges, before, after, staged, at, segment);
        NoStraddleSelects(ranges, segment);
      }
    } else {
      var i: nat :| i < |ranges| && Straddles(ranges[i]);
      var segment := ranges[i].first;
      StraddleMisses(ranges, i);
      ConditionMeans(pipeline, epoch, ranges, before, after, pipeline, epoch, segment);
      assert !Picks(pipeline, epoch, ranges, before, after, pipeline, epoch, segment);
    }
  }
}
