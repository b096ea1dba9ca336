/** Sets of 64-bit ids as canonical lists of ranges: any two such lists of one set are the same list. */
module Segments {
  import opened Wrappers
  import opened Common

  type Id = x: nat | x <= U64_MAX

  /** The ids from one to another, both included. */
  datatype Range = Range(first: Id, last: Id)

  /** One more, or the greatest there is. */
  function Succ(x: Id): Id { if x == U64_MAX then x else x + 1 }

  function Plus(a: Id, b: Id): Id { if a + b > U64_MAX then U64_MAX else a + b }

  /** Whether the range at `i` is one, and ends more than one id before the one at `j` starts. */
  predicate OrderedAt(ranges: seq<Range>, i: nat, j: nat) {
    && (i < |ranges| ==> ranges[i].first <= ranges[i].last)
    && (i < j < |ranges| ==> ranges[i].last + 1 < ranges[j].first)
  }

  ghost predicate Canonical(ranges: seq<Range>) {
    forall i: nat, j: nat :: OrderedAt(ranges, i, j)
  }

  predicate Holds(range: Range, id: nat) {
    range.first <= id <= range.last
  }

  ghost predicate Has(ranges: seq<Range>, id: nat) {
    exists i :: 0 <= i < |ranges| && Holds(ranges[i], id)
  }

  /** The ids the ranges hold. */
  ghost function Ids(ranges: seq<Range>): set<nat> {
    set id: nat | id <= U64_MAX && Has(ranges, id)
  }

  /** How many ranges at the front a test holds of. */
  function PartitionPoint(ranges: seq<Range>, before: Range -> bool): (index: nat)
    ensures index <= |ranges| && forall i | 0 <= i < index :: before(ranges[i])
    ensures index < |ranges| ==> !before(ranges[index])
  {
    if ranges == [] || !before(ranges[0]) then 0
    else
      var rest := PartitionPoint(ranges[1..], before);
      assert forall i | 1 <= i <= |ranges[1..]| :: ranges[i] == ranges[1..][i - 1];
      rest + 1
  }

  class SegmentSet {
    var ranges: seq<Range>

    ghost predicate Valid()
      reads this
    {
      Canonical(ranges)
    }

    ghost function Contents(): set<nat>
      reads this
    {
      Ids(ranges)
    }

    constructor ()
      ensures Valid() && Contents() == {} && ranges == []
    {
      ranges := [];
    }

    /** The set of these ranges, as they are. */
    constructor Of(ranges: seq<Range>)
      requires Canonical(ranges)
      ensures Valid() && this.ranges == ranges
    {
      this.ranges := ranges;
    }

    /** Adds an id to the set, in the one form the set then has. */
    method Insert(id: Id)
      requires Valid()
      modifies this
      ensures Valid() && Contents() == old(Contents()) + {id}
    {
      var index := PartitionPoint(ranges, (range: Range) => Succ(range.last) < id);
      if index < |ranges| && ranges[index].first <= Succ(id) {
        var range := Range(Min(ranges[index].first, id), Max(ranges[index].last, id));
        if index + 1 < |ranges| && ranges[index + 1].first <= Succ(range.last) {
          JoinsTheNext(ranges, index, id);
          ranges := ranges[..index] + [Range(range.first, ranges[index + 1].last)] + ranges[index + 2..];
        } else {
          JoinsOne(ranges, index, id);
          ranges := ranges[index := range];
        }
      } else {
        JoinsNone(ranges, index, id);
        ranges := ranges[..index] + [Range(id, id)] + ranges[index..];
      }
    }

    /** Whether `id` is in the set. */
    method Contains(id: Id) returns (within: bool)
      requires Valid()
      ensures within <==> id in Contents()
    {
      var index := PartitionPoint(ranges, (range: Range) => range.last < id);
      within := index < |ranges| && ranges[index].first <= id;
      if index < |ranges| {
        forall i | index < i < |ranges| ensures !Holds(ranges[i], id) {
          assert OrderedAt(ranges, index, i);
        }
      }
    }

    /** The size of the set, but for the set of every id, whose size saturates. */
    method Len() returns (len: Id)
      requires Valid()
      ensures len == if |Contents()| > U64_MAX then U64_MAX else |Contents()|
    {
      len := 0;
      ghost var total := 0;
      for i := 0 to |ranges|
        invariant total == |Ids(ranges[..i])| && len == if total > U64_MAX then U64_MAX else total
      {
        assert OrderedAt(ranges, i, i);
        len := Plus(len, Succ(ranges[i].last - ranges[i].first));
        CountOneMore(ranges, i);
        total := total + ranges[i].last - ranges[i].first + 1;
      }
      assert ranges[..|ranges|] == ranges;
    }

    /** Decides whether two sets intersect, in one walk over both lists. */
    method Overlaps(other: SegmentSet) returns (common: bool)
      requires Valid() && other.Valid()
      ensures common <==> exists id: nat :: id in Contents() && id in other.Contents()
    {
      var mine, theirs := 0, 0;
      while mine < |ranges| && theirs < |other.ranges|
        invariant mine <= |ranges| && theirs <= |other.ranges|
        invariant forall i, j | 0 <= i < |ranges| && 0 <= j < |other.ranges| && (i < mine || j < theirs) ::
                    Apart(ranges[i], other.ranges[j])
        decreases |ranges| - mine + |other.ranges| - theirs
      {
        var left, right := ranges[mine], other.ranges[theirs];
        assert OrderedAt(ranges, mine, mine) && OrderedAt(other.ranges, theirs, theirs);
        if left.last < right.first {
          forall j | theirs <= j < |other.ranges| ensures Apart(left, other.ranges[j]) {
            assert OrderedAt(other.ranges, theirs, j);
          }
          mine := mine + 1;
        } else if right.last < left.first {
          forall i | mine <= i < |ranges| ensures Apart(ranges[i], right) {
            assert OrderedAt(ranges, mine, i);
          }
          theirs := theirs + 1;
        } else {
          var id := Max(left.first, right.first);
          assert Holds(left, id) && Holds(right, id);
          assert id in Contents() && id in other.Contents();
          return true;
        }
      }
      return false;
    }

    /** The set ids are collected into, one after another. */
    static method FromIds(ids: seq<Id>) returns (collected: SegmentSet)
      ensures fresh(collected) && collected.Valid() && collected.Contents() == set id | id in ids
    {
      collected := new SegmentSet();
      for i := 0 to |ids|
        invariant fresh(collected) && collected.Valid() && collected.Contents() == set id | id in ids[..i]
      {
        collected.Insert(ids[i]);
        assert ids[..i + 1] == ids[..i] + [ids[i]];
      }
      assert ids[..|ids|] == ids;
    }
  }

  predicate Apart(a: Range, b: Range) {
    a.last < b.first || b.last < a.first
  }

  /** Serialized ranges are taken exactly where they are sorted, disjoint and non-adjacent. */
  method TryFrom(ranges: seq<Range>) returns (taken: Result<seq<Range>, ()>)
    ensures taken == if Canonical(ranges) then Ok(ranges) else Err(())
  {
    var ordered := true;
    for i := 0 to |ranges|
      invariant ordered <==> Rising(ranges, i)
    {
      ordered := ordered && ranges[i].first <= ranges[i].last
                 && (i + 1 < |ranges| ==> Succ(ranges[i].last) < ranges[i + 1].first);
    }
    RisingIsCanonical(ranges);
    return if ordered then Ok(ranges) else Err(());
  }

  /** Each of the first `n` ranges is one, and ends more than one id before the next starts. */
  ghost predicate Rising(ranges: seq<Range>, n: nat)
    requires n <= |ranges|
  {
    forall i | 0 <= i < n ::
      ranges[i].first <= ranges[i].last && (i + 1 < |ranges| ==> Succ(ranges[i].last) < ranges[i + 1].first)
  }

  lemma RisingIsCanonical(ranges: seq<Range>)
    ensures Rising(ranges, |ranges|) <==> Canonical(ranges)
  {
    if Rising(ranges, |ranges|) {
      forall i: nat, j: nat ensures OrderedAt(ranges, i, j) {
        if i < j < |ranges| {
          RisesTo(ranges, i, j);
        }
      }
    }
    if Canonical(ranges) {
      forall i: nat | i < |ranges| ensures
        ranges[i].first <= ranges[i].last && (i + 1 < |ranges| ==> Succ(ranges[i].last) < ranges[i + 1].first) {
        assert OrderedAt(ranges, i, i + 1);
      }
    }
  }

  lemma {:induction false} RisesTo(ranges: seq<Range>, i: nat, j: nat)
    requires Rising(ranges, |ranges|) && i < j < |ranges|
    ensures ranges[i].last + 1 < ranges[j].first
  {
    if i + 1 < j {
      RisesTo(ranges, i, j - 1);
    }
  }

  // ----- What an insertion makes of the ranges -----

  lemma JoinsTheNext(ranges: seq<Range>, index: nat, id: Id)
    requires Canonical(ranges) && index + 1 < |ranges|
    requires forall i | 0 <= i < index :: Succ(ranges[i].last) < id
    requires Succ(ranges[index].last) >= id && ranges[index].first <= Succ(id)
    requires ranges[index + 1].first <= Succ(Max(ranges[index].last, id))
    ensures var after := ranges[..index] + [Range(Min(ranges[index].first, id), ranges[index + 1].last)]
                         + ranges[index + 2..];
            Canonical(after) && Ids(after) == Ids(ranges) + {id}
  {
    var range := Range(Min(ranges[index].first, id), ranges[index + 1].last);
    var after := ranges[..index] + [range] + ranges[index + 2..];
    assert OrderedAt(ranges, index, index + 1) && OrderedAt(ranges, index + 1, index + 1);
    forall i: nat, j: nat ensures OrderedAt(after, i, j) {
      assert OrderedAt(ranges, if i <= index then i else i + 1, if j <= index then j else j + 1);
      assert OrderedAt(ranges, index + 1, j + 1);
    }
    forall x: nat ensures Has(after, x) <==> Has(ranges, x) || x == id {
      assert Holds(range, x) <==> Holds(ranges[index], x) || Holds(ranges[index + 1], x) || x == id;
      if Has(ranges, x) {
        var i :| 0 <= i < |ranges| && Holds(ranges[i], x);
        assert if i < index then Holds(after[i], x) else if i <= index + 1 then Holds(after[index], x)
               else Holds(after[i - 1], x);
      }
      if x == id {
        assert Holds(after[index], x);
      }
    }
  }

  lemma JoinsOne(ranges: seq<Range>, index: nat, id: Id)
    requires Canonical(ranges) && index < |ranges|
    requires forall i | 0 <= i < index :: Succ(ranges[i].last) < id
    requires Succ(ranges[index].last) >= id && ranges[index].first <= Succ(id)
    requires index + 1 < |ranges| ==> ranges[index + 1].first > Succ(Max(ranges[index].last, id))
    ensures var after := ranges[index := Range(Min(ranges[index].first, id), Max(ranges[index].last, id))];
            Canonical(after) && Ids(after) == Ids(ranges) + {id}
  {
    var range := Range(Min(ranges[index].first, id), Max(ranges[index].last, id));
    var after := ranges[index := range];
    assert OrderedAt(ranges, index, index);
    forall i: nat, j: nat ensures OrderedAt(after, i, j) {
      assert OrderedAt(ranges, i, j) && OrderedAt(ranges, index + 1, j);
    }
    forall x: nat ensures Has(after, x) <==> Has(ranges, x) || x == id {
      assert Holds(range, x) <==> Holds(ranges[index], x) || x == id;
      if Has(ranges, x) {
        var i :| 0 <= i < |ranges| && Holds(ranges[i], x);
        assert Holds(after[i], x);
      }
      if x == id {
        assert Holds(after[index], x);
      }
    }
  }

  lemma JoinsNone(ranges: seq<Range>, index: nat, id: Id)
    requires Canonical(ranges) && index <= |ranges|
    requires forall i | 0 <= i < index :: Succ(ranges[i].last) < id
    requires index < |ranges| ==> Succ(ranges[index].last) >= id && ranges[index].first > Succ(id)
    ensures var after := ranges[..index] + [Range(id, id)] + ranges[index..];
            Canonical(after) && Ids(after) == Ids(ranges) + {id}
  {
    var after := ranges[..index] + [Range(id, id)] + ranges[index..];
    forall i: nat, j: nat ensures OrderedAt(after, i, j) {
      if i < index {
        assert OrderedAt(ranges, i, if j == 0 then 0 else j - 1) && OrderedAt(ranges, i, j);
      } else if i == index {
        assert j > 0 ==> OrderedAt(ranges, index, j - 1);
      } else {
        assert OrderedAt(ranges, i - 1, if j == 0 then 0 else j - 1);
      }
    }
    forall x: nat ensures Has(after, x) <==> Has(ranges, x) || x == id {
      if Has(ranges, x) {
        var i :| 0 <= i < |ranges| && Holds(ranges[i], x);
        assert if i < index then Holds(after[i], x) else Holds(after[i + 1], x);
      }
      if x == id {
        assert Holds(after[index], x);
      }
    }
  }

  // ----- How many -----

  ghost function Interval(first: nat, end: nat): set<nat> {
    set id: nat | id < end && From(id, first)
  }

  predicate From(id: nat, first: nat) { first <= id }

  lemma {:induction false} IntervalCount(first: nat, end: nat)
    requires first <= end
    ensures |Interval(first, end)| == end - first
  {
    if first == end {
      assert Interval(first, end) == {};
    } else {
      IntervalCount(first, end - 1);
      assert Interval(first, end) == Interval(first, end - 1) + {end - 1};
    }
  }

  lemma HasOneMore(ranges: seq<Range>, i: nat, id: nat)
    requires i < |ranges|
    ensures Has(ranges[..i + 1], id) <==> Has(ranges[..i], id) || Holds(ranges[i], id)
  {
    if Has(ranges[..i], id) {
      var k :| 0 <= k < i && Holds(ranges[..i][k], id);
      assert Holds(ranges[..i + 1][k], id);
    }
    if Holds(ranges[i], id) {
      assert Holds(ranges[..i + 1][i], id);
    }
    if Has(ranges[..i + 1], id) {
      var k :| 0 <= k < i + 1 && Holds(ranges[..i + 1][k], id);
      assert k < i ==> Holds(ranges[..i][k], id);
    }
  }

  lemma CountOneMore(ranges: seq<Range>, i: nat)
    requires Canonical(ranges) && i < |ranges|
    ensures |Ids(ranges[..i + 1])| == |Ids(ranges[..i])| + (ranges[i].last - ranges[i].first + 1)
  {
    var before, new_ := Ids(ranges[..i]), Interval(ranges[i].first, ranges[i].last + 1);
    assert OrderedAt(ranges, i, i);
    forall id: nat ensures id in Ids(ranges[..i + 1]) <==> id in before + new_ {
      HasOneMore(ranges, i, id);
    }
    forall id: nat | Has(ranges[..i], id) ensures !Holds(ranges[i], id) {
      var k :| 0 <= k < i && Holds(ranges[..i][k], id);
      assert OrderedAt(ranges, k, i);
    }
    assert before !! new_;
    assert Ids(ranges[..i + 1]) == before + new_;
    IntervalCount(ranges[i].first, ranges[i].last + 1);
  }

  // ----- One form for each set -----

  lemma FirstStartsNoLater(a: seq<Range>, b: seq<Range>)
    requires Canonical(a) && Canonical(b) && Ids(a) <= Ids(b) && a != []
    ensures b != [] && b[0].first <= a[0].first
  {
    assert OrderedAt(a, 0, 0) && Holds(a[0], a[0].first);
    assert a[0].first in Ids(b);
    var i: nat :| i < |b| && Holds(b[i], a[0].first);
    assert OrderedAt(b, 0, i);
  }

  lemma PastTheFirst(ranges: seq<Range>)
    requires Canonical(ranges) && ranges != []
    ensures !Has(ranges, ranges[0].last + 1)
  {
    forall i: nat | i < |ranges| ensures !Holds(ranges[i], ranges[0].last + 1) {
      assert OrderedAt(ranges, 0, i);
    }
  }

  lemma FirstEndsNoLater(a: seq<Range>, b: seq<Range>)
    requires Canonical(a) && Canonical(b) && Ids(b) <= Ids(a) && a != [] && b != []
    requires a[0].first == b[0].first
    ensures b[0].last <= a[0].last
  {
    assert OrderedAt(a, 0, 0);
    if b[0].last > a[0].last {
      assert Holds(b[0], a[0].last + 1);
      assert a[0].last + 1 in Ids(b);
    }
    PastTheFirst(a);
  }

  lemma RestIsCanonical(ranges: seq<Range>)
    requires Canonical(ranges) && ranges != []
    ensures Canonical(ranges[1..])
    ensures Ids(ranges[1..]) == set id | id in Ids(ranges) && id > ranges[0].last
  {
    forall i: nat, j: nat ensures OrderedAt(ranges[1..], i, j) {
      assert OrderedAt(ranges, i + 1, j + 1);
    }
    forall id: nat ensures Has(ranges[1..], id) <==> Has(ranges, id) && id > ranges[0].last {
      if Has(ranges[1..], id) {
        var i: nat :| i < |ranges[1..]| && Holds(ranges[1..][i], id);
        assert Holds(ranges[i + 1], id) && OrderedAt(ranges, 0, i + 1);
      }
      if Has(ranges, id) && id > ranges[0].last {
        var i :| 0 <= i < |ranges| && Holds(ranges[i], id);
        assert Holds(ranges[1..][i - 1], id);
      }
    }
  }

  /** Equal sets have equal ranges, whatever order their ids were inserted in. */
  lemma {:induction false} OneFormForEachSet(a: seq<Range>, b: seq<Range>)
    requires Canonical(a) && Canonical(b) && Ids(a) == Ids(b)
    ensures a == b
  {
    if a == [] {
      if b != [] {
        FirstStartsNoLater(b, a);
      }
    } else {
      FirstStartsNoLater(a, b);
      FirstStartsNoLater(b, a);
      FirstEndsNoLater(a, b);
      FirstEndsNoLater(b, a);
      RestIsCanonical(a);
      RestIsCanonical(b);
      OneFormForEachSet(a[1..], b[1..]);
      assert a == [a[0]] + a[1..] && b == [b[0]] + b[1..];
    }
  }
}
