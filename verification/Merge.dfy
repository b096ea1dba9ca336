/** Merging a commit's rows into a table by key: the loop over the sources' rows, and the map override
    it comes to. */
module Merge {
  import opened Common

  /** A row: its key, the sequence it compares by, and the rest of it. */
  datatype Row = Row(key: nat, order: nat, data: nat)

  /** The rows of the sources, in order: a row's place among them is its source and its row in it. */
  ghost predicate HasKey(rows: seq<Row>, key: nat) {
    exists i :: 0 <= i < |rows| && rows[i].key == key
  }

  /** Whether the row at `i` wins among those of its key over the one at `j`: by the greater sequence,
      the first on a tie. */
  predicate Beats(rows: seq<Row>, i: nat, j: nat)
    requires i < |rows| && j < |rows|
  {
    rows[j].key == rows[i].key ==> rows[j].order < rows[i].order || (rows[j].order == rows[i].order && i <= j)
  }

  ghost predicate Wins(rows: seq<Row>, i: nat) {
    i < |rows| && forall j: nat | j < |rows| :: Beats(rows, i, j)
  }

  /** The winning rows among the first `n`, in order. */
  ghost function Won(rows: seq<Row>, n: nat): seq<Row>
    requires n <= |rows|
  {
    if n == 0 then []
    else
      var before := Won(rows, n - 1);
      if Wins(rows, n - 1) then before + [rows[n - 1]] else before
  }

  /** The rows among the first `n` whose key no row of `incoming` has, in order. */
  ghost function Kept(rows: seq<Row>, incoming: seq<Row>, n: nat): seq<Row>
    requires n <= |rows|
  {
    if n == 0 then []
    else
      var before := Kept(rows, incoming, n - 1);
      if HasKey(incoming, rows[n - 1].key) then before else before + [rows[n - 1]]
  }

  ghost function Upserted(published: seq<Row>, incoming: seq<Row>): seq<Row> {
    Kept(published, incoming, |published|) + Won(incoming, |incoming|)
  }

  /** `winners` has, for each key of the first `n` rows, the place of the row that wins among them. */
  ghost predicate Leads(rows: seq<Row>, n: nat, winners: map<nat, nat>)
    requires n <= |rows|
  {
    && (forall key | key in winners :: winners[key] < n && rows[winners[key]].key == key)
    && (forall j: nat | j < n :: rows[j].key in winners && Beats(rows, winners[rows[j].key], j))
  }

  /** Upserts by an index of keys, over batches, into what `Upserted` says of their rows. */
  method Upsert(published: seq<seq<Row>>, incoming: seq<seq<Row>>) returns (rows: seq<Row>)
    ensures rows == Upserted(Flat(published), Flat(incoming))
  {
    var held, sent := Flat(published), Flat(incoming);
    var winners: map<nat, nat> := map[];
    for at := 0 to |sent|
      invariant Leads(sent, at, winners)
    {
      var key := sent[at].key;
      if !(key in winners && sent[winners[key]].order >= sent[at].order) {
        winners := winners[key := at];
      }
    }
    rows := [];
    for at := 0 to |held|
      invariant rows == Kept(held, sent, at)
    {
      assert held[at].key in winners <==> HasKey(sent, held[at].key);
      if held[at].key !in winners {
        rows := rows + [held[at]];
      }
    }
    ghost var kept := rows;
    // The winners in order of their places, as sorting them gives.
    for at := 0 to |sent|
      invariant rows == kept + Won(sent, at)
    {
      WinnerLeads(sent, winners, at);
      if winners[sent[at].key] == at {
        rows := rows + [sent[at]];
      }
    }
  }

  lemma WinnerLeads(rows: seq<Row>, winners: map<nat, nat>, i: nat)
    requires Leads(rows, |rows|, winners) && i < |rows|
    ensures Wins(rows, i) <==> winners[rows[i].key] == i
  {
    var best := winners[rows[i].key];
    assert Beats(rows, best, i);
    if Wins(rows, i) {
      assert Beats(rows, i, best);
    }
  }

  // ----- What it comes to -----

  ghost predicate Distinct(rows: seq<Row>) {
    forall i, j | 0 <= i < j < |rows| :: rows[i].key != rows[j].key
  }

  /** A table of distinct keys, by key. */
  ghost function Table(rows: seq<Row>): (table: map<nat, Row>)
    requires Distinct(rows)
    ensures forall key :: key in table <==> HasKey(rows, key)
    ensures forall i | 0 <= i < |rows| :: rows[i].key in table && table[rows[i].key] == rows[i]
    ensures forall key | key in table :: table[key] in rows && table[key].key == key
  {
    map row | row in rows :: row.key := row
  }

  lemma {:induction false} WonHas(rows: seq<Row>, n: nat, row: Row)
    requires n <= |rows|
    ensures row in Won(rows, n) <==> exists i: nat :: i < n && Wins(rows, i) && rows[i] == row
  {
    if n > 0 {
      WonHas(rows, n - 1, row);
    }
  }

  lemma {:induction false} KeptHas(rows: seq<Row>, incoming: seq<Row>, n: nat, row: Row)
    requires n <= |rows|
    ensures row in Kept(rows, incoming, n) <==>
              !HasKey(incoming, row.key) && exists i :: 0 <= i < n && rows[i] == row
  {
    if n > 0 {
      KeptHas(rows, incoming, n - 1, row);
    }
  }

  /** No two rows of one key win. */
  lemma OneWins(rows: seq<Row>, i: nat, j: nat)
    requires Wins(rows, i) && Wins(rows, j) && rows[i].key == rows[j].key
    ensures i == j
  {
    assert Beats(rows, i, j) && Beats(rows, j, i);
  }

  /** Some row of each key wins. */
  lemma {:induction false} SomeWins(rows: seq<Row>, n: nat, key: nat) returns (best: nat)
    requires n <= |rows| && exists j :: 0 <= j < n && rows[j].key == key
    ensures best < n && rows[best].key == key && forall j: nat | j < n :: Beats(rows, best, j)
  {
    var last := n - 1;
    if exists j :: 0 <= j < last && rows[j].key == key {
      best := SomeWins(rows, last, key);
      if rows[last].key == key && rows[best].order < rows[last].order {
        var before := best;
        best := last;
        forall j: nat | j < n ensures Beats(rows, best, j) {
          assert j < last ==> Beats(rows, before, j);
        }
      }
    } else {
      best := last;
    }
  }

  lemma {:induction false} WonIsDistinct(rows: seq<Row>, n: nat)
    requires n <= |rows|
    ensures Distinct(Won(rows, n))
  {
    if n > 0 {
      WonIsDistinct(rows, n - 1);
      var before := Won(rows, n - 1);
      if Wins(rows, n - 1) {
        forall i | 0 <= i < |before| ensures before[i].key != rows[n - 1].key {
          WonHas(rows, n - 1, before[i]);
          var j: nat :| j < n - 1 && Wins(rows, j) && rows[j] == before[i];
          if rows[j].key == rows[n - 1].key {
            OneWins(rows, j, n - 1);
          }
        }
      }
    }
  }

  lemma {:induction false} KeptIsDistinct(rows: seq<Row>, incoming: seq<Row>, n: nat)
    requires n <= |rows| && Distinct(rows)
    ensures Distinct(Kept(rows, incoming, n))
  {
    if n > 0 {
      KeptIsDistinct(rows, incoming, n - 1);
      var before := Kept(rows, incoming, n - 1);
      forall i | 0 <= i < |before| ensures before[i].key != rows[n - 1].key {
        KeptHas(rows, incoming, n - 1, before[i]);
      }
    }
  }

  /** Each key of `incoming`, with its winning row. */
  ghost function Winning(incoming: seq<Row>): map<nat, Row> {
    WonIsDistinct(incoming, |incoming|);
    Table(Won(incoming, |incoming|))
  }

  /** A key's winning row is its row of the greatest sequence, the first on a tie; every key has
      one. */
  lemma WinningIs(rows: seq<Row>, key: nat)
    ensures key in Winning(rows) <==> HasKey(rows, key)
    ensures key in Winning(rows) ==>
              exists i: nat :: Wins(rows, i) && rows[i].key == key && Winning(rows)[key] == rows[i]
  {
    var won := Won(rows, |rows|);
    WonIsDistinct(rows, |rows|);
    if HasKey(rows, key) {
      var best := SomeWins(rows, |rows|, key);
      assert Wins(rows, best);
      WonHas(rows, |rows|, rows[best]);
    }
    if key in Winning(rows) {
      WonHas(rows, |rows|, Winning(rows)[key]);
    }
  }

  /** Keys stay unique, and the table becomes its override by each incoming key's winning row. */
  lemma UpsertIsOverride(published: seq<Row>, incoming: seq<Row>)
    requires Distinct(published)
    ensures Distinct(Upserted(published, incoming))
    ensures Table(Upserted(published, incoming)) == Table(published) + Winning(incoming)
  {
    var kept, won := Kept(published, incoming, |published|), Won(incoming, |incoming|);
    var rows := Upserted(published, incoming);
    KeptIsDistinct(published, incoming, |published|);
    WonIsDistinct(incoming, |incoming|);
    forall i | 0 <= i < |kept| ensures !HasKey(incoming, kept[i].key) && kept[i] in published {
      KeptHas(published, incoming, |published|, kept[i]);
    }
    forall i | 0 <= i < |won| ensures HasKey(incoming, won[i].key) {
      WonHas(incoming, |incoming|, won[i]);
    }
    forall i, j | 0 <= i < |kept| && 0 <= j < |won| ensures kept[i].key != won[j].key {
      assert HasKey(incoming, won[j].key) && !HasKey(incoming, kept[i].key);
    }
    assert Distinct(rows);
    var table := Table(published) + Winning(incoming);
    forall key ensures key in Table(rows) <==> key in table
               ensures key in table ==> Table(rows)[key] == table[key] {
      OverrideAt(published, incoming, key);
    }
  }

  lemma OverrideAt(published: seq<Row>, incoming: seq<Row>, key: nat)
    requires Distinct(published) && Distinct(Upserted(published, incoming))
    ensures var rows, table := Upserted(published, incoming), Table(published) + Winning(incoming);
            && (key in Table(rows) <==> key in table)
            && (key in table ==> Table(rows)[key] == table[key])
  {
    var kept, won := Kept(published, incoming, |published|), Won(incoming, |incoming|);
    var rows, table := Upserted(published, incoming), Table(published) + Winning(incoming);
    WinningIs(incoming, key);
    WonIsDistinct(incoming, |incoming|);
    if HasKey(incoming, key) {
      var row := Winning(incoming)[key];
      assert row in won;
      assert row in rows;
    } else if key in Table(published) {
      var row := Table(published)[key];
      KeptHas(published, incoming, |published|, row);
      assert row in kept;
      assert row in rows;
    } else if key in Table(rows) {
      UpsertedHas(published, incoming, Table(rows)[key]);
    }
  }

  lemma UpsertedHas(published: seq<Row>, incoming: seq<Row>, row: Row)
    requires row in Upserted(published, incoming)
    ensures row in published || row in incoming
  {
    KeptHas(published, incoming, |published|, row);
    WonHas(incoming, |incoming|, row);
  }

  /** Merging the same rows again changes nothing, not the rows' order either. */
  lemma UpsertAgain(published: seq<Row>, incoming: seq<Row>)
    ensures Upserted(Upserted(published, incoming), incoming) == Upserted(published, incoming)
  {
    var kept, won := Kept(published, incoming, |published|), Won(incoming, |incoming|);
    forall i | 0 <= i < |kept| ensures !HasKey(incoming, kept[i].key) {
      KeptHas(published, incoming, |published|, kept[i]);
    }
    forall i | 0 <= i < |won| ensures HasKey(incoming, won[i].key) {
      WonHas(incoming, |incoming|, won[i]);
    }
    KeepsAll(kept, won, incoming, |kept|);
    KeepsNone(kept, won, incoming, |kept| + |won|);
  }

  lemma {:induction false} KeepsAll(kept: seq<Row>, won: seq<Row>, incoming: seq<Row>, n: nat)
    requires n <= |kept| && forall i | 0 <= i < |kept| :: !HasKey(incoming, kept[i].key)
    ensures Kept(kept + won, incoming, n) == kept[..n]
  {
    if n > 0 {
      KeepsAll(kept, won, incoming, n - 1);
      assert (kept + won)[n - 1] == kept[n - 1];
    }
  }

  lemma {:induction false} KeepsNone(kept: seq<Row>, won: seq<Row>, incoming: seq<Row>, n: nat)
    requires |kept| <= n <= |kept| + |won| && forall i | 0 <= i < |won| :: HasKey(incoming, won[i].key)
    requires forall i | 0 <= i < |kept| :: !HasKey(incoming, kept[i].key)
    ensures Kept(kept + won, incoming, n) == kept
  {
    if n == |kept| {
      KeepsAll(kept, won, incoming, n);
      assert kept[..n] == kept;
    } else {
      KeepsNone(kept, won, incoming, n - 1);
      assert (kept + won)[n - 1] == won[n - 1 - |kept|];
    }
  }

  // ----- Two commits, or one -----

  /** The row that wins among two commits' rows of one key. */
  function Joined(first: Row, second: Row): Row {
    if first.order < second.order then second else first
  }

  lemma WinsOfTwo(a: seq<Row>, b: seq<Row>, key: nat, i: nat, j: nat) returns (best: nat)
    requires Wins(a, i) && Wins(b, j) && a[i].key == b[j].key == key
    ensures Wins(a + b, best) && (a + b)[best] == Joined(a[i], b[j])
  {
    best := if a[i].order < b[j].order then |a| + j else i;
    forall k: nat | k < |a + b| ensures Beats(a + b, best, k) {
      if k < |a| {
        assert Beats(a, i, k);
      } else {
        assert Beats(b, j, k - |a|);
      }
    }
  }

  lemma WinsOfOne(a: seq<Row>, b: seq<Row>, key: nat, i: nat)
    requires Wins(a, i) && a[i].key == key && !HasKey(b, key)
    ensures Wins(a + b, i)
  {
    forall k: nat | k < |a + b| ensures Beats(a + b, i, k) {
      if k < |a| {
        assert Beats(a, i, k);
      }
    }
  }

  lemma WinsOfOther(a: seq<Row>, b: seq<Row>, key: nat, j: nat)
    requires Wins(b, j) && b[j].key == key && !HasKey(a, key)
    ensures Wins(a + b, |a| + j)
  {
    var best := |a| + j;
    forall k: nat | k < |a + b| ensures Beats(a + b, best, k) {
      if k >= |a| {
        assert Beats(b, j, k - |a|);
      }
    }
  }

  lemma WinningOfTwo(a: seq<Row>, b: seq<Row>, key: nat)
    ensures key in Winning(a + b) <==> key in Winning(a) || key in Winning(b)
    ensures key in Winning(a + b) ==>
              Winning(a + b)[key]
              == if key !in Winning(b) then Winning(a)[key]
                 else if key !in Winning(a) then Winning(b)[key]
                 else Joined(Winning(a)[key], Winning(b)[key])
  {
    WinningIs(a, key);
    WinningIs(b, key);
    WinningIs(a + b, key);
    assert HasKey(a, key) ==> HasKey(a + b, key) by {
      if HasKey(a, key) {
        var i :| 0 <= i < |a| && a[i].key == key;
        assert (a + b)[i].key == key;
      }
    }
    assert HasKey(b, key) ==> HasKey(a + b, key) by {
      if HasKey(b, key) {
        var i :| 0 <= i < |b| && b[i].key == key;
        assert (a + b)[|a| + i].key == key;
      }
    }
    if HasKey(a + b, key) {
      var k: nat :| Wins(a + b, k) && (a + b)[k].key == key && Winning(a + b)[key] == (a + b)[k];
      var best := WinnerOfTwo(a, b, key);
      OneWins(a + b, k, best);
    }
  }

  lemma WinnerOfTwo(a: seq<Row>, b: seq<Row>, key: nat) returns (best: nat)
    requires HasKey(a, key) || HasKey(b, key)
    ensures Wins(a + b, best) && (a + b)[best].key == key
    ensures key in Winning(a) || key in Winning(b)
    ensures (a + b)[best]
         == if key !in Winning(b) then Winning(a)[key]
            else if key !in Winning(a) then Winning(b)[key]
            else Joined(Winning(a)[key], Winning(b)[key])
  {
    WinningIs(a, key);
    WinningIs(b, key);
    if !HasKey(b, key) {
      best :| Wins(a, best) && a[best].key == key && Winning(a)[key] == a[best];
      WinsOfOne(a, b, key, best);
    } else {
      var j: nat :| Wins(b, j) && b[j].key == key && Winning(b)[key] == b[j];
      if !HasKey(a, key) {
        best := |a| + j;
        WinsOfOther(a, b, key, j);
      } else {
        var i: nat :| Wins(a, i) && a[i].key == key && Winning(a)[key] == a[i];
        best := WinsOfTwo(a, b, key, i, j);
      }
    }
  }

  /** Whether the later commit's winning row of a key both have goes on past the earlier's, or is the
      same row. */
  ghost predicate Later(a: seq<Row>, b: seq<Row>, key: nat) {
    key in Winning(a) && key in Winning(b) ==>
      Winning(a)[key].order < Winning(b)[key].order || Winning(a)[key] == Winning(b)[key]
  }

  /** Two commits leave the table one of both their rows would, exactly where the second's winning row
      of each key they share is of a later sequence, or the same row. */
  lemma TwoCommitsAreOne(published: seq<Row>, a: seq<Row>, b: seq<Row>)
    requires Distinct(published)
    ensures Distinct(Upserted(published, a)) && Distinct(Upserted(Upserted(published, a), b))
    ensures Distinct(Upserted(published, a + b))
    ensures Table(Upserted(Upserted(published, a), b)) == Table(Upserted(published, a + b))
            <==> forall key :: Later(a, b, key)
  {
    UpsertIsOverride(published, a);
    UpsertIsOverride(Upserted(published, a), b);
    UpsertIsOverride(published, a + b);
    OneAsTwo(Table(published), a, b);
  }

  lemma OneAsTwo(table: map<nat, Row>, a: seq<Row>, b: seq<Row>)
    ensures table + Winning(a) + Winning(b) == table + Winning(a + b) <==> forall key :: Later(a, b, key)
  {
    var first, second, both := Winning(a), Winning(b), Winning(a + b);
    forall key ensures AgreesAt(table + first + second, table + both, key) <==> Later(a, b, key) {
      WinningOfTwo(a, b, key);
    }
    AgreeingIsEqual(table + first + second, table + both);
  }

  ghost predicate AgreesAt(one: map<nat, Row>, two: map<nat, Row>, key: nat) {
    (key in one <==> key in two) && (key in one ==> one[key] == two[key])
  }

  lemma AgreeingIsEqual(one: map<nat, Row>, two: map<nat, Row>)
    ensures one == two <==> forall key :: AgreesAt(one, two, key)
  {
    if forall key :: AgreesAt(one, two, key) {
      forall key ensures key in one <==> key in two
                 ensures key in one ==> one[key] == two[key] {
        assert AgreesAt(one, two, key);
      }
    }
  }
}
