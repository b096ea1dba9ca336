/** Documents kept as root rows and child rows, merged by root: each root that is written takes along its own
    children and drops those it had, so that the two tables together say which documents were last merged. */
module Children {
  import opened Common
  import opened Merge

  // Of a child, `key` names its root, and `order` is that root row's own.

  /** The incoming rows among the first `n` of their roots' winning rows, in order. */
  ghost function Added(incoming: seq<Row>, roots: seq<Row>, n: nat): seq<Row>
    requires n <= |incoming|
  {
    if n == 0 then []
    else
      var before := Added(incoming, roots, n - 1);
      if IsWinners(roots, incoming[n - 1]) then before + [incoming[n - 1]] else before
  }

  /** Whether a child belongs to the row that won its root. */
  ghost predicate IsWinners(roots: seq<Row>, child: Row) {
    child.key in Winning(roots) && Winning(roots)[child.key].order == child.order
  }

  ghost function Replaced(published: seq<Row>, incoming: seq<Row>, roots: seq<Row>): seq<Row> {
    Kept(published, roots, |published|) + Added(incoming, roots, |incoming|)
  }

  /** `newest` has the greatest sequence of each id of the first `n` rows. */
  ghost predicate Greatest(roots: seq<Row>, n: nat, newest: map<nat, nat>)
    requires n <= |roots|
  {
    && (forall id | id in newest :: exists i :: 0 <= i < n && roots[i].key == id && roots[i].order == newest[id])
    && (forall i | 0 <= i < n :: roots[i].key in newest && roots[i].order <= newest[roots[i].key])
  }

  lemma GreatestWins(roots: seq<Row>, newest: map<nat, nat>, id: nat)
    requires Greatest(roots, |roots|, newest)
    ensures id in newest <==> id in Winning(roots)
    ensures id in newest ==> Winning(roots)[id].order == newest[id]
  {
    WinningIs(roots, id);
    if id in newest {
      var i: nat :| i < |roots| && roots[i].key == id && roots[i].order == newest[id];
      assert HasKey(roots, id);
      var best: nat :| Wins(roots, best) && roots[best].key == id && Winning(roots)[id] == roots[best];
      assert Beats(roots, best, i);
    }
  }

  /** Drops the children of every root among `roots`, and adds those of the winners. */
  method MergeChildren(published: seq<seq<Row>>, incoming: seq<seq<Row>>, roots: seq<seq<Row>>)
    returns (rows: seq<Row>)
    ensures rows == Replaced(Flat(published), Flat(incoming), Flat(roots))
  {
    var sent := Flat(roots);
    var winners: map<nat, nat> := map[];
    for row := 0 to |sent|
      invariant Greatest(sent, row, winners)
    {
      var id, order := sent[row].key, sent[row].order;
      ghost var before := winners;
      var best := if id in winners then winners[id] else 0;
      winners := winners[id := if best < order then order else best];
      assert Greatest(sent, row + 1, winners) by {
        NewestOneMore(sent, row, before, winners);
      }
    }
    rows := [];
    var held, new_ := Flat(published), Flat(incoming);
    for at := 0 to |held|
      invariant rows == Kept(held, sent, at)
    {
      GreatestWins(sent, winners, held[at].key);
      WinningIs(sent, held[at].key);
      if held[at].key !in winners {
        rows := rows + [held[at]];
      }
    }
    ghost var kept := rows;
    for at := 0 to |new_|
      invariant rows == kept + Added(new_, sent, at)
    {
      GreatestWins(sent, winners, new_[at].key);
      if new_[at].key in winners && winners[new_[at].key] == new_[at].order {
        rows := rows + [new_[at]];
      }
    }
  }

  lemma NewestOneMore(roots: seq<Row>, n: nat, before: map<nat, nat>, after: map<nat, nat>)
    requires n < |roots| && Greatest(roots, n, before)
    requires var id, order := roots[n].key, roots[n].order;
             var best := if id in before then before[id] else 0;
             after == before[id := if best < order then order else best]
    ensures Greatest(roots, n + 1, after)
  {
    forall id | id in after
      ensures exists i :: 0 <= i < n + 1 && roots[i].key == id && roots[i].order == after[id]
    {
      if id != roots[n].key || (id in before && before[id] == after[id]) {
        var i :| 0 <= i < n && roots[i].key == id && roots[i].order == before[id];
        assert roots[i].order == after[id];
      } else {
        assert roots[n].order == after[id];
      }
    }
  }

  // ----- Every child has its root -----

  datatype Tables = Tables(roots: seq<Row>, children: seq<Row>)

  /** A commit's staged rows of the root table and of its child table. */
  datatype Commit = Commit(roots: seq<Row>, children: seq<Row>)

  ghost function Committed(t: Tables, c: Commit): Tables {
    Tables(Upserted(t.roots, c.roots), Replaced(t.children, c.children, c.roots))
  }

  ghost function After(commits: seq<Commit>): Tables {
    if commits == [] then Tables([], [])
    else Committed(After(commits[..|commits| - 1]), commits[|commits| - 1])
  }

  ghost predicate IsChildOf(child: Row, root: Row) {
    child.key == root.key && child.order == root.order
  }

  /** Whether the child row carries the id and the sequence of a stored root row. */
  ghost predicate Rooted(roots: seq<Row>, child: Row) {
    exists i :: 0 <= i < |roots| && IsChildOf(child, roots[i])
  }

  lemma {:induction false} AddedHas(incoming: seq<Row>, roots: seq<Row>, n: nat, row: Row)
    requires n <= |incoming| && row in Added(incoming, roots, n)
    ensures IsWinners(roots, row)
  {
    if row != incoming[n - 1] || !IsWinners(roots, incoming[n - 1]) {
      AddedHas(incoming, roots, n - 1, row);
    }
  }

  lemma KeptChildIsRooted(t: Tables, c: Commit, child: Row)
    requires child in Kept(t.children, c.roots, |t.children|) && Rooted(t.roots, child)
    ensures Rooted(Committed(t, c).roots, child)
  {
    KeptHas(t.children, c.roots, |t.children|, child);
    var i :| 0 <= i < |t.roots| && IsChildOf(child, t.roots[i]);
    KeptHas(t.roots, c.roots, |t.roots|, t.roots[i]);
    assert t.roots[i] in Committed(t, c).roots;
  }

  lemma AddedChildIsRooted(t: Tables, c: Commit, child: Row)
    requires child in Added(c.children, c.roots, |c.children|)
    ensures Rooted(Committed(t, c).roots, child)
  {
    AddedHas(c.children, c.roots, |c.children|, child);
    var root := Winning(c.roots)[child.key];
    WonIsDistinct(c.roots, |c.roots|);
    assert root in Won(c.roots, |c.roots|);
    assert root in Committed(t, c).roots;
    assert IsChildOf(child, root);
  }

  /** After any commits, whatever they stage, every stored child row carries the id and the sequence
      of a stored root row, whose keys are unique. */
  lemma {:induction false} EveryChildIsRooted(commits: seq<Commit>, child: Row)
    requires child in After(commits).children
    ensures Rooted(After(commits).roots, child)
  {
    var t, c := After(commits[..|commits| - 1]), commits[|commits| - 1];
    if child in Kept(t.children, c.roots, |t.children|) {
      KeptHas(t.children, c.roots, |t.children|, child);
      EveryChildIsRooted(commits[..|commits| - 1], child);
      KeptChildIsRooted(t, c, child);
    } else {
      AddedChildIsRooted(t, c, child);
    }
  }

  lemma {:induction false} RootsStayDistinct(commits: seq<Commit>)
    ensures Distinct(After(commits).roots)
  {
    if commits != [] {
      RootsStayDistinct(commits[..|commits| - 1]);
      UpsertIsOverride(After(commits[..|commits| - 1]).roots, commits[|commits| - 1].roots);
    }
  }

  // ----- A root's children are its winning row's -----

  /** A record of a normalized stream: its root row, and what each of its child rows holds. */
  datatype Doc = Doc(root: Row, children: seq<nat>)

  /** The child rows of a record: each carries its root's id and sequence. */
  function Stamped(doc: Doc): (rows: seq<Row>)
    ensures |rows| == |doc.children|
    ensures forall i | 0 <= i < |rows| :: IsChildOf(rows[i], doc.root) && rows[i].data == doc.children[i]
  {
    seq(|doc.children|, i requires 0 <= i < |doc.children| => Row(doc.root.key, doc.root.order, doc.children[i]))
  }

  function Roots(docs: seq<Doc>): (rows: seq<Row>)
    ensures |rows| == |docs| && forall i | 0 <= i < |docs| :: rows[i] == docs[i].root
  {
    seq(|docs|, i requires 0 <= i < |docs| => docs[i].root)
  }

  function ChildRows(docs: seq<Doc>): seq<Row> {
    if docs == [] then [] else ChildRows(docs[..|docs| - 1]) + Stamped(docs[|docs| - 1])
  }

  function Staged(docs: seq<Doc>): Commit {
    Commit(Roots(docs), ChildRows(docs))
  }

  /** The rows of a root id, in order. */
  function Of(rows: seq<Row>, id: nat): seq<Row> {
    if rows == [] then []
    else
      var before := Of(rows[..|rows| - 1], id);
      if rows[|rows| - 1].key == id then before + [rows[|rows| - 1]] else before
  }

  lemma {:induction false} OfTwo(a: seq<Row>, b: seq<Row>, id: nat)
    ensures Of(a + b, id) == Of(a, id) + Of(b, id)
  {
    if b == [] {
      assert a + b == a;
    } else {
      assert (a + b)[..|a + b| - 1] == a + b[..|b| - 1];
      OfTwo(a, b[..|b| - 1], id);
    }
  }

  lemma {:induction false} OfKept(rows: seq<Row>, roots: seq<Row>, n: nat, id: nat)
    requires n <= |rows|
    ensures Of(Kept(rows, roots, n), id) == if HasKey(roots, id) then [] else Of(rows[..n], id)
  {
    if n > 0 {
      OfKept(rows, roots, n - 1, id);
      assert rows[..n][..n - 1] == rows[..n - 1];
    }
  }

  /** The incoming rows of an id that are of its winning row, in order. */
  ghost function Chosen(rows: seq<Row>, id: nat, order: nat): seq<Row> {
    if rows == [] then []
    else
      var before, last := Chosen(rows[..|rows| - 1], id, order), rows[|rows| - 1];
      if last.key == id && last.order == order then before + [last] else before
  }

  lemma {:induction false} OfAdded(incoming: seq<Row>, roots: seq<Row>, n: nat, id: nat)
    requires n <= |incoming|
    ensures Of(Added(incoming, roots, n), id)
         == if id in Winning(roots) then Chosen(incoming[..n], id, Winning(roots)[id].order) else []
  {
    if n > 0 {
      OfAdded(incoming, roots, n - 1, id);
      assert incoming[..n][..n - 1] == incoming[..n - 1];
    }
  }

  /** A root published again has exactly the rows staged with its winning row's id and sequence; the
      children of any other root are as they were. */
  lemma ChildrenOf(t: Tables, c: Commit, id: nat)
    ensures Of(Committed(t, c).children, id)
         == if id in Winning(c.roots) then Chosen(c.children, id, Winning(c.roots)[id].order)
            else Of(t.children, id)
  {
    OfTwo(Kept(t.children, c.roots, |t.children|), Added(c.children, c.roots, |c.children|), id);
    OfKept(t.children, c.roots, |t.children|, id);
    OfAdded(c.children, c.roots, |c.children|, id);
    WinningIs(c.roots, id);
    assert t.children[..|t.children|] == t.children && c.children[..|c.children|] == c.children;
  }

  lemma {:induction false} ChosenOfTwo(a: seq<Row>, b: seq<Row>, id: nat, order: nat)
    ensures Chosen(a + b, id, order) == Chosen(a, id, order) + Chosen(b, id, order)
  {
    if b == [] {
      assert a + b == a;
    } else {
      assert (a + b)[..|a + b| - 1] == a + b[..|b| - 1];
      ChosenOfTwo(a, b[..|b| - 1], id, order);
    }
  }

  lemma {:induction false} ChosenAllOrNone(rows: seq<Row>, id: nat, order: nat, all: bool)
    requires forall i | 0 <= i < |rows| :: (rows[i].key == id && rows[i].order == order) == all
    ensures Chosen(rows, id, order) == if all then rows else []
  {
    if rows != [] {
      ChosenAllOrNone(rows[..|rows| - 1], id, order, all);
    }
  }

  lemma ChosenOfDoc(doc: Doc, id: nat, order: nat)
    ensures Chosen(Stamped(doc), id, order)
         == if doc.root.key == id && doc.root.order == order then Stamped(doc) else []
  {
    if doc.children != [] {
      ChosenAllOrNone(Stamped(doc), id, order, doc.root.key == id && doc.root.order == order);
    }
  }

  /** The children of the records of an id and a sequence, in order. */
  function OfDocs(docs: seq<Doc>, id: nat, order: nat): seq<Row> {
    if docs == [] then []
    else
      var before, last := OfDocs(docs[..|docs| - 1], id, order), docs[|docs| - 1];
      if IsOf(last, id, order) then before + Stamped(last) else before
  }

  predicate IsOf(doc: Doc, id: nat, order: nat) {
    doc.root.key == id && doc.root.order == order
  }

  lemma {:induction false} ChosenOfDocs(docs: seq<Doc>, id: nat, order: nat)
    ensures Chosen(ChildRows(docs), id, order) == OfDocs(docs, id, order)
  {
    if docs != [] {
      var before, last := docs[..|docs| - 1], docs[|docs| - 1];
      ChosenOfDocs(before, id, order);
      ChosenOfTwo(ChildRows(before), Stamped(last), id, order);
      ChosenOfDoc(last, id, order);
    }
  }

  lemma {:induction false} OfTwoDocs(a: seq<Doc>, b: seq<Doc>, id: nat, order: nat)
    ensures OfDocs(a + b, id, order) == OfDocs(a, id, order) + OfDocs(b, id, order)
  {
    if b == [] {
      assert a + b == a;
    } else {
      assert (a + b)[..|a + b| - 1] == a + b[..|b| - 1];
      OfTwoDocs(a, b[..|b| - 1], id, order);
    }
  }

  ghost predicate Childless(docs: seq<Doc>, id: nat, order: nat) {
    forall i | 0 <= i < |docs| && IsOf(docs[i], id, order) :: docs[i].children == []
  }

  lemma {:induction false} OfNone(docs: seq<Doc>, id: nat, order: nat)
    ensures OfDocs(docs, id, order) == [] <==> Childless(docs, id, order)
  {
    if docs != [] {
      var before, last := docs[..|docs| - 1], docs[|docs| - 1];
      OfNone(before, id, order);
      assert docs == before + [last];
      assert Childless(docs, id, order) <==>
             Childless(before, id, order) && (IsOf(last, id, order) ==> last.children == []);
    }
  }

  /** Whether no record after the one at `best` has its id and sequence, and a child. */
  ghost predicate Alone(docs: seq<Doc>, best: nat)
    requires best < |docs|
  {
    Childless(docs[best + 1..], docs[best].root.key, docs[best].root.order)
  }

  lemma OfTheFirst(docs: seq<Doc>, best: nat)
    requires best < |docs|
    requires forall i | 0 <= i < best :: !IsOf(docs[i], docs[best].root.key, docs[best].root.order)
    ensures OfDocs(docs, docs[best].root.key, docs[best].root.order) == Stamped(docs[best]) <==> Alone(docs, best)
  {
    var id, order := docs[best].root.key, docs[best].root.order;
    var before, first, after := docs[..best], [docs[best]], docs[best + 1..];
    assert docs == before + (first + after);
    OfTwoDocs(before, first + after, id, order);
    OfTwoDocs(first, after, id, order);
    OfNone(before, id, order);
    OfNone(after, id, order);
    assert first[..0] == [];
    assert OfDocs(first, id, order) == Stamped(docs[best]);
  }

  /** A root published again has exactly the children of its winning row, if and only if no other row
      staged with its id and sequence has a child. */
  lemma WinnersChildren(t: Tables, docs: seq<Doc>, best: nat)
    requires Wins(Roots(docs), best)
    ensures Of(Committed(t, Staged(docs)).children, docs[best].root.key) == Stamped(docs[best])
            <==> Alone(docs, best)
  {
    var roots, id := Roots(docs), docs[best].root.key;
    WinningIs(roots, id);
    assert HasKey(roots, id) by { assert roots[best].key == id; }
    var i: nat :| Wins(roots, i) && roots[i].key == id && Winning(roots)[id] == roots[i];
    OneWins(roots, i, best);
    ChildrenOf(t, Staged(docs), id);
    ChosenOfDocs(docs, id, docs[best].root.order);
    forall i: nat | i < best ensures !IsOf(docs[i], id, docs[best].root.order) {
      assert Beats(roots, best, i);
    }
    OfTheFirst(docs, best);
  }

  /** Two rows of one root staged with one sequence: the first wins, and the second's child is
      published with its own. */
  lemma TiedRowsMixTheirChildren()
    ensures var docs := [Doc(Row(1, 7, 10), [20]), Doc(Row(1, 7, 11), [21])];
            && Wins(Roots(docs), 0)
            && Of(Committed(Tables([], []), Staged(docs)).children, 1) != Stamped(docs[0])
  {
    var docs := [Doc(Row(1, 7, 10), [20]), Doc(Row(1, 7, 11), [21])];
    assert Wins(Roots(docs), 0);
    WinnersChildren(Tables([], []), docs, 0);
    assert IsOf(docs[1..][0], 1, 7) && docs[1..][0].children != [];
  }

  // ----- The two tables hold the documents last merged -----

  ghost function Best(docs: seq<Doc>, id: nat): (best: nat)
    requires id in Winning(Roots(docs))
    ensures Wins(Roots(docs), best) && docs[best].root.key == id && Winning(Roots(docs))[id] == docs[best].root
  {
    WinningIs(Roots(docs), id);
    var best: nat :| Wins(Roots(docs), best) && Roots(docs)[best].key == id
                     && Winning(Roots(docs))[id] == Roots(docs)[best];
    best
  }

  /** The documents stored after commits of records: each the winning record of its id, in the last
      commit that had one. */
  ghost function Documents(commits: seq<seq<Doc>>): map<nat, Doc> {
    if commits == [] then map[] else Merged(Documents(commits[..|commits| - 1]), commits[|commits| - 1])
  }

  ghost function Merged(documents: map<nat, Doc>, docs: seq<Doc>): map<nat, Doc> {
    documents + map id | id in Winning(Roots(docs)) :: docs[Best(docs, id)]
  }

  ghost function Commits(commits: seq<seq<Doc>>): seq<Commit> {
    if commits == [] then [] else Commits(commits[..|commits| - 1]) + [Staged(commits[|commits| - 1])]
  }

  /** Whether the tables hold the document of an id, or nothing of it. */
  ghost predicate Stored(t: Tables, documents: map<nat, Doc>, id: nat)
    requires Distinct(t.roots)
  {
    && (id in Table(t.roots) <==> id in documents)
    && (id in documents ==> Table(t.roots)[id] == documents[id].root)
    && Of(t.children, id) == (if id in documents then Stamped(documents[id]) else [])
  }

  lemma MergedWinner(documents: map<nat, Doc>, docs: seq<Doc>, id: nat)
    requires id in Winning(Roots(docs))
    ensures id in Merged(documents, docs) && Merged(documents, docs)[id] == docs[Best(docs, id)]
  {
  }

  lemma MergedOther(documents: map<nat, Doc>, docs: seq<Doc>, id: nat)
    requires id !in Winning(Roots(docs))
    ensures id in Merged(documents, docs) <==> id in documents
    ensures id in documents ==> Merged(documents, docs)[id] == documents[id]
  {
  }

  lemma CommittingRoots(t: Tables, docs: seq<Doc>, id: nat)
    requires Distinct(t.roots)
    ensures Distinct(Committed(t, Staged(docs)).roots)
    ensures var roots, winning := Table(Committed(t, Staged(docs)).roots), Winning(Roots(docs));
            if id in winning then id in roots && roots[id] == winning[id]
            else (id in roots <==> id in Table(t.roots)) && (id in roots ==> roots[id] == Table(t.roots)[id])
  {
    UpsertIsOverride(t.roots, Roots(docs));
  }

  /** A commit stores the document of an id it has exactly where the winner is alone, and leaves that of any
      other as it was. */
  lemma CommittingStores(t: Tables, documents: map<nat, Doc>, docs: seq<Doc>, id: nat)
    requires Distinct(t.roots)
    ensures Distinct(Committed(t, Staged(docs)).roots)
    ensures Stored(Committed(t, Staged(docs)), Merged(documents, docs), id)
            <==> if id in Winning(Roots(docs)) then Alone(docs, Best(docs, id)) else Stored(t, documents, id)
  {
    CommittingRoots(t, docs, id);
    if id in Winning(Roots(docs)) {
      MergedWinner(documents, docs, id);
      WinnersChildren(t, docs, Best(docs, id));
    } else {
      MergedOther(documents, docs, id);
      ChildrenOf(t, Staged(docs), id);
    }
  }

  /** Whether, in the last commit that has a record of an id, no other record of the winner's sequence after it
      has a child. */
  ghost predicate Whole(commits: seq<seq<Doc>>, id: nat) {
    commits == [] ||
    var docs := commits[|commits| - 1];
    if id in Winning(Roots(docs)) then Alone(docs, Best(docs, id)) else Whole(commits[..|commits| - 1], id)
  }

  /** After any commits of records, the root and child tables together hold of an id exactly the document last
      merged, with its own children and no others, if and only if the last commit that has a record of the id
      has no other with a child that ties with the winner. */
  lemma {:induction false} TablesHoldTheDocuments(commits: seq<seq<Doc>>, id: nat)
    ensures Distinct(After(Commits(commits)).roots)
    ensures Stored(After(Commits(commits)), Documents(commits), id) <==> Whole(commits, id)
  {
    CommitsCount(commits);
    if commits == [] {
      assert Stored(Tables([], []), map[], id);
    } else {
      var before, docs := commits[..|commits| - 1], commits[|commits| - 1];
      CommitsCount(before);
      TablesHoldTheDocuments(before, id);
      assert Commits(commits)[..|commits| - 1] == Commits(before);
      CommittingStores(After(Commits(before)), Documents(before), docs, id);
    }
  }

  lemma {:induction false} CommitsCount(commits: seq<seq<Doc>>)
    ensures |Commits(commits)| == |commits|
  {
    if commits != [] {
      CommitsCount(commits[..|commits| - 1]);
    }
  }
}
