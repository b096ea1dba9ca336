/** The lazy table behind a merge of changes, in which a row only catches up with truncates when something
    looks at it, refined to the eager one of `Changes`, where each truncate visits every row. */
module ChangeTable {
  import opened Wrappers
  import opened Changes

  /** An entry of the lazy table: the eager row as of the first `met` truncates, under its key. */
  datatype Kept = Kept(key: nat, order: nat, cells: seq<Cell>, met: nat, truncated: bool) {
    function Row(): Row { Changes.Row(order, cells, truncated) }
  }

  // ----- Meeting truncates, one after another -----

  ghost predicate Rising(layout: Layout, truncates: seq<Change>) {
    && (forall i | 0 <= i < |truncates| :: |truncates[i].cells| == layout.width)
    && (forall i, j | 0 <= i < j < |truncates| :: truncates[i].order < truncates[j].order)
  }

  /** A row once it has met the truncates from `met` up to `n`, one after another. */
  function Met(layout: Layout, row: Row, truncates: seq<Change>, met: nat, n: nat): (left: Option<Row>)
    requires layout.Valid() && |row.cells| == layout.width && met <= n <= |truncates|
    requires forall i | 0 <= i < |truncates| :: |truncates[i].cells| == layout.width
    ensures left.Some? ==> |left.value.cells| == layout.width
    decreases n
  {
    if n == met then Some(row)
    else
      var before := Met(layout, row, truncates, met, n - 1);
      if before.None? then None else Meeting(layout, before.value, truncates[n - 1])
  }

  /** A row that met a truncate stands at or past it. */
  lemma MetStandsPast(layout: Layout, row: Row, truncates: seq<Change>, met: nat, n: nat)
    requires layout.Valid() && |row.cells| == layout.width && met < n <= |truncates|
    requires forall i | 0 <= i < |truncates| :: |truncates[i].cells| == layout.width
    ensures var left := Met(layout, row, truncates, met, n);
            left.Some? ==> left.value.order >= truncates[n - 1].order
  {
  }

  // ----- Meeting them all at once -----

  /** How many truncates from `met` on, up to `n`, a row stands at or past. */
  function Passed(truncates: seq<Change>, met: nat, n: nat, order: nat): (first: nat)
    requires met <= n <= |truncates|
    ensures met <= first <= n
    ensures forall i | met <= i < first :: truncates[i].order <= order
    ensures first < n ==> truncates[first].order > order
    decreases n - met
  {
    if met == n || truncates[met].order > order then met else Passed(truncates, met + 1, n, order)
  }

  predicate Timed(layout: Layout, truncate: Change)
    requires layout.Valid() && |truncate.cells| == layout.width
  {
    layout.deleted.Some? && truncate.cells[layout.deleted.value].Some?
  }

  /** The positions of the truncates up to `n` that say when they deleted. */
  function TimedOf(layout: Layout, truncates: seq<Change>, n: nat): (timed: seq<nat>)
    requires layout.Valid() && n <= |truncates|
    requires forall i | 0 <= i < |truncates| :: |truncates[i].cells| == layout.width
    ensures forall k | 0 <= k < |timed| :: timed[k] < n
    ensures forall k | 0 <= k < |timed| :: Timed(layout, truncates[timed[k]])
    ensures forall i, j | 0 <= i < j < |timed| :: timed[i] < timed[j]
  {
    if n == 0 then []
    else
      var before := TimedOf(layout, truncates, n - 1);
      if Timed(layout, truncates[n - 1]) then before + [n - 1] else before
  }

  /** How many positions at the front are before `first`. */
  function PositionsBefore(positions: seq<nat>, first: nat): (count: nat)
    ensures count <= |positions| && forall i | 0 <= i < count :: positions[i] < first
    ensures count < |positions| ==> positions[count] >= first
  {
    if positions == [] || positions[0] >= first then 0
    else
      var rest := PositionsBefore(positions[1..], first);
      assert forall i | 1 <= i < |positions| :: positions[i] == positions[1..][i - 1];
      rest + 1
  }

  /** The truncate that says when a row the one at `first` is the first to delete was deleted: the first
      from there on that says when, or else the last. */
  function Deleter(layout: Layout, truncates: seq<Change>, first: nat, n: nat): (place: nat)
    requires layout.Valid() && first < n <= |truncates|
    requires forall i | 0 <= i < |truncates| :: |truncates[i].cells| == layout.width
    ensures first <= place < n && (Timed(layout, truncates[place]) || place == n - 1)
    ensures forall i | first <= i < place :: !Timed(layout, truncates[i])
    decreases n - first
  {
    if first == n - 1 || Timed(layout, truncates[first]) then first else Deleter(layout, truncates, first + 1, n)
  }

  /** A row that the truncates up to `n` delete, marked by them all. */
  function MarkedByAll(layout: Layout, row: Row, truncates: seq<Change>, first: nat, n: nat): Row
    requires layout.Valid() && !layout.Hard() && |row.cells| == layout.width && first < n <= |truncates|
    requires forall i | 0 <= i < |truncates| :: |truncates[i].cells| == layout.width
  {
    var last, at := truncates[n - 1], layout.deleted.value;
    var cells := row.cells[layout.sequence := last.cells[layout.sequence]];
    Changes.Row(last.order,
                if cells[at].None? then cells[at := truncates[Deleter(layout, truncates, first, n)].cells[at]]
                else cells,
                true)
  }

  function MetAtOnce(layout: Layout, row: Row, truncates: seq<Change>, met: nat, n: nat): Option<Row>
    requires layout.Valid() && |row.cells| == layout.width && met <= n <= |truncates|
    requires forall i | 0 <= i < |truncates| :: |truncates[i].cells| == layout.width
  {
    var first := Passed(truncates, met, n, row.order);
    if first == n then Some(row)
    else if layout.Hard() then None
    else Some(MarkedByAll(layout, row, truncates, first, n))
  }

  lemma PassedLess(truncates: seq<Change>, met: nat, n: nat, order: nat)
    requires met < n <= |truncates|
    ensures Passed(truncates, met, n - 1, order)
         == if Passed(truncates, met, n, order) == n then n - 1 else Passed(truncates, met, n, order)
  {
  }

  /** The last truncate marks again a row those before it marked, and leaves it when it was deleted. */
  lemma MarkedOneMore(layout: Layout, row: Row, truncates: seq<Change>, first: nat, n: nat)
    requires layout.Valid() && !layout.Hard() && |row.cells| == layout.width && first + 1 < n <= |truncates|
    requires Rising(layout, truncates)
    ensures Meeting(layout, MarkedByAll(layout, row, truncates, first, n - 1), truncates[n - 1])
         == Some(MarkedByAll(layout, row, truncates, first, n))
  {
    var before := MarkedByAll(layout, row, truncates, first, n - 1);
    var after := MarkedByAll(layout, row, truncates, first, n);
    var at, last := layout.deleted.value, truncates[n - 1];
    assert before.order < last.order;
    DeleterOneMore(layout, truncates, first, n);
    var less, more := Deleter(layout, truncates, first, n - 1), Deleter(layout, truncates, first, n);
    assert Marked(layout, before, last).cells == after.cells;
  }

  lemma DeleterOneMore(layout: Layout, truncates: seq<Change>, first: nat, n: nat)
    requires layout.Valid() && first + 1 < n <= |truncates|
    requires forall i | 0 <= i < |truncates| :: |truncates[i].cells| == layout.width
    ensures Deleter(layout, truncates, first, n)
         == if Timed(layout, truncates[Deleter(layout, truncates, first, n - 1)])
            then Deleter(layout, truncates, first, n - 1) else n - 1
  {
  }

  lemma {:induction false} MetAtOnceIsMet(layout: Layout, row: Row, truncates: seq<Change>, met: nat, n: nat)
    requires layout.Valid() && |row.cells| == layout.width && met <= n <= |truncates| && Rising(layout, truncates)
    ensures Met(layout, row, truncates, met, n) == MetAtOnce(layout, row, truncates, met, n)
    decreases n
  {
    if met < n {
      MetAtOnceIsMet(layout, row, truncates, met, n - 1);
      PassedLess(truncates, met, n, row.order);
      var first := Passed(truncates, met, n, row.order);
      if first < n - 1 && !layout.Hard() {
        MarkedOneMore(layout, row, truncates, first, n);
      }
    }
  }

  lemma {:induction false} TimedOfHas(layout: Layout, truncates: seq<Change>, n: nat, p: nat)
    requires layout.Valid() && p < n <= |truncates|
    requires forall i | 0 <= i < |truncates| :: |truncates[i].cells| == layout.width
    requires Timed(layout, truncates[p])
    ensures p in TimedOf(layout, truncates, n)
  {
    if p < n - 1 {
      TimedOfHas(layout, truncates, n - 1, p);
    }
  }

  /** The search among the timed positions finds the truncate that says when. */
  lemma SearchFindsDeleter(layout: Layout, truncates: seq<Change>, first: nat)
    requires layout.Valid() && first < |truncates|
    requires forall i | 0 <= i < |truncates| :: |truncates[i].cells| == layout.width
    ensures var timed := TimedOf(layout, truncates, |truncates|);
            var count := PositionsBefore(timed, first);
            var place := Deleter(layout, truncates, first, |truncates|);
            if count < |timed| then timed[count] < |truncates| && timed[count] == place else place == |truncates| - 1
  {
    var n := |truncates|;
    var timed := TimedOf(layout, truncates, n);
    var count, place := PositionsBefore(timed, first), Deleter(layout, truncates, first, n);
    if Timed(layout, truncates[place]) {
      TimedOfHas(layout, truncates, n, place);
      var k :| 0 <= k < |timed| && timed[k] == place;
      assert count <= k;
    }
  }

  lemma {:induction false} MetEarlier(layout: Layout, row: Row, truncates: seq<Change>, change: Change, met: nat,
                                      n: nat)
    requires layout.Valid() && |row.cells| == layout.width && met <= n <= |truncates| && |change.cells| == layout.width
    requires forall i | 0 <= i < |truncates| :: |truncates[i].cells| == layout.width
    ensures Met(layout, row, truncates + [change], met, n) == Met(layout, row, truncates, met, n)
    decreases n
  {
    if met < n {
      MetEarlier(layout, row, truncates, change, met, n - 1);
      assert (truncates + [change])[n - 1] == truncates[n - 1];
    }
  }

  lemma {:induction false} TimedEarlier(layout: Layout, truncates: seq<Change>, change: Change, n: nat)
    requires layout.Valid() && n <= |truncates| && |change.cells| == layout.width
    requires forall i | 0 <= i < |truncates| :: |truncates[i].cells| == layout.width
    ensures TimedOf(layout, truncates + [change], n) == TimedOf(layout, truncates, n)
  {
    if n > 0 {
      TimedEarlier(layout, truncates, change, n - 1);
      assert (truncates + [change])[n - 1] == truncates[n - 1];
    }
  }

  // ----- The table -----

  /** Rows by their keys, the last of a key. */
  ghost function RowsOf(pairs: seq<(nat, Row)>): map<nat, Row> {
    if pairs == [] then map[] else RowsOf(pairs[..|pairs| - 1])[pairs[|pairs| - 1].0 := pairs[|pairs| - 1].1]
  }

  lemma {:induction false} RowsFit(layout: Layout, pairs: seq<(nat, Row)>)
    requires forall i | 0 <= i < |pairs| :: |pairs[i].1.cells| == layout.width
    ensures AllFit(layout, RowsOf(pairs))
  {
    if pairs != [] {
      RowsFit(layout, pairs[..|pairs| - 1]);
    }
  }

  /** Whether a row held is of the table's width, and stands at or past the last truncate if it has met
      it. */
  predicate Keeps(layout: Layout, kept: Kept, truncates: seq<Change>) {
    && |kept.cells| == layout.width && kept.met <= |truncates|
    && (kept.met == |truncates| > 0 ==> kept.order >= truncates[|truncates| - 1].order)
  }

  /** What a row held is once it has met every truncate. */
  function Standing(layout: Layout, kept: Option<Kept>, truncates: seq<Change>): (row: Option<Row>)
    requires layout.Valid() && (kept.Some? ==> Keeps(layout, kept.value, truncates))
    requires forall i | 0 <= i < |truncates| :: |truncates[i].cells| == layout.width
    ensures row.Some? ==> |row.value.cells| == layout.width
    ensures row.Some? && truncates != [] ==> row.value.order >= truncates[|truncates| - 1].order
  {
    if kept.None? then None
    else
      if kept.value.met < |truncates| then
        MetStandsPast(layout, kept.value.Row(), truncates, kept.value.met, |truncates|);
        Met(layout, kept.value.Row(), truncates, kept.value.met, |truncates|)
      else Some(kept.value.Row())
  }

  lemma StandingOneMore(layout: Layout, kept: Kept, truncates: seq<Change>, change: Change)
    requires layout.Valid() && Keeps(layout, kept, truncates) && |change.cells| == layout.width
    requires forall i | 0 <= i < |truncates| :: |truncates[i].cells| == layout.width
    ensures Keeps(layout, kept, truncates + [change])
    ensures var before := Standing(layout, Some(kept), truncates);
            Standing(layout, Some(kept), truncates + [change])
            == if before.None? then None else Meeting(layout, before.value, change)
  {
    MetEarlier(layout, kept.Row(), truncates, change, kept.met, |truncates|);
  }

  /** The table's rows, where each key's is, the truncates applied so far, and which of them say when. */
  datatype Lazy = Lazy(
    layout: Layout, rows: seq<Option<Kept>>, byKey: map<nat, nat>, truncates: seq<Change>, timed: seq<nat>)

  ghost predicate KeptAt(t: Lazy, i: nat) {
    i < |t.rows| && t.rows[i].Some? ==>
      && Keeps(t.layout, t.rows[i].value, t.truncates)
      && t.rows[i].value.key in t.byKey && t.byKey[t.rows[i].value.key] == i
  }

  ghost predicate Placed(t: Lazy, key: nat) {
    key in t.byKey ==>
      t.byKey[key] < |t.rows| && (t.rows[t.byKey[key]].Some? ==> t.rows[t.byKey[key]].value.key == key)
  }

  ghost predicate Sound(t: Lazy) {
    && t.layout.Valid() && Rising(t.layout, t.truncates)
    && t.timed == TimedOf(t.layout, t.truncates, |t.truncates|)
    && (forall i: nat :: KeptAt(t, i))
    && (forall key: nat :: Placed(t, key))
    && (forall a: nat, b: nat :: Apart(t, a, b))
  }

  /** No two keys have one place. */
  ghost predicate Apart(t: Lazy, a: nat, b: nat) {
    a in t.byKey && b in t.byKey && t.byKey[a] == t.byKey[b] ==> a == b
  }

  /** The row held of a key. */
  ghost function Held(t: Lazy, key: nat): (kept: Option<Kept>)
    requires Sound(t)
    ensures kept.Some? ==> Keeps(t.layout, kept.value, t.truncates) && kept.value.key == key
  {
    assert Placed(t, key);
    if key !in t.byKey then None
    else
      assert KeptAt(t, t.byKey[key]);
      t.rows[t.byKey[key]]
  }

  /** What a key's row is once it has met every truncate. */
  ghost function Stands(t: Lazy, key: nat): (row: Option<Row>)
    requires Sound(t)
    ensures row.Some? ==> |row.value.cells| == t.layout.width && key in t.byKey
    ensures row.Some? && t.truncates != [] ==> row.value.order >= t.truncates[|t.truncates| - 1].order
  {
    Standing(t.layout, Held(t, key), t.truncates)
  }

  /** The rows the table holds, by key, once every row has met every truncate. */
  ghost function Contents(t: Lazy): (contents: map<nat, Row>)
    requires Sound(t)
    ensures AllFit(t.layout, contents)
  {
    map key | key in t.byKey && Stands(t, key).Some? :: Stands(t, key).value
  }

  lemma ContentsAt(t: Lazy, key: nat)
    requires Sound(t)
    ensures At(Contents(t), key) == Stands(t, key)
  {
  }

  /** Tables whose keys stand alike hold the same rows. */
  lemma SameContents(t: Lazy, rows: map<nat, Row>)
    requires Sound(t) && forall key :: Stands(t, key) == At(rows, key)
    ensures Contents(t) == rows
  {
    forall key ensures At(Contents(t), key) == At(rows, key) {
      ContentsAt(t, key);
      assert Stands(t, key) == At(rows, key);
    }
    MapsAgree(Contents(t), rows);
  }

  lemma TruncateAgain(t: Lazy, change: Change)
    requires Sound(t) && Fits(t.layout, change)
    requires t.truncates != [] && t.truncates[|t.truncates| - 1].order == change.order
    ensures Contents(t) == Truncating(t.layout, Contents(t), change)
  {
    forall key ensures At(Contents(t), key) == At(Truncating(t.layout, Contents(t), change), key) {
      ContentsAt(t, key);
    }
    MapsAgree(Contents(t), Truncating(t.layout, Contents(t), change));
  }

  lemma TruncateIsSound(t: Lazy, t': Lazy, change: Change)
    requires Sound(t) && Fits(t.layout, change)
    requires t.truncates != [] ==> t.truncates[|t.truncates| - 1].order < change.order
    requires t' == t.(truncates := t.truncates + [change],
                      timed := if Timed(t.layout, change) then t.timed + [|t.truncates|] else t.timed)
    ensures Sound(t')
  {
    TimedEarlier(t.layout, t.truncates, change, |t.truncates|);
    forall i: nat ensures KeptAt(t', i) {
      assert KeptAt(t, i);
    }
    forall key: nat ensures Placed(t', key) {
      assert Placed(t, key);
    }
    forall a: nat, b: nat ensures Apart(t', a, b) {
      assert Apart(t, a, b);
    }
  }

  lemma TruncateMeets(t: Lazy, t': Lazy, change: Change)
    requires Sound(t) && Sound(t') && Fits(t.layout, change)
    requires t'.layout == t.layout && t'.rows == t.rows && t'.byKey == t.byKey && t'.truncates == t.truncates + [change]
    ensures Contents(t') == Truncating(t.layout, Contents(t), change)
  {
    forall key ensures Stands(t', key) == At(Truncating(t.layout, Contents(t), change), key) {
      ContentsAt(t, key);
      if Held(t, key).Some? {
        StandingOneMore(t.layout, Held(t, key).value, t.truncates, change);
      }
    }
    SameContents(t', Truncating(t.layout, Contents(t), change));
  }

  /** A key's row in place of the one held. */
  lemma SlotReplaced(t: Lazy, t': Lazy, key: nat, kept: Option<Kept>)
    requires Sound(t) && key in t.byKey && t.byKey[key] < |t.rows|
    requires kept.Some? ==> Keeps(t.layout, kept.value, t.truncates) && kept.value.key == key
    requires t' == t.(rows := t.rows[t.byKey[key] := kept])
    ensures Sound(t')
    ensures forall k :: Stands(t', k) == if k == key then Standing(t.layout, kept, t.truncates) else Stands(t, k)
  {
    forall i: nat ensures KeptAt(t', i) {
      assert KeptAt(t, i);
    }
    forall k: nat ensures Placed(t', k) {
      assert Placed(t, k) && Apart(t, k, key);
    }
    forall a: nat, b: nat ensures Apart(t', a, b) {
      assert Apart(t, a, b);
    }
    forall k: nat ensures Held(t', k) == if k == key then kept else Held(t, k) {
      assert Placed(t, k) && Apart(t, k, key);
    }
  }

  /** A row of a key that has no place. */
  lemma SlotAdded(t: Lazy, t': Lazy, key: nat, kept: Kept)
    requires Sound(t) && key !in t.byKey && Keeps(t.layout, kept, t.truncates) && kept.key == key
    requires t' == t.(rows := t.rows + [Some(kept)], byKey := t.byKey[key := |t.rows|])
    ensures Sound(t')
    ensures forall k :: Stands(t', k) == if k == key then Standing(t.layout, Some(kept), t.truncates) else Stands(t, k)
  {
    forall i: nat ensures KeptAt(t', i) {
      assert KeptAt(t, i);
    }
    forall k: nat ensures Placed(t', k) {
      assert Placed(t, k);
    }
    forall a: nat, b: nat ensures Apart(t', a, b) {
      assert Apart(t, a, b) && Placed(t, a) && Placed(t, b);
    }
    forall k: nat ensures Held(t', k) == if k == key then Some(kept) else Held(t, k) {
      assert Placed(t, k);
    }
  }

  /** A key's row and its place gone. */
  lemma SlotRemoved(t: Lazy, t': Lazy, key: nat)
    requires Sound(t)
    requires t' == if key in t.byKey && t.byKey[key] < |t.rows|
                   then t.(rows := t.rows[t.byKey[key] := None], byKey := t.byKey - {key}) else t
    ensures Sound(t')
    ensures forall k :: Stands(t', k) == if k == key then None else Stands(t, k)
  {
    assert Placed(t, key);
    forall i: nat ensures KeptAt(t', i) {
      assert KeptAt(t, i);
    }
    forall k: nat ensures Placed(t', k) {
      assert Placed(t, k) && Apart(t, k, key);
    }
    forall a: nat, b: nat ensures Apart(t', a, b) {
      assert Apart(t, a, b);
    }
    forall k: nat ensures Held(t', k) == if k == key then None else Held(t, k) {
      assert Placed(t, k) && Apart(t, k, key);
    }
  }

  /** A row held once it has met all the truncates it has not met. */
  function MetAll(layout: Layout, kept: Kept, truncates: seq<Change>): Option<Kept>
    requires layout.Valid() && Keeps(layout, kept, truncates)
    requires forall i | 0 <= i < |truncates| :: |truncates[i].cells| == layout.width
  {
    var n := |truncates|;
    var first := Passed(truncates, kept.met, n, kept.order);
    if first == n then Some(kept.(met := n))
    else if layout.Hard() then None
    else
      var row := MarkedByAll(layout, kept.Row(), truncates, first, n);
      Some(Kept(kept.key, row.order, row.cells, n, true))
  }

  /** It stands where it stood. */
  lemma MeetingAtOnce(layout: Layout, kept: Kept, truncates: seq<Change>)
    requires layout.Valid() && Rising(layout, truncates) && Keeps(layout, kept, truncates)
    ensures var met := MetAll(layout, kept, truncates);
            && (met.Some? ==>
                  Keeps(layout, met.value, truncates) && met.value.met == |truncates| && met.value.key == kept.key)
            && Standing(layout, met, truncates) == Standing(layout, Some(kept), truncates)
  {
    MetAtOnceIsMet(layout, kept.Row(), truncates, kept.met, |truncates|);
  }

  /** Catches a row up in one go, by two searches, in place of one truncate after another. */
  method MeetRow(layout: Layout, kept: Kept, truncates: seq<Change>, timed: seq<nat>) returns (met: Option<Kept>)
    requires layout.Valid() && Keeps(layout, kept, truncates) && truncates != []
    requires forall i | 0 <= i < |truncates| :: |truncates[i].cells| == layout.width
    requires timed == TimedOf(layout, truncates, |truncates|)
    ensures met == MetAll(layout, kept, truncates)
  {
    var n := |truncates|;
    var last, first := truncates[n - 1], Passed(truncates, kept.met, n, kept.order);
    if first == n {
      return Some(kept.(met := n));
    }
    if layout.Hard() {
      return None;
    }
    SearchFindsDeleter(layout, truncates, first);
    var count := PositionsBefore(timed, first);
    var deleter := if count < |timed| then truncates[timed[count]] else last;
    var at := layout.deleted.value;
    var cells := kept.cells[layout.sequence := last.cells[layout.sequence]];
    if cells[at].None? {
      cells := cells[at := deleter.cells[at]];
    }
    return Some(Kept(kept.key, last.order, cells, n, true));
  }

  // ----- Places -----

  /** Of some keys, those of a set, in order. */
  function Only(keys: seq<nat>, kept: set<nat>): (some: seq<nat>)
    ensures forall key :: key in some <==> key in keys && key in kept
  {
    if keys == [] then []
    else
      var init, last := keys[..|keys| - 1], keys[|keys| - 1];
      assert keys == init + [last];
      if last in kept then Only(init, kept) + [last] else Only(init, kept)
  }

  function Without(keys: seq<nat>, key: nat): seq<nat> { Only(keys, (set k | k in keys) - {key}) }

  ghost predicate RisesAt(byKey: map<nat, nat>, keys: seq<nat>, i: nat, j: nat) {
    i < j < |keys| ==> keys[i] in byKey && keys[j] in byKey && byKey[keys[i]] < byKey[keys[j]]
  }

  /** Whether keys are in the order of their places. */
  ghost predicate Rises(byKey: map<nat, nat>, keys: seq<nat>) {
    forall i: nat, j: nat :: RisesAt(byKey, keys, i, j)
  }

  /** Whether some keys are all that have a place, in the order of their places. */
  ghost predicate Lists(byKey: map<nat, nat>, order: seq<nat>) {
    (forall key: nat :: key in byKey <==> key in order) && Rises(byKey, order)
  }

  lemma RisesFewer(byKey: map<nat, nat>, keys: seq<nat>)
    requires keys != [] && Rises(byKey, keys)
    ensures Rises(byKey, keys[..|keys| - 1])
  {
    var init := keys[..|keys| - 1];
    forall i: nat, j: nat ensures RisesAt(byKey, init, i, j) {
      assert RisesAt(byKey, keys, i, j);
    }
  }

  lemma RisesOn(byKey: map<nat, nat>, keys: seq<nat>, key: nat)
    requires Rises(byKey, keys) && key in byKey
    requires forall k | k in keys :: k in byKey && byKey[k] < byKey[key]
    ensures Rises(byKey, keys + [key])
  {
    forall i: nat, j: nat ensures RisesAt(byKey, keys + [key], i, j) {
      assert RisesAt(byKey, keys, i, j);
      assert i < |keys| ==> keys[i] in keys;
    }
  }

  lemma RisesStill(byKey: map<nat, nat>, other: map<nat, nat>, keys: seq<nat>)
    requires Rises(byKey, keys) && forall k | k in keys && k in byKey :: k in other && other[k] == byKey[k]
    ensures Rises(other, keys)
  {
    forall i: nat, j: nat ensures RisesAt(other, keys, i, j) {
      assert RisesAt(byKey, keys, i, j);
      assert i < j < |keys| ==> keys[i] in keys && keys[j] in keys;
    }
  }

  lemma {:induction false} OnlyRises(byKey: map<nat, nat>, keys: seq<nat>, kept: set<nat>)
    requires Rises(byKey, keys) && forall k | k in keys :: k in byKey
    ensures Rises(byKey, Only(keys, kept))
  {
    if keys != [] {
      var init, last := keys[..|keys| - 1], keys[|keys| - 1];
      RisesFewer(byKey, keys);
      assert keys == init + [last];
      OnlyRises(byKey, init, kept);
      forall k | k in init ensures byKey[k] < byKey[last] {
        var i: nat :| i < |init| && init[i] == k;
        assert RisesAt(byKey, keys, i, |keys| - 1);
      }
      if last in kept {
        RisesOn(byKey, Only(init, kept), last);
      }
    }
  }

  /** The last of keys in the order of their places has the greatest. */
  lemma LastIsGreatest(byKey: map<nat, nat>, keys: seq<nat>, key: nat)
    requires Rises(byKey, keys) && key in keys && key in byKey
    ensures keys[|keys| - 1] in byKey && byKey[key] <= byKey[keys[|keys| - 1]]
    ensures key == keys[|keys| - 1] <==> key !in keys[..|keys| - 1]
  {
    var i: nat :| i < |keys| && keys[i] == key;
    assert RisesAt(byKey, keys, i, |keys| - 1);
    if key in keys[..|keys| - 1] {
      var j: nat :| j < |keys| - 1 && keys[j] == key;
      assert RisesAt(byKey, keys, j, |keys| - 1);
    }
  }

  /** Keys in the order of their places are the same where they are the same set. */
  lemma {:induction false} OneOrder(byKey: map<nat, nat>, a: seq<nat>, b: seq<nat>)
    requires Rises(byKey, a) && Rises(byKey, b) && forall key :: key in a <==> key in b
    requires forall key | key in a :: key in byKey
    ensures a == b
  {
    HasFirst(a);
    HasFirst(b);
    if a != [] {
      var x, y := a[|a| - 1], b[|b| - 1];
      assert x in a && y in b;
      LastIsGreatest(byKey, a, y);
      LastIsGreatest(byKey, b, x);
      var i: nat :| i < |a| && a[i] == y;
      assert RisesAt(byKey, a, i, |a| - 1);
      assert x == y;
      SameBefore(byKey, a, b);
      RisesFewer(byKey, a);
      RisesFewer(byKey, b);
      OneOrder(byKey, a[..|a| - 1], b[..|b| - 1]);
    }
  }

  lemma HasFirst(keys: seq<nat>)
    ensures keys == [] || exists key :: key in keys
  {
    if keys != [] {
      assert keys[0] in keys;
    }
  }

  lemma SameBefore(byKey: map<nat, nat>, a: seq<nat>, b: seq<nat>)
    requires Rises(byKey, a) && Rises(byKey, b) && (forall key :: key in a <==> key in b) && a != [] && b != []
    requires a[|a| - 1] == b[|b| - 1] && forall key | key in a :: key in byKey
    ensures var before, others := a[..|a| - 1], b[..|b| - 1];
            forall key :: key in before <==> key in others
  {
    var before, others := a[..|a| - 1], b[..|b| - 1];
    assert a == before + [a[|a| - 1]] && b == others + [a[|a| - 1]];
    forall key ensures key in before <==> key in others {
      if key in a {
        LastIsGreatest(byKey, a, key);
        LastIsGreatest(byKey, b, key);
      }
    }
  }

  /** The order of places once a change did something to its key: a key it buried has none, one it wrote keeps
      its own, or takes the next. */
  function Placing(order: seq<nat>, key: nat, did: Did): seq<nat> {
    match did
    case Removed => Without(order, key)
    case Held => if key in order then order else order + [key]
    case Nothing => order
  }

  lemma {:induction false} OnlyAll(keys: seq<nat>, kept: set<nat>)
    requires forall key | key in keys :: key in kept
    ensures Only(keys, kept) == keys
  {
    if keys != [] {
      assert keys == keys[..|keys| - 1] + [keys[|keys| - 1]];
      OnlyAll(keys[..|keys| - 1], kept);
    }
  }

  lemma ListsWithout(byKey: map<nat, nat>, order: seq<nat>, key: nat)
    requires Lists(byKey, order)
    ensures Lists(byKey - {key}, Without(order, key))
  {
    OnlyRises(byKey, order, (set k | k in order) - {key});
    RisesStill(byKey, byKey - {key}, Without(order, key));
  }

  lemma ListsOneMore(byKey: map<nat, nat>, order: seq<nat>, key: nat, place: nat)
    requires Lists(byKey, order) && key !in byKey && forall k | k in byKey :: byKey[k] < place
    ensures Lists(byKey[key := place], order + [key])
  {
    RisesStill(byKey, byKey[key := place], order);
    RisesOn(byKey[key := place], order, key);
  }

  function KeysOf(pairs: seq<(nat, Row)>): (keys: seq<nat>)
    ensures |keys| == |pairs|
  {
    seq(|pairs|, i requires 0 <= i < |pairs| => pairs[i].0)
  }

  /** The keys of rows, in the order in which they first come. */
  function FirstSeen(pairs: seq<(nat, Row)>): seq<nat> {
    if pairs == [] then []
    else
      var before, key := FirstSeen(pairs[..|pairs| - 1]), pairs[|pairs| - 1].0;
      if key in before then before else before + [key]
  }

  class Table {
    const layout: Layout
    var rows: seq<Option<Kept>>
    var byKey: map<nat, nat>
    var truncates: seq<Change>
    var timed: seq<nat>
    /** The keys that have a place, in the order of their places. */
    ghost var order: seq<nat>

    ghost function Now(): Lazy
      reads this
    {
      Lazy(layout, rows, byKey, truncates, timed)
    }

    ghost predicate Valid()
      reads this
    {
      Sound(Now()) && Lists(byKey, order)
    }

    ghost predicate NotPast(order: nat)
      reads this
    {
      truncates != [] ==> truncates[|truncates| - 1].order <= order
    }

    /** A table of no rows. */
    constructor (layout: Layout)
      requires layout.Valid()
      ensures Valid() && this.layout == layout && truncates == [] && Contents(Now()) == map[]
      ensures order == []
    {
      this.layout := layout;
      rows, byKey, truncates, timed, order := [], map[], [], [], [];
    }

    /** Records a truncate: rows sequenced before it go, or are marked deleted, when they next meet the
        table's truncates. A second of one sequence finds none left. */
    method Truncate(change: Change)
      requires Valid() && Fits(layout, change) && NotPast(change.order)
      modifies this
      ensures Valid() && Contents(Now()) == Truncating(layout, old(Contents(Now())), change)
      ensures order == old(order)
      ensures forall sequence | sequence >= change.order :: NotPast(sequence)
    {
      ghost var before := Now();
      if truncates != [] && truncates[|truncates| - 1].order == change.order {
        TruncateAgain(before, change);
        return;
      }
      if Timed(layout, change) {
        timed := timed + [|truncates|];
      }
      truncates := truncates + [change];
      TruncateIsSound(before, Now(), change);
      TruncateMeets(before, Now(), change);
    }

    /** Catches up one place; no key comes to stand anywhere else for it. */
    method Meet(index: nat)
      requires Valid() && index < |rows|
      modifies this`rows
      ensures Valid() && Contents(Now()) == old(Contents(Now())) && |rows| == |old(rows)|
      ensures rows[index].Some? ==> rows[index].value.met == |truncates|
      ensures forall i | 0 <= i < |rows| && i != index :: rows[i] == old(rows)[i]
    {
      ghost var before := Now();
      assert KeptAt(before, index);
      if truncates == [] || rows[index].None? {
        return;
      }
      var kept := rows[index].value;
      var met := MeetRow(layout, kept, truncates, timed);
      rows := rows[index := met];
      MeetingAtOnce(layout, kept, truncates);
      SlotReplaced(before, Now(), kept.key, met);
      StandAlike(before, Now());
    }

    /** One keyed change on the lazy table, as `Changing` on the eager row it stands for. */
    method Apply(change: Change) returns (did: Did)
      requires Valid() && Fits(layout, change) && !change.op.Truncate? && NotPast(change.order)
      modifies this
      ensures Valid() && truncates == old(truncates)
      ensures order == Placing(old(order), change.key, did)
      ensures var (row, done) := Changing(layout, At(old(Contents(Now())), change.key), change);
              Contents(Now()) == Set(old(Contents(Now())), change.key, row) && did == done
    {
      ghost var started := Now();
      assert Placed(started, change.key);
      var key := change.key;
      if key in byKey {
        Meet(byKey[key]);
      }
      ghost var before := Now();
      assert Placed(before, key);
      ContentsAt(before, key);
      var current := if key in byKey then rows[byKey[key]] else None;
      assert Stands(before, key) == if current.None? then None else Some(current.value.Row());
      if current.Some? && Behind(current.value.Row(), change) {
        SetAgain(Contents(before), key);
        return Nothing;
      }
      if change.op.Delete? {
        did := Delete(change, current);
        return;
      }
      var row := if current.None? then None else Some(current.value.Row());
      Hold(Kept(key, change.order, Composed(layout, row, change), |truncates|, false));
      return Held;
    }

    /** Puts a row in its key's place, or a place of its own. */
    method Hold(kept: Kept)
      requires Valid() && Keeps(layout, kept, truncates) && kept.met == |truncates|
      modifies this
      ensures Valid() && truncates == old(truncates)
      ensures order == Placing(old(order), kept.key, Held)
      ensures Contents(Now()) == old(Contents(Now()))[kept.key := kept.Row()]
    {
      ghost var before := Now();
      assert Placed(before, kept.key);
      if kept.key in byKey {
        rows := rows[byKey[kept.key] := Some(kept)];
        SlotReplaced(before, Now(), kept.key, Some(kept));
      } else {
        byKey := byKey[kept.key := |rows|];
        rows := rows + [Some(kept)];
        forall k | k in before.byKey ensures before.byKey[k] < |before.rows| {
          assert Placed(before, k);
        }
        ListsOneMore(before.byKey, order, kept.key, |before.rows|);
        order := order + [kept.key];
        SlotAdded(before, Now(), kept.key, kept);
      }
      StandsSet(before, Now(), kept.key, Some(kept.Row()));
    }

    /** Takes a key's row and its place. */
    method Remove(key: nat)
      requires Valid()
      modifies this
      ensures Valid() && truncates == old(truncates) && order == Without(old(order), key)
      ensures Contents(Now()) == Set(old(Contents(Now())), key, None)
    {
      ghost var before := Now();
      assert Placed(before, key);
      if key in byKey {
        rows := rows[byKey[key] := None];
        byKey := byKey - {key};
        ListsWithout(before.byKey, order, key);
      } else {
        OnlyAll(order, (set k | k in order) - {key});
      }
      order := Without(order, key);
      SlotRemoved(before, Now(), key);
      StandsSet(before, Now(), key, None);
    }

    /** A delete that the current row does not stand past: the key loses its place, or its row is marked. */
    method Delete(change: Change, current: Option<Kept>) returns (did: Did)
      requires Valid() && Fits(layout, change) && change.op.Delete? && NotPast(change.order)
      requires change.key in byKey ==> byKey[change.key] < |rows|
      requires current == if change.key in byKey then rows[byKey[change.key]] else None
      requires current.Some? ==> current.value.met == |truncates| && !Behind(current.value.Row(), change)
      modifies this
      ensures Valid() && truncates == old(truncates) && order == Placing(old(order), change.key, did)
      ensures var row := if current.None? then None else Some(current.value.Row());
              && (row.Some? ==> |row.value.cells| == layout.width)
              && Contents(Now()) == Set(old(Contents(Now())), change.key, Changing(layout, row, change).0)
              && did == Changing(layout, row, change).1
    {
      ghost var before := Now();
      var key := change.key;
      assert Placed(before, key) && (key in byKey ==> KeptAt(before, byKey[key]));
      ContentsAt(before, key);
      if layout.Hard() {
        Remove(key);
        return Removed;
      }
      if current.None? {
        SetAgain(Contents(before), key);
        return Nothing;
      }
      var marked := Marked(layout, current.value.Row(), change);
      var kept := Kept(key, marked.order, marked.cells, current.value.met, false);
      rows := rows[byKey[key] := Some(kept)];
      SlotReplaced(before, Now(), key, Some(kept));
      StandsSet(before, Now(), key, Some(marked));
      return Nothing;
    }

    /** Every eager row there is, place by place. */
    method Assemble() returns (merged: seq<(nat, Row)>)
      requires Valid()
      modifies this
      ensures Valid() && RowsOf(merged) == Unmarked(old(Contents(Now())))
      ensures order == old(order) && KeysOf(merged) == Only(order, RowsOf(merged).Keys)
      ensures forall i | 0 <= i < |merged| :: |merged[i].1.cells| == layout.width && !merged[i].1.truncated
    {
      for index := 0 to |rows|
        invariant Valid() && Contents(Now()) == old(Contents(Now())) && |rows| == |old(rows)| && order == old(order)
        invariant forall i | 0 <= i < index && rows[i].Some? :: rows[i].value.met == |truncates|
      {
        Meet(index);
      }
      merged := [];
      for index := 0 to |rows|
        invariant merged == Picked(rows[..index])
        invariant forall i | 0 <= i < |merged| :: |merged[i].1.cells| == layout.width && !merged[i].1.truncated
      {
        assert rows[..index + 1][..index] == rows[..index];
        assert KeptAt(Now(), index);
        if rows[index].Some? {
          merged := merged + [(rows[index].value.key, Row(rows[index].value.order, rows[index].value.cells, false))];
        }
      }
      assert rows[..|rows|] == rows;
      PickedIsContents(Now());
      PickedInOrder(Now(), order);
    }
  }

  ghost function Unmarked(rows: map<nat, Row>): map<nat, Row> {
    map key | key in rows :: rows[key].(truncated := false)
  }

  /** The rows held, in their places. */
  function Picked(rows: seq<Option<Kept>>): seq<(nat, Row)> {
    if rows == [] then []
    else
      var before, last := Picked(rows[..|rows| - 1]), rows[|rows| - 1];
      if last.None? then before else before + [(last.value.key, Row(last.value.order, last.value.cells, false))]
  }

  /** Of the first `n` places, the row of a key is the one at its place. */
  lemma {:induction false} PickedAt(t: Lazy, n: nat, key: nat)
    requires Sound(t) && n <= |t.rows|
    ensures At(RowsOf(Picked(t.rows[..n])), key)
         == if key in t.byKey && t.byKey[key] < n && t.rows[t.byKey[key]].Some?
            then Some(t.rows[t.byKey[key]].value.Row().(truncated := false)) else None
  {
    if n > 0 {
      PickedAt(t, n - 1, key);
      assert t.rows[..n][..n - 1] == t.rows[..n - 1];
      assert Placed(t, key) && KeptAt(t, n - 1);
      var before, after := Picked(t.rows[..n - 1]), Picked(t.rows[..n]);
      if t.rows[n - 1].Some? {
        assert after[..|after| - 1] == before;
      }
    }
  }

  lemma {:induction false} PickedRises(t: Lazy, n: nat)
    requires Sound(t) && n <= |t.rows|
    ensures Rises(t.byKey, KeysOf(Picked(t.rows[..n])))
    ensures forall key | key in KeysOf(Picked(t.rows[..n])) :: key in t.byKey && t.byKey[key] < n
  {
    if n > 0 {
      PickedRises(t, n - 1);
      assert t.rows[..n][..n - 1] == t.rows[..n - 1];
      var before, after := KeysOf(Picked(t.rows[..n - 1])), KeysOf(Picked(t.rows[..n]));
      if t.rows[n - 1].Some? {
        var key := t.rows[n - 1].value.key;
        assert KeptAt(t, n - 1);
        assert after == before + [key];
        RisesOn(t.byKey, before, key);
      }
    }
  }

  lemma {:induction false} KeysAreKeys(pairs: seq<(nat, Row)>)
    ensures forall key :: key in KeysOf(pairs) <==> key in RowsOf(pairs)
  {
    if pairs != [] {
      var init := pairs[..|pairs| - 1];
      KeysAreKeys(init);
      assert KeysOf(pairs) == KeysOf(init) + [pairs[|pairs| - 1].0];
    }
  }

  /** The rows held are in the order of their keys' places. */
  lemma PickedInOrder(t: Lazy, order: seq<nat>)
    requires Sound(t) && Lists(t.byKey, order)
    ensures KeysOf(Picked(t.rows)) == Only(order, RowsOf(Picked(t.rows)).Keys)
  {
    assert t.rows[..|t.rows|] == t.rows;
    PickedRises(t, |t.rows|);
    KeysAreKeys(Picked(t.rows));
    OnlyRises(t.byKey, order, RowsOf(Picked(t.rows)).Keys);
    OneOrder(t.byKey, KeysOf(Picked(t.rows)), Only(order, RowsOf(Picked(t.rows)).Keys));
  }

  lemma PickedIsContents(t: Lazy)
    requires Sound(t) && forall i | 0 <= i < |t.rows| && t.rows[i].Some? :: t.rows[i].value.met == |t.truncates|
    ensures RowsOf(Picked(t.rows)) == Unmarked(Contents(t))
  {
    assert t.rows[..|t.rows|] == t.rows;
    forall key ensures At(RowsOf(Picked(t.rows)), key) == At(Unmarked(Contents(t)), key) {
      PickedAt(t, |t.rows|, key);
      ContentsAt(t, key);
      assert Placed(t, key);
    }
    MapsAgree(RowsOf(Picked(t.rows)), Unmarked(Contents(t)));
  }

  /** The table published rows make. */
  method Load(layout: Layout, published: seq<(nat, Row)>) returns (table: Table)
    requires layout.Valid()
    requires forall i | 0 <= i < |published| :: |published[i].1.cells| == layout.width && !published[i].1.truncated
    ensures fresh(table) && table.Valid() && table.layout == layout && table.truncates == []
    ensures Contents(table.Now()) == RowsOf(published) && table.order == FirstSeen(published)
  {
    table := new Table(layout);
    for i := 0 to |published|
      invariant fresh(table) && table.Valid() && table.layout == layout && table.truncates == []
      invariant Contents(table.Now()) == RowsOf(published[..i]) && table.order == FirstSeen(published[..i])
    {
      assert published[..i + 1][..i] == published[..i];
      var row := published[i].1;
      table.Hold(Kept(published[i].0, row.order, row.cells, 0, false));
    }
    assert published[..|published|] == published;
  }

  /** Whether a change leaves its sequence to the row before, which none may. */
  predicate FlagsSequence(layout: Layout, change: Change) {
    change.kept.Some? && layout.sequence < |change.kept.value| && change.kept.value[layout.sequence]
  }

  ghost function OrderNext(layout: Layout, s: State, order: seq<nat>, change: Change): seq<nat>
    requires layout.Valid() && Fits(layout, change) && AllFit(layout, s.rows)
  {
    if change.op.Truncate? || !Admits(s, change) then order
    else Placing(order, change.key, Changing(layout, At(s.rows, change.key), change).1)
  }

  /** The order of places once changes apply one after another. */
  ghost function OrderAfter(layout: Layout, s: State, order: seq<nat>, changes: seq<Change>): seq<nat>
    requires layout.Valid() && AllChangesFit(layout, changes) && AllFit(layout, s.rows)
  {
    if changes == [] then order
    else
      var init := changes[..|changes| - 1];
      OrderNext(layout, Steps(layout, s, init), OrderAfter(layout, s, order, init), changes[|changes| - 1])
  }

  /** Where deletes are soft, no key that has a place loses it. */
  lemma {:induction false} SoftPlacesStay(layout: Layout, s: State, order: seq<nat>, changes: seq<Change>)
    requires layout.Valid() && !layout.Hard() && AllChangesFit(layout, changes) && AllFit(layout, s.rows)
    ensures order <= OrderAfter(layout, s, order, changes)
  {
    if changes != [] {
      SoftPlacesStay(layout, s, order, changes[..|changes| - 1]);
    }
  }

  /** Applies one change to the table and what it remembers of rows removed outright; nothing, where it is one
      to refuse. */
  method ApplyOne(table: Table, buried: map<nat, nat>, limit: Option<nat>, change: Change)
    returns (refused: bool, stones: map<nat, nat>, bound: Option<nat>)
    requires table.Valid() && Fits(table.layout, change) && table.NotPast(change.order)
    modifies table
    ensures table.Valid()
    ensures refused <==> !change.op.Truncate? && Admits(State(map[], buried, limit), change)
                         && FlagsSequence(table.layout, change)
    ensures !refused ==>
              State(Contents(table.Now()), stones, bound)
              == Step(table.layout, State(old(Contents(table.Now())), buried, limit), change)
    ensures !refused ==>
              table.order
              == OrderNext(table.layout, State(old(Contents(table.Now())), buried, limit), old(table.order), change)
    ensures forall sequence | sequence >= change.order :: old(table.NotPast(sequence)) ==> table.NotPast(sequence)
  {
    refused, stones, bound := false, buried, limit;
    if !Admits(State(map[], stones, bound), change) {
      return;
    }
    if change.op.Truncate? {
      table.Truncate(change);
      if table.layout.Hard() {
        bound := Raised(bound, change.order);
      }
    } else {
      if FlagsSequence(table.layout, change) {
        refused := true;
        return;
      }
      var did := table.Apply(change);
      match did
      case Removed => stones := stones[change.key := change.order];
      case Held => stones := stones - {change.key};
      case Nothing =>
    }
  }

  /** A row as it is written, which may lack a sequence. */
  datatype Written = Written(op: Op, key: nat, order: Option<nat>, cells: seq<Cell>, kept: Option<seq<bool>>)

  datatype Refusal = SequenceMissing | FlagOnSequence

  datatype Outcome = Outcome(merged: seq<(nat, Row)>, stones: map<nat, nat>, bound: Option<nat>)

  predicate Sequenced(written: seq<Written>) {
    forall i | 0 <= i < |written| :: written[i].order.Some?
  }

  function ChangesOf(written: seq<Written>): seq<Change>
    requires Sequenced(written)
  {
    seq(|written|, i requires 0 <= i < |written| =>
      Change(written[i].op, written[i].key, written[i].order.value, written[i].cells, written[i].kept))
  }

  method Read(written: seq<Written>) returns (changes: Result<seq<Change>, Refusal>)
    ensures Sequenced(written) ==> changes == Ok(ChangesOf(written))
    ensures !Sequenced(written) ==> changes == Err(SequenceMissing)
  {
    var read := [];
    for i := 0 to |written|
      invariant Sequenced(written[..i]) && read == ChangesOf(written[..i])
    {
      var row := written[i];
      if row.order.None? {
        return Err(SequenceMissing);
      }
      read := read + [Change(row.op, row.key, row.order.value, row.cells, row.kept)];
    }
    assert written[..|written|] == written;
    return Ok(read);
  }

  /** Whether the change at `i`, of some in order, is admitted when its turn comes and leaves its sequence. */
  ghost predicate RefusedAt(layout: Layout, s: State, sorted: seq<Change>, i: nat)
    requires layout.Valid() && AllFit(layout, s.rows) && AllChangesFit(layout, sorted)
  {
    && i < |sorted| && !sorted[i].op.Truncate? && FlagsSequence(layout, sorted[i])
    && Admits(Steps(layout, s, sorted[..i]), sorted[i])
  }

  /** Applies changes that are in order, up to one to refuse. */
  method ApplyAll(table: Table, buried: map<nat, nat>, limit: Option<nat>, sorted: seq<Change>)
    returns (refused: bool, stones: map<nat, nat>, bound: Option<nat>)
    requires table.Valid() && AllChangesFit(table.layout, sorted) && InOrder(sorted) && table.truncates == []
    modifies table
    ensures table.Valid()
    ensures var s := State(old(Contents(table.Now())), buried, limit);
            && (refused <==> exists i: nat :: RefusedAt(table.layout, s, sorted, i))
            && (!refused ==>
                  && State(Contents(table.Now()), stones, bound) == Steps(table.layout, s, sorted)
                  && table.order == OrderAfter(table.layout, s, old(table.order), sorted))
  {
    ghost var s := State(Contents(table.Now()), buried, limit);
    refused, stones, bound := false, buried, limit;
    for i := 0 to |sorted|
      invariant table.Valid() && !refused
      invariant State(Contents(table.Now()), stones, bound) == Steps(table.layout, s, sorted[..i])
      invariant table.order == OrderAfter(table.layout, s, old(table.order), sorted[..i])
      invariant forall j | i <= j < |sorted| :: table.NotPast(sorted[j].order)
      invariant forall k: nat | k < i :: !RefusedAt(table.layout, s, sorted, k)
    {
      assert sorted[..i + 1][..i] == sorted[..i];
      assert forall j | i < j < |sorted| :: NoLater(sorted[i], sorted[j]);
      refused, stones, bound := ApplyOne(table, stones, bound, sorted[i]);
      if refused {
        assert RefusedAt(table.layout, s, sorted, i);
        return;
      }
      assert !RefusedAt(table.layout, s, sorted, i);
    }
    assert sorted[..|sorted|] == sorted;
  }

  method MergeSorted(layout: Layout, published: seq<(nat, Row)>, buried: map<nat, nat>, limit: Option<nat>,
                     incoming: seq<Change>, sorted: seq<Change>)
    returns (result: Result<Outcome, Refusal>)
    requires layout.Valid() && AllChangesFit(layout, incoming) && AllChangesFit(layout, sorted)
    requires sorted == Sorted(incoming) && AllFit(layout, RowsOf(published))
    requires forall i | 0 <= i < |published| :: |published[i].1.cells| == layout.width && !published[i].1.truncated
    ensures result != Err(SequenceMissing)
    ensures var s := State(RowsOf(published), buried, limit);
            && (result == Err(FlagOnSequence) <==> exists i: nat :: RefusedAt(layout, s, sorted, i))
            && (result.Ok? ==>
                  && State(RowsOf(result.value.merged), result.value.stones, result.value.bound)
                     == Merged(layout, s, incoming)
                  && KeysOf(result.value.merged)
                     == Only(OrderAfter(layout, s, FirstSeen(published), sorted), RowsOf(result.value.merged).Keys))
  {
    var table := Load(layout, published);
    SortedIsInOrder(incoming);
    var refused, stones, bound := ApplyAll(table, buried, limit, sorted);
    if refused {
      return Err(FlagOnSequence);
    }
    var merged := table.Assemble();
    stones := map key | key in stones && !Bounded(bound, stones[key]) :: stones[key];
    return Ok(Outcome(merged, stones, bound));
  }

  /** A commit merged by the lazy table leaves what `Merged` does by the eager one: the same rows, the same
      tombstones and the same bound, its rows in the order of their keys' places. It is refused exactly where a row
      lacks a sequence, or where one that is admitted when its turn comes leaves its sequence to the row before. */
  method MergeChanges(layout: Layout, published: seq<(nat, Row)>, buried: map<nat, nat>, limit: Option<nat>,
                      written: seq<Written>)
    returns (result: Result<Outcome, Refusal>)
    requires layout.Valid() && forall i | 0 <= i < |written| ::
                                 |written[i].cells| == layout.width
                                 && (written[i].kept.Some? ==> |written[i].kept.value| == layout.width)
    requires forall i | 0 <= i < |published| :: |published[i].1.cells| == layout.width && !published[i].1.truncated
    ensures AllFit(layout, RowsOf(published))
    ensures !Sequenced(written) <==> result == Err(SequenceMissing)
    ensures Sequenced(written) ==>
              var s, incoming := State(RowsOf(published), buried, limit), ChangesOf(written);
              && AllChangesFit(layout, incoming) && AllChangesFit(layout, Sorted(incoming))
              && (result == Err(FlagOnSequence) <==> exists i: nat :: RefusedAt(layout, s, Sorted(incoming), i))
              && (result.Ok? ==>
                    && State(RowsOf(result.value.merged), result.value.stones, result.value.bound)
                       == Merged(layout, s, incoming)
                    && KeysOf(result.value.merged)
                       == Only(OrderAfter(layout, s, FirstSeen(published), Sorted(incoming)),
                               RowsOf(result.value.merged).Keys))
  {
    RowsFit(layout, published);
    var read := Read(written);
    if read.Err? {
      return Err(read.error);
    }
    SortedFits(layout, read.value);
    result := MergeSorted(layout, published, buried, limit, read.value, Sorted(read.value));
  }

  lemma SetAgain(rows: map<nat, Row>, key: nat)
    ensures Set(rows, key, At(rows, key)) == rows
  {
  }

  lemma StandsSet(t: Lazy, t': Lazy, key: nat, row: Option<Row>)
    requires Sound(t) && Sound(t') && forall k :: Stands(t', k) == if k == key then row else Stands(t, k)
    ensures Contents(t') == Set(Contents(t), key, row)
  {
    forall k ensures Stands(t', k) == At(Set(Contents(t), key, row), k) {
      ContentsAt(t, k);
    }
    SameContents(t', Set(Contents(t), key, row));
  }

  lemma StandAlike(t: Lazy, t': Lazy)
    requires Sound(t) && Sound(t') && forall key :: Stands(t', key) == Stands(t, key)
    ensures Contents(t') == Contents(t)
  {
    forall key ensures Stands(t', key) == At(Contents(t), key) {
      ContentsAt(t, key);
    }
    SameContents(t', Contents(t));
  }
}
