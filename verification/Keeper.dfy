/** Positions a source keeps in a file beyond its process: the position last acknowledged of each
    partition, never moving back through failed writes, crashes and reopenings; and exactly when its file
    goes back on a position that was not. */
module Keeper {
  import opened Wrappers
  import opened KeeperFile
  import Text

  /** Where a partition stands: zero where it has no position, else one more than it. */
  function At(positions: Positions, partition: Key): nat {
    if partition in positions then positions[partition] + 1 else 0
  }

  /** What putting a new file in place of the old came to: done; failed, the old left; or reported
      failed with the new in place. */
  datatype Fate = Written | Lost | Reached

  datatype Refusal = TooMany | Unwritten

  /** A keeper: where it stands, and what its file durably holds, if it has one. */
  datatype State = State(positions: Positions, file: Option<Positions>)

  function Outcome(s: State, partition: Key, position: nat, fate: Fate): Result<(), Refusal> {
    if At(s.positions, partition) > position then Ok(())
    else if partition !in s.positions && |s.positions| >= KEEPER_POSITIONS then Err(TooMany)
    else if s.file.Some? && !fate.Written? then Err(Unwritten)
    else Ok(())
  }

  /** The keeper once a position is acknowledged, its write coming to `fate`. */
  function Advanced(s: State, partition: Key, position: nat, fate: Fate): State {
    if At(s.positions, partition) > position then s
    else if partition !in s.positions && |s.positions| >= KEEPER_POSITIONS then s
    else
      var moved := s.positions[partition := position];
      if s.file.None? then State(moved, None)
      else State(if fate.Written? then moved else s.positions, if fate.Lost? then s.file else Some(moved))
  }

  class Kept {
    var positions: Positions
    var file: Option<Positions>

    ghost function Now(): State
      reads this
    {
      State(positions, file)
    }

    constructor ()
      ensures Now() == State(map[], None)
    {
      positions, file := map[], None;
    }

    /** Moves a partition on, in the file first and in memory only after it; a position that is not ahead
        is already acknowledged. */
    method Advance(partition: Key, position: nat, fate: Fate) returns (done: Result<(), Refusal>)
      modifies this
      ensures Now() == Advanced(old(Now()), partition, position, fate)
      ensures done == Outcome(old(Now()), partition, position, fate)
      ensures done.Ok? ==> At(positions, partition) > position
    {
      if partition in positions {
        if positions[partition] >= position {
          return Ok(());
        }
      } else if |positions| >= KEEPER_POSITIONS {
        return Err(TooMany);
      }
      if file.None? {
        positions := positions[partition := position];
        return Ok(());
      }
      var moved := positions;
      moved := moved[partition := position];
      if !fate.Lost? {
        file := Some(moved);
      }
      if !fate.Written? {
        return Err(Unwritten);
      }
      positions := moved;
      return Ok(());
    }
  }

  // ----- Runs -----

  /** A keeper's file, and the process that keeps it, if any, with its source's streams; what was acknowledged;
      and what each look at a partition found, in order. */
  datatype World = World(
    file: Positions, process: Option<Positions>, config: Config, acknowledged: Positions, looks: seq<Look>)

  datatype Look = Look(partition: Key, found: nat)

  datatype Step =
    | Opening(config: Config)                                    // a source connects, and opens the keeper
    | Advancing(partition: Key, position: nat, fate: Fate)
    | Looking(partition: Key)
    | Crashing                                                   // the process ends between writes
    | CrashingAt(partition: Key, position: nat, fate: Fate)      // or as one is made

  ghost function Next(kind: Kind, w: World, step: Step): World {
    match step
    case Opening(config) =>
      if w.process.Some? || !Connects(config) || !Opens(kind, w.file) then w
      else w.(process := Some(w.file), config := config)
    case Advancing(partition, position, fate) =>
      if w.process.None? || !Hands(kind, w.config, partition, position) then w
      else
        var s := State(w.process.value, Some(w.file));
        var s' := Advanced(s, partition, position, fate);
        var done := Outcome(s, partition, position, fate);
        World(s'.file.value, Some(s'.positions), w.config,
              if done.Ok? && At(w.acknowledged, partition) <= position
              then w.acknowledged[partition := position] else w.acknowledged, w.looks)
    case Looking(partition) =>
      if w.process.None? then w
      else w.(looks := w.looks + [Look(partition, At(w.process.value, partition))])
    case Crashing => w.(process := None)
    case CrashingAt(partition, position, fate) =>
      if w.process.None? then w
      else if !Hands(kind, w.config, partition, position) then w.(process := None)
      else
        w.(file := Advanced(State(w.process.value, Some(w.file)), partition, position, fate).file.value,
           process := None)
  }

  ghost function After(kind: Kind, steps: seq<Step>): World {
    if steps == [] then World(map[], None, Config(map[]), map[], [])
    else Next(kind, After(kind, steps[..|steps| - 1]), steps[|steps| - 1])
  }

  /** Whether one set of positions stands nowhere behind another. */
  ghost predicate Ahead(positions: Positions, others: Positions) {
    forall partition :: AheadAt(positions, others, partition)
  }

  predicate AheadAt(positions: Positions, others: Positions, partition: Key) {
    At(others, partition) <= At(positions, partition)
  }

  /** Where the keeper stands: in its process, or in its file where it has none. */
  function Standing(w: World): Positions {
    if w.process.Some? then w.process.value else w.file
  }

  ghost predicate LookSound(w: World, i: nat) {
    i < |w.looks| ==>
      && w.looks[i].found <= At(Standing(w), w.looks[i].partition)
      && forall j | 0 <= j < i && w.looks[j].partition == w.looks[i].partition :: w.looks[j].found <= w.looks[i].found
  }

  ghost predicate Inv(w: World) {
    && Ahead(w.file, Standing(w))
    && Ahead(Standing(w), w.acknowledged)
    && |w.file| <= KEEPER_POSITIONS && |Standing(w)| <= KEEPER_POSITIONS
    && forall i: nat :: LookSound(w, i)
  }

  lemma AdvancingKeeps(w: World, partition: Key, position: nat, fate: Fate)
    requires Inv(w) && w.process.Some?
    ensures var s := Advanced(State(w.process.value, Some(w.file)), partition, position, fate);
            && Ahead(s.file.value, s.positions) && Ahead(s.positions, w.process.value)
            && |s.file.value| <= KEEPER_POSITIONS && |s.positions| <= KEEPER_POSITIONS
  {
    var s := Advanced(State(w.process.value, Some(w.file)), partition, position, fate);
    forall p ensures AheadAt(s.file.value, s.positions, p) && AheadAt(s.positions, w.process.value, p) {
      assert AheadAt(w.file, w.process.value, p);
    }
  }

  /** Looks and acknowledgements stay behind a keeper that moves on. */
  lemma MovingOn(w: World, w': World)
    requires Inv(w) && w'.looks == w.looks && Ahead(Standing(w'), Standing(w))
    ensures Ahead(Standing(w'), w.acknowledged) && forall i: nat :: LookSound(w', i)
  {
    forall p ensures AheadAt(Standing(w'), w.acknowledged, p) {
      assert AheadAt(Standing(w'), Standing(w), p) && AheadAt(Standing(w), w.acknowledged, p);
    }
    forall i: nat ensures LookSound(w', i) {
      assert LookSound(w, i);
      if i < |w.looks| {
        assert AheadAt(Standing(w'), Standing(w), w.looks[i].partition);
      }
    }
  }

  lemma LookingKeeps(kind: Kind, w: World, partition: Key)
    requires Inv(w) && w.process.Some?
    ensures Inv(Next(kind, w, Looking(partition)))
  {
    var w' := Next(kind, w, Looking(partition));
    forall i: nat ensures LookSound(w', i) {
      assert LookSound(w, i);
      forall j: nat | j < i && i == |w.looks| && w.looks[j].partition == partition
        ensures w.looks[j].found <= At(w.process.value, partition) {
        assert LookSound(w, j);
      }
    }
  }

  lemma NextKeeps(kind: Kind, w: World, step: Step)
    requires Inv(w)
    ensures Inv(Next(kind, w, step))
  {
    var w' := Next(kind, w, step);
    match step
    case Opening(_) => MovingOn(w, w');
    case Advancing(partition, position, fate) =>
      if w.process.Some? && Hands(kind, w.config, partition, position) {
        AdvancingKeeps(w, partition, position, fate);
        MovingOn(w, w');
        forall p ensures AheadAt(Standing(w'), w'.acknowledged, p) {
          assert AheadAt(Standing(w'), w.acknowledged, p);
        }
      }
    case Looking(partition) =>
      if w.process.Some? {
        LookingKeeps(kind, w, partition);
      }
    case Crashing => MovingOn(w, w');
    case CrashingAt(partition, position, fate) =>
      if w.process.Some? && Hands(kind, w.config, partition, position) {
        AdvancingKeeps(w, partition, position, fate);
        var s := Advanced(State(w.process.value, Some(w.file)), partition, position, fate);
        forall p ensures AheadAt(w'.file, w.process.value, p) {
          assert AheadAt(s.file.value, s.positions, p) && AheadAt(s.positions, w.process.value, p);
        }
        MovingOn(w, w');
      } else {
        MovingOn(w, w');
      }
  }

  lemma {:induction false} EveryRunKeeps(kind: Kind, steps: seq<Step>)
    ensures Inv(After(kind, steps))
  {
    if steps != [] {
      EveryRunKeeps(kind, steps[..|steps| - 1]);
      NextKeeps(kind, After(kind, steps[..|steps| - 1]), steps[|steps| - 1]);
    }
  }

  /** Over any run, an acknowledged position is never lost, in the process or in its file, and the file is
      never behind the process, nor of more positions than a keeper opens. */
  lemma NothingAcknowledgedIsLost(kind: Kind, steps: seq<Step>, partition: Key)
    ensures var w := After(kind, steps);
            && At(w.acknowledged, partition) <= At(Standing(w), partition) <= At(w.file, partition)
            && |w.file| <= KEEPER_POSITIONS
  {
    EveryRunKeeps(kind, steps);
    var w := After(kind, steps);
    assert AheadAt(Standing(w), w.acknowledged, partition) && AheadAt(w.file, Standing(w), partition);
  }

  ghost predicate OnlyHanded(kind: Kind, w: World) {
    AllHanded(kind, w.file) && AllHanded(kind, Standing(w)) && (w.process.Some? ==> Connects(w.config))
  }

  lemma StaysHanded(kind: Kind, w: World, step: Step)
    requires OnlyHanded(kind, w)
    ensures OnlyHanded(kind, Next(kind, w, step))
  {
    if (step.Advancing? || step.CrashingAt?) && w.process.Some?
       && Hands(kind, w.config, step.partition, step.position) {
      HandsIsHanded(kind, w.config, step.partition, step.position);
      AdvancedIsHanded(kind, State(w.process.value, Some(w.file)), step.partition, step.position, step.fate);
    }
  }

  lemma AdvancedIsHanded(kind: Kind, s: State, partition: Key, position: nat, fate: Fate)
    requires AllHanded(kind, s.positions) && s.file.Some? && AllHanded(kind, s.file.value)
    requires IsHanded(kind, partition, position)
    ensures var s' := Advanced(s, partition, position, fate);
            AllHanded(kind, s'.positions) && s'.file.Some? && AllHanded(kind, s'.file.value)
  {
  }

  lemma {:induction false} RunsOnlyHold(kind: Kind, steps: seq<Step>)
    ensures OnlyHanded(kind, After(kind, steps))
  {
    if steps != [] {
      RunsOnlyHold(kind, steps[..|steps| - 1]);
      StaysHanded(kind, After(kind, steps[..|steps| - 1]), steps[|steps| - 1]);
    }
  }

  /** Over any run, of any sources that connect, the next one opens the file. */
  lemma EveryFileOpens(kind: Kind, steps: seq<Step>)
    ensures Opens(kind, After(kind, steps).file)
  {
    EveryRunKeeps(kind, steps);
    RunsOnlyHold(kind, steps);
    HandedFilesOpen(kind, After(kind, steps).file);
  }

  /** No look at a partition finds it behind where an earlier one did, whatever failed or crashed in
      between. */
  lemma NoPositionMovesBack(kind: Kind, steps: seq<Step>, i: nat, j: nat)
    requires i < j < |After(kind, steps).looks|
    requires After(kind, steps).looks[i].partition == After(kind, steps).looks[j].partition
    ensures After(kind, steps).looks[i].found <= After(kind, steps).looks[j].found
  {
    EveryRunKeeps(kind, steps);
    assert LookSound(After(kind, steps), j);
  }

  lemma AcknowledgedStays(kind: Kind, w: World, step: Step)
    ensures Ahead(Next(kind, w, step).acknowledged, w.acknowledged)
  {
    forall partition ensures AheadAt(Next(kind, w, step).acknowledged, w.acknowledged, partition) {
    }
  }

  lemma {:induction false} AcknowledgedThrough(kind: Kind, steps: seq<Step>, more: seq<Step>, partition: Key)
    ensures At(After(kind, steps).acknowledged, partition) <= At(After(kind, steps + more).acknowledged, partition)
  {
    if more == [] {
      assert steps + more == steps;
    } else {
      var init, last := more[..|more| - 1], more[|more| - 1];
      AcknowledgedThrough(kind, steps, init, partition);
      assert (steps + more)[..|steps + more| - 1] == steps + init;
      AcknowledgedStays(kind, After(kind, steps + init), last);
      assert AheadAt(After(kind, steps + more).acknowledged, After(kind, steps + init).acknowledged, partition);
    }
  }

  /** A position handed over is acknowledged unless its write fails or it is of one partition too many; and
      then, whatever comes next, every process stands past it, and so does every file. */
  lemma AcknowledgingShows(kind: Kind, steps: seq<Step>, partition: Key, position: nat, fate: Fate, more: seq<Step>)
    requires After(kind, steps).process.Some? && Hands(kind, After(kind, steps).config, partition, position)
    ensures var w := After(kind, steps);
            var done := Outcome(State(w.process.value, Some(w.file)), partition, position, fate);
            var after := After(kind, steps + [Advancing(partition, position, fate)] + more);
            && (done.Ok? ==> At(Standing(after), partition) > position && At(after.file, partition) > position)
            && (done.Err? <==>
                  && At(w.process.value, partition) <= position
                  && (!fate.Written? || (partition !in w.process.value && |w.process.value| >= KEEPER_POSITIONS)))
  {
    var all := steps + [Advancing(partition, position, fate)];
    assert all[..|all| - 1] == steps;
    EveryRunKeeps(kind, steps);
    AcknowledgedThrough(kind, all, more, partition);
    NothingAcknowledgedIsLost(kind, all + more, partition);
  }

  /** Whether the step at `n` of a run looks at a partition while a process keeps it. */
  ghost predicate Looks(kind: Kind, steps: seq<Step>, n: nat, partition: Key) {
    n < |steps| && steps[n] == Looking(partition) && After(kind, steps[..n]).process.Some?
  }

  lemma LooksStay(kind: Kind, w: World, step: Step)
    ensures w.looks <= Next(kind, w, step).looks
  {
  }

  /** Each look finds where the process then stands, after all that were found before it. */
  lemma {:induction false} LooksFindWhereItStands(kind: Kind, steps: seq<Step>, n: nat, partition: Key)
    requires Looks(kind, steps, n, partition)
    ensures var w, looks := After(kind, steps[..n]), After(kind, steps).looks;
            && |w.looks| < |looks| && looks[..|w.looks|] == w.looks
            && looks[|w.looks|] == Look(partition, At(w.process.value, partition))
  {
    var init, last := steps[..|steps| - 1], steps[|steps| - 1];
    if n < |init| {
      assert init[..n] == steps[..n];
      LooksFindWhereItStands(kind, init, n, partition);
      LooksStay(kind, After(kind, init), last);
    }
  }

  // ----- When the file goes back -----

  /** Whether a step puts a new file in place of the old. */
  ghost predicate Writes(kind: Kind, w: World, step: Step) {
    && (step.Advancing? || step.CrashingAt?) && w.process.Some? && !step.fate.Lost?
    && Hands(kind, w.config, step.partition, step.position)
    && At(w.process.value, step.partition) <= step.position
    && (step.partition in w.process.value || |w.process.value| < KEEPER_POSITIONS)
  }

  datatype Write = Write(partition: Key, position: nat)

  /** What a step leaves unreported. */
  ghost function Reporting(kind: Kind, w: World, step: Step, last: Option<Write>): Option<Write> {
    if step.Advancing? && Writes(kind, w, step) then
      if step.fate.Reached? then Some(Write(step.partition, step.position)) else None
    else if step.Crashing? || step.CrashingAt? then None
    else last
  }

  /** The last write of a run's process, where it was reported failed and reached the file all the same. */
  ghost function Unreported(kind: Kind, steps: seq<Step>): Option<Write> {
    if steps == [] then None
    else
      var init, last := steps[..|steps| - 1], steps[|steps| - 1];
      Reporting(kind, After(kind, init), last, Unreported(kind, init))
  }

  ghost predicate DiffersBy(w: World, last: Option<Write>) {
    if w.process.None? then last.None?
    else if last.None? then w.file == w.process.value
    else w.file == w.process.value[last.value.partition := last.value.position]
         && At(w.process.value, last.value.partition) <= last.value.position
  }

  lemma DiffersOn(kind: Kind, w: World, step: Step, last: Option<Write>)
    requires DiffersBy(w, last)
    ensures DiffersBy(Next(kind, w, step), Reporting(kind, w, step, last))
  {
  }

  /** A process stands where its file does, but for the write it was told failed. */
  lemma {:induction false} OnlyTheUnreportedDiffers(kind: Kind, steps: seq<Step>)
    ensures DiffersBy(After(kind, steps), Unreported(kind, steps))
  {
    if steps != [] {
      var init, last := steps[..|steps| - 1], steps[|steps| - 1];
      OnlyTheUnreportedDiffers(kind, init);
      DiffersOn(kind, After(kind, init), last, Unreported(kind, init));
    }
  }

  /** Over any run, a step takes the file back on a partition if and only if it writes, the write before it
      was of that partition, reported failed and reached the file all the same, and the step's own is of
      another partition or an earlier position. */
  lemma FileGoesBackExactly(kind: Kind, steps: seq<Step>, step: Step, partition: Key)
    ensures var w, last := After(kind, steps), Unreported(kind, steps);
            At(After(kind, steps + [step]).file, partition) < At(w.file, partition) <==>
            && Writes(kind, w, step) && last.Some? && last.value.partition == partition
            && (step.partition != partition || step.position < last.value.position)
  {
    var all := steps + [step];
    assert all[..|all| - 1] == steps;
    OnlyTheUnreportedDiffers(kind, steps);
    var w := After(kind, steps);
    if Writes(kind, w, step) {
      assert After(kind, all).file == w.process.value[step.partition := step.position];
    }
  }

  lemma {:induction false} AllReported(kind: Kind, steps: seq<Step>)
    requires forall i | 0 <= i < |steps| :: steps[i].Advancing? ==> !steps[i].fate.Reached?
    ensures Unreported(kind, steps) == None
  {
    if steps != [] {
      AllReported(kind, steps[..|steps| - 1]);
    }
  }

  /** In a run whose failed writes never reach the file, it never goes back; a crash as one is made may
      leave either. */
  lemma {:induction false} FileNeverGoesBack(kind: Kind, steps: seq<Step>, more: seq<Step>, partition: Key)
    requires forall i | 0 <= i < |steps| :: steps[i].Advancing? ==> !steps[i].fate.Reached?
    requires forall i | 0 <= i < |more| :: more[i].Advancing? ==> !more[i].fate.Reached?
    ensures At(After(kind, steps).file, partition) <= At(After(kind, steps + more).file, partition)
  {
    if more == [] {
      assert steps + more == steps;
    } else {
      var init, last := more[..|more| - 1], more[|more| - 1];
      FileNeverGoesBack(kind, steps, init, partition);
      AllReported(kind, steps + init);
      FileGoesBackExactly(kind, steps + init, last, partition);
      assert steps + init + [last] == steps + more;
    }
  }

  /** The file goes back on a position nobody was told is kept: a write reported failed reached it, and
      the next one, of another partition, puts the keeper as it stands in its place. */
  lemma AnUnacknowledgedPositionMayGoBack()
    ensures var first, second := Key("orders", "p0"), Key("orders", "p1");
            var before := [Opening(Config(map["orders" := 2])), Advancing(first, 5, Reached)];
            var after := before + [Advancing(second, 9, Written)];
            At(After(Group, before).file, first) == 6 && At(After(Group, after).file, first) == 0
  {
    var config, first, second := Config(map["orders" := 2]), Key("orders", "p0"), Key("orders", "p1");
    var before := [Opening(config), Advancing(first, 5, Reached)];
    var after := before + [Advancing(second, 9, Written)];
    Orders();
    assert before[..1] == [Opening(config)] && [Opening(config)][..0] == [] && after[..2] == before;
    assert After(Group, [Opening(config)]) == World(map[], Some(map[]), config, map[], []);
    assert After(Group, before) == World(map[first := 5], Some(map[]), config, map[], []);
  }

  lemma Orders()
    ensures var config := Config(map["orders" := 2]);
            && Connects(config) && Opens(Group, map[])
            && Hands(Group, config, Key("orders", "p0"), 5) && Hands(Group, config, Key("orders", "p1"), 9)
  {
    AsciiBytes("orders");
    forall i | 0 <= i < |"orders"| ensures !Text.Deceives("orders"[i]) {
      Text.PlainAscii("orders"[i]);
    }
    assert "p0" == IdOf(Group, 0) && "p1" == IdOf(Group, 1);
  }
}
