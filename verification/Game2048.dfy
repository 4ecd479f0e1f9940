/** The 2048 game: its state, the operations on it, and what every game keeps. */
module Game2048 {
  import opened Bytes
  import opened Game2048Line
  import opened Game2048Board
  import opened Game2048Motions

  const TWO_32: int := 0x1_0000_0000
  const NO_CELL: nat := 255

  datatype Snapshot = Snapshot(board: Board, score: u32, phase: Phase, random: bv64)

  /** The whole state; it is also what is saved and restored. */
  datatype State = State(
    board: Board, score: u32, best: u32, phase: Phase, random: bv64,
    undo: Snapshot, undoValid: bool)

  datatype Outcome = Outcome(
    changed: bool, delta: nat, motions: seq<Motion>, spawnedCell: nat, spawnedValue: u16)

  const EMPTY_BOARD: Board := [0, 0, 0, 0, 0, 0, 0, 0, 0, 0, 0, 0, 0, 0, 0, 0]
  const NO_OUTCOME: Outcome := Outcome(false, 0, [], NO_CELL, 0)

  /** The xorshift generator: three shifts, then a multiplication for the value returned. */
  function NextRandom(r: bv64): bv64 { MixRight27(MixLeft25(MixRight12(r))) }

  function MixRight12(r: bv64): bv64 { r ^ (r >> 12) }
  function MixLeft25(r: bv64): bv64 { r ^ (r << 25) }
  function MixRight27(r: bv64): bv64 { r ^ (r >> 27) }

  function Output(r: bv64): nat { (r * 2685821657736338717) as nat }

  /** Empty cells from cell `i` on, in order. */
  function EmptyCells(b: Board, i: nat): (r: seq<nat>)
    requires i <= 16
    ensures forall k :: 0 <= k < |r| ==> r[k] < 16 && b[r[k]] == 0
    ensures forall c :: i <= c < 16 && b[c] == 0 ==> r != []
    decreases 16 - i
  {
    if i == 16 then []
    else if b[i] == 0 then [i] + EmptyCells(b, i + 1)
    else EmptyCells(b, i + 1)
  }

  /** Where the next tile appears, and which: one random number each. */
  function SpawnCell(b: Board, random: bv64): (c: nat)
    requires HasGap(b)
    ensures c < 16 && b[c] == 0
  {
    var empty := EmptyCells(b, 0);
    empty[Output(NextRandom(random)) % |empty|]
  }

  function SpawnValue(random: bv64): (v: u16)
    ensures v == 2 || v == 4
  {
    if Output(NextRandom(NextRandom(random))) % 10 == 0 then 4 else 2
  }

  function Spawned(b: Board, random: bv64): Board {
    if HasGap(b) then b[SpawnCell(b, random) := SpawnValue(random)] else b
  }

  function AfterSpawn(b: Board, random: bv64): bv64 {
    if HasGap(b) then NextRandom(NextRandom(random)) else random
  }

  function Delta(b: Board, d: Direction, n: nat): nat
    requires n <= 4
  {
    if n == 0 then 0 else Delta(b, d, n - 1) + MergeScore(Compact(LineAt(b, d, n - 1)))
  }

  function Max(a: u32, b: u32): u32 { if a > b then a else b }

  function AfterReset(s: State): State {
    var one, random := Spawned(EMPTY_BOARD, s.random), AfterSpawn(EMPTY_BOARD, s.random);
    s.(board := Spawned(one, random), score := 0, phase := Playing,
       random := AfterSpawn(one, random), undoValid := false)
  }

  function Start(seed: bv64): State {
    var random := if seed == 0 then 1 else seed;
    AfterReset(State(EMPTY_BOARD, 0, 0, Playing, random, Snapshot(EMPTY_BOARD, 0, Playing, 1), false))
  }

  function AfterMove(s: State, d: Direction): State {
    var next := Moved(s.board, d);
    if s.phase == Lost then s
    else if next == s.board then s.(phase := PhaseOf(s.board))
    else
      var score := (s.score + Delta(s.board, d, 4)) % TWO_32;
      var board := Spawned(next, s.random);
      State(board, score, Max(s.best, score), PhaseOf(board), AfterSpawn(next, s.random),
            Snapshot(s.board, s.score, s.phase, s.random), true)
  }

  ghost function MoveOutcome(s: State, d: Direction): Outcome {
    var next := Moved(s.board, d);
    if s.phase == Lost then NO_OUTCOME
    else if next == s.board then NO_OUTCOME.(delta := Delta(s.board, d, 4))
    else
      Outcome(true, Delta(s.board, d, 4), BoardMotions(s.board, d, 4),
        if HasGap(next) then SpawnCell(next, s.random) else NO_CELL,
        if HasGap(next) then SpawnValue(s.random) else 0)
  }

  function AfterUndo(s: State): State {
    if !s.undoValid then s
    else s.(board := s.undo.board, score := s.undo.score, phase := s.undo.phase,
            random := s.undo.random, undoValid := false)
  }

  function AfterSetBest(s: State, value: u32): State { s.(best := Max(value, s.score)) }

  /** The bitwise conjunction of two numbers. */
  function BitAnd(a: nat, b: nat): nat {
    if a == 0 then 0 else (a % 2) * (b % 2) + 2 * BitAnd(a / 2, b / 2)
  }

  /** A tile: nothing, or at least 2 with a single bit set, by the bit test of the source. */
  predicate ValidTile(v: u16) {
    v == 0 || (v >= 2 && BitAnd(v, v - 1) == 0)
  }

  predicate ValidBoard(b: Board) { forall c :: 0 <= c < 16 ==> ValidTile(b[c]) }

  /** What restoring demands of a saved state. */
  predicate Restorable(s: State) {
    && ValidBoard(s.board) && s.random != 0 && s.best >= s.score && PhaseOf(s.board) == s.phase
    && ValidBoard(s.undo.board) && s.undo.random != 0 && s.undo.score <= s.best
    && PhaseOf(s.undo.board) == s.undo.phase
  }

  /** The game object, updated in place. */
  class Game {
    var board: Board
    var score: u32
    var best: u32
    var phase: Phase
    var random: bv64
    var undo: Snapshot
    var undoValid: bool

    function Persistent(): State
      reads this
    {
      State(board, score, best, phase, random, undo, undoValid)
    }

    constructor (seed: bv64)
      ensures Persistent() == Start(seed)
    {
      board, score, best, phase := EMPTY_BOARD, 0, 0, Playing;
      random := if seed == 0 then 1 else seed;
      undo, undoValid := Snapshot(EMPTY_BOARD, 0, Playing, 1), false;
      new;
      Reset();
    }

    method Random() returns (value: nat)
      modifies this`random
      ensures random == NextRandom(old(random)) && value == Output(random)
    {
      hide Output, MixRight12, MixLeft25, MixRight27;
      var r := random;
      r := MixRight12(r);
      r := MixLeft25(r);
      r := MixRight27(r);
      random := r;
      value := Output(r);
    }

    method Spawn() returns (ok: bool, selected: nat, value: u16)
      modifies this`random, this`board
      ensures ok == HasGap(old(board))
      ensures board == Spawned(old(board), old(random)) && random == AfterSpawn(old(board), old(random))
      ensures ok ==> selected == SpawnCell(old(board), old(random)) && value == SpawnValue(old(random))
    {
      hide Output, NextRandom, EmptyCells;
      EmptyCellsEnd(board);
      var empty: seq<nat> := [];
      for index := 0 to 16
        invariant board == old(board) && random == old(random)
        invariant empty + EmptyCells(board, index) == EmptyCells(board, 0)
      {
        EmptyCellsStep(board, index);
        if board[index] == 0 {
          empty := empty + [index];
        }
      }
      assert empty == EmptyCells(board, 0);
      if empty == [] {
        return false, NO_CELL, 0;
      }
      assert HasGap(board) by {
        assert board[empty[0]] == 0;
      }
      var first := Random();
      selected := empty[first % |empty|];
      var second := Random();
      value := if second % 10 == 0 then 4 else 2;
      board := board[selected := value];
      ok := true;
    }

    method Reset()
      modifies this
      ensures Persistent() == AfterReset(old(Persistent()))
    {
      board := EMPTY_BOARD;
      score := 0;
      phase := Playing;
      undoValid := false;
      var _, _, _ := Spawn();
      var _, _, _ := Spawn();
    }

    /** The values of a line and the offsets of its tiles. */
    method Gather(d: Direction, line: nat) returns (values: Line, sources: seq<nat>)
      requires line < 4
      ensures values == LineAt(board, d, line) && sources == Sources(values, 0)
    {
      values := LineAt(board, d, line);
      sources := [];
      for offset := 0 to 4
        invariant sources + Sources(values, offset) == Sources(values, 0)
      {
        if values[offset] != 0 {
          sources := sources + [offset];
        }
      }
    }

    static method AppendMotions(d: Direction, line: nat, values: Line, sources: seq<nat>, motions: seq<Motion>)
      returns (r: seq<Motion>)
      requires line < 4 && (forall k :: 0 <= k < |sources| ==> sources[k] < 4)
      requires InLine(Motions(values, sources, 0))
      ensures r == motions + Placed(Motions(values, sources, 0), d, line)
    {
      hide Cell, Motions, Placed, InLine, StepMotions;
      PlacedNothing(d, line);
      ghost var all := Motions(values, sources, 0);
      ghost var done: seq<Motion> := [];
      r := motions;
      var source, destination := 0, 0;
      assert sources[0..] == sources;
      while source < |sources|
        invariant 0 <= source <= |sources|
        invariant done + Motions(values, sources[source..], destination) == all
        invariant InLine(done) && r == motions + Placed(done, d, line)
      {
        var v := values[sources[source]];
        var merged := source + 1 < |sources| && values[sources[source + 1]] == v;
        ghost var step := StepMotions(values, sources, source, destination);
        MotionsFrom(values, sources, source, destination);
        InLineParts(all, done, step, Motions(values, sources[source + |step|..], destination + 1));
        PlacedAppend(done, step, d, line);
        PlacedStep(values, sources, source, destination, d, line);
        r := r + [Motion(Cell(d, line, sources[source]), Cell(d, line, destination), v, merged)];
        if merged {
          r := r + [Motion(Cell(d, line, sources[source + 1]), Cell(d, line, destination), v, true)];
        }
        assert r == motions + (Placed(done, d, line) + Placed(step, d, line));
        done := done + step;
        source := source + if merged then 2 else 1;
        destination := destination + 1;
      }
      NothingMoves(values, destination);
      assert sources[source..] == [];
      assert done == all;
    }

    /** Writes a collapsed line back into the board being built. */
    method WriteLine(d: Direction, line: nat, collapsed: Line, before: Board) returns (next: Board)
      requires line < 4
      ensures forall c :: 0 <= c < 16 ==>
        next[c] == if LineOf(d, c) == line then collapsed[OffsetOf(d, c)] else before[c]
    {
      hide Cell, LineOf, OffsetOf;
      next := before;
      for offset := 0 to 4
        invariant forall c :: 0 <= c < 16 ==>
          next[c] == if LineOf(d, c) == line && OffsetOf(d, c) < offset then collapsed[OffsetOf(d, c)] else before[c]
      {
        forall c | 0 <= c < 16
          ensures Cell(d, line, offset) == c <==> line == LineOf(d, c) && offset == OffsetOf(d, c)
        {
          CellsAreNumbered(d, line, offset, c);
        }
        next := next[Cell(d, line, offset) := collapsed[offset]];
      }
    }

    method Move(d: Direction) returns (outcome: Outcome)
      modifies this
      ensures Persistent() == AfterMove(old(Persistent()), d)
      ensures outcome == MoveOutcome(old(Persistent()), d)
    {
      hide Moved, Delta, BoardMotions, PhaseOf, HasGap, Spawned, AfterSpawn, SpawnCell, SpawnValue;
      outcome := NO_OUTCOME;
      if phase == Lost {
        return;
      }
      var before := Snapshot(board, score, phase, random);
      var next, motions, delta := Slide(d);
      if next == board {
        phase := PhaseForBoard(board);
        return outcome.(delta := delta);
      }
      board := next;
      score := (score + delta) % TWO_32;
      best := Max(best, score);
      undo := before;
      undoValid := true;
      var ok, cell, value := Spawn();
      phase := PhaseForBoard(board);
      outcome := Outcome(true, delta, motions, if ok then cell else NO_CELL, if ok then value else 0);
    }

    /** The line loop of a move: the board it leads to, its motions, and its score. */
    method Slide(d: Direction) returns (next: Board, motions: seq<Motion>, delta: nat)
      ensures next == Moved(board, d) && motions == BoardMotions(board, d, 4) && delta == Delta(board, d, 4)
    {
      hide Collapse, Motions, Placed, LineOf, OffsetOf, MergeScore, MergeMask, Compact, LineAt, Moved;
      MovedCell(board, d);
      next, motions, delta := board, [], 0;
      for line := 0 to 4
        invariant delta == Delta(board, d, line) && motions == BoardMotions(board, d, line)
        invariant forall c :: 0 <= c < 16 && LineOf(d, c) < line ==> next[c] == Moved(board, d)[c]
      {
        var values, sources := Gather(d, line);
        var collapsed, score, _, _ := CollapseLine(values);
        delta := delta + score;
        next := WriteLine(d, line, collapsed, next);
        LineMotionsInLine(values);
        motions := AppendMotions(d, line, values, sources, motions);
        assert motions == BoardMotions(board, d, line) + LineMotions(board, d, line);
      }
    }

    method Undo() returns (ok: bool)
      modifies this
      ensures Persistent() == AfterUndo(old(Persistent())) && ok == old(undoValid)
    {
      if !undoValid {
        return false;
      }
      board := undo.board;
      score := undo.score;
      phase := undo.phase;
      random := undo.random;
      undoValid := false;
      ok := true;
    }

    method Restore(s: State) returns (ok: bool)
      modifies this
      ensures ok == Restorable(s)
      ensures Persistent() == if ok then s else old(Persistent())
    {
      if !Restorable(s) {
        return false;
      }
      board, score, best, phase, random := s.board, s.score, s.best, s.phase, s.random;
      undo, undoValid := s.undo, s.undoValid;
      ok := true;
    }

    method SetBestScore(value: u32)
      modifies this`best
      ensures Persistent() == AfterSetBest(old(Persistent()), value)
    {
      best := Max(value, score);
    }
  }

  lemma MovedCell(b: Board, d: Direction)
    ensures forall c :: 0 <= c < 16 ==> Moved(b, d)[c] == Collapse(LineAt(b, d, LineOf(d, c)))[OffsetOf(d, c)]
  {
  }

  lemma EmptyCellsStep(b: Board, i: nat)
    requires i < 16
    ensures EmptyCells(b, i) == (if b[i] == 0 then [i] else []) + EmptyCells(b, i + 1)
  {
  }

  lemma EmptyCellsEnd(b: Board)
    ensures EmptyCells(b, 16) == []
  {
  }

  /** The motions of one step of the motion loop. */
  ghost function StepMotions(values: Line, sources: seq<nat>, source: nat, destination: nat): seq<Motion>
    requires source < |sources| && forall k :: 0 <= k < |sources| ==> sources[k] < 4
  {
    var v := values[sources[source]];
    if source + 1 < |sources| && values[sources[source + 1]] == v
    then [Motion(sources[source], destination, v, true), Motion(sources[source + 1], destination, v, true)]
    else [Motion(sources[source], destination, v, false)]
  }

  lemma PlacedStep(values: Line, sources: seq<nat>, source: nat, destination: nat, d: Direction, line: nat)
    requires line < 4 && source < |sources| && forall k :: 0 <= k < |sources| ==> sources[k] < 4
    requires InLine(StepMotions(values, sources, source, destination))
    ensures destination < 4
    ensures
      var v, to := values[sources[source]], Cell(d, line, destination);
      var merged := source + 1 < |sources| && values[sources[source + 1]] == v;
      Placed(StepMotions(values, sources, source, destination), d, line) ==
        [Motion(Cell(d, line, sources[source]), to, v, merged)]
        + (if merged then [Motion(Cell(d, line, sources[source + 1]), to, v, true)] else [])
  {
    assert StepMotions(values, sources, source, destination)[0].to == destination;
  }

  lemma InLineParts(all: seq<Motion>, a: seq<Motion>, b: seq<Motion>, c: seq<Motion>)
    requires InLine(all) && a + (b + c) == all
    ensures InLine(a) && InLine(b) && InLine(a + b) && (a + b) + c == all
  {
    assert forall k :: 0 <= k < |a| ==> a[k] == all[k];
    assert forall k :: 0 <= k < |b| ==> b[k] == all[|a| + k];
  }

  lemma PlacedAppend(a: seq<Motion>, b: seq<Motion>, d: Direction, line: nat)
    requires line < 4 && InLine(a) && InLine(b) && InLine(a + b)
    ensures Placed(a + b, d, line) == Placed(a, d, line) + Placed(b, d, line)
  {
  }

  lemma MotionsFrom(values: Line, sources: seq<nat>, source: nat, destination: nat)
    requires source < |sources| && forall k :: 0 <= k < |sources| ==> sources[k] < 4
    ensures
      var step := StepMotions(values, sources, source, destination);
      && source + |step| <= |sources|
      && Motions(values, sources[source..], destination) ==
           step + Motions(values, sources[source + |step|..], destination + 1)
  {
    var rest := sources[source..];
    assert rest[1..] == sources[source + 1..];
    if source + 1 < |sources| {
      assert rest[2..] == sources[source + 2..];
    }
  }
}
