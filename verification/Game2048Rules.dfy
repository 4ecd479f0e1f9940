/** The rules of the game, written out: where a move sends the tiles, what appears after it, what it scores, when it is
    over, and where the random numbers come from. */
module Game2048Rules {
  import opened Bytes
  import opened Game2048Line
  import opened Game2048Board
  import opened Game2048

  /** Two equal tiles become their sum, as long as a tile can hold it. */
  lemma DoubledMeans(v: u16)
    ensures Doubled(v) == if v + v < 65536 then v + v else v
  {
  }

  /** Left and right act on rows, up and down on columns; the tiles go to the side that is named. */
  lemma DirectionsMean(b: Board, i: nat)
    requires i < 4
    ensures
      var m := Moved(b, Left);
      [m[4 * i], m[4 * i + 1], m[4 * i + 2], m[4 * i + 3]]
        == Collapse([b[4 * i], b[4 * i + 1], b[4 * i + 2], b[4 * i + 3]])
    ensures
      var m := Moved(b, Right);
      [m[4 * i + 3], m[4 * i + 2], m[4 * i + 1], m[4 * i]]
        == Collapse([b[4 * i + 3], b[4 * i + 2], b[4 * i + 1], b[4 * i]])
    ensures
      var m := Moved(b, Up);
      [m[i], m[4 + i], m[8 + i], m[12 + i]] == Collapse([b[i], b[4 + i], b[8 + i], b[12 + i]])
    ensures
      var m := Moved(b, Down);
      [m[12 + i], m[8 + i], m[4 + i], m[i]] == Collapse([b[12 + i], b[8 + i], b[4 + i], b[i]])
  {
    hide Collapse, Moved;
    MovedLine(b, Left, i);
    MovedLine(b, Right, i);
    MovedLine(b, Up, i);
    MovedLine(b, Down, i);
  }

  /** Won with a tile of 2048 or more; lost when the board is full and no two neighbours are equal. */
  predicate PhaseIs(b: Board, p: Phase) {
    && (p == Won <==> exists c :: 0 <= c < 16 && b[c] > 2047)
    && (p == Lost <==>
          && (forall c :: 0 <= c < 16 ==> 1 <= b[c] <= 2047)
          && (forall row, column :: 0 <= row < 4 && 0 <= column < 3 ==> At(b, row, column) != At(b, row, column + 1))
          && (forall row, column :: 0 <= row < 3 && 0 <= column < 4 ==> At(b, row, column) != At(b, row + 1, column)))
  }

  function At(b: Board, row: nat, column: nat): u16
    requires row < 4 && column < 4
  {
    b[4 * row + column]
  }

  lemma PhaseMeans(b: Board)
    ensures PhaseIs(b, PhaseOf(b))
  {
    if forall c :: 0 <= c < 16 ==> !PairAt(b, c) {
      forall row, column | 0 <= row < 4 && 0 <= column < 3
        ensures At(b, row, column) != At(b, row, column + 1)
      {
        assert !PairAt(b, 4 * row + column);
      }
      forall row, column | 0 <= row < 3 && 0 <= column < 4
        ensures At(b, row, column) != At(b, row + 1, column)
      {
        assert !PairAt(b, 4 * row + column);
      }
    } else {
      var c :| 0 <= c < 16 && PairAt(b, c);
      assert c == 4 * (c / 4) + c % 4;
      assert At(b, c / 4, c % 4) == b[c];
      if c % 4 < 3 && b[c] == b[c + 1] {
        assert At(b, c / 4, c % 4 + 1) == b[c + 1];
      } else {
        assert At(b, c / 4 + 1, c % 4) == b[c + 4];
      }
    }
  }

  /** The generator is the xorshift64* of Vigna: two steps of it, and the value of the first. */
  lemma GeneratorSample()
    ensures NextRandom(0x0123_4567_89ab_cdef) == 0xa69c_f1e9_aa4d_68fc
    ensures NextRandom(0xa69c_f1e9_aa4d_68fc) == 0xebff_37a3_9f31_3bf6
    ensures Output(0xa69c_f1e9_aa4d_68fc) == 8976943199460683916
  {
  }

  /** The empty cells among the first `n`. */
  function Gaps(b: Board, n: nat): nat
    requires n <= 16
  {
    if n == 0 then 0 else Gaps(b, n - 1) + if b[n - 1] == 0 then 1 else 0
  }

  lemma {:induction false} EmptyCellsCount(b: Board, i: nat, k: nat)
    requires i <= 16
    ensures |EmptyCells(b, i)| == Gaps(b, 16) - Gaps(b, i)
    ensures k < |EmptyCells(b, i)| ==> Gaps(b, EmptyCells(b, i)[k]) == Gaps(b, i) + k
    decreases 16 - i
  {
    if i < 16 {
      if b[i] == 0 {
        EmptyCellsCount(b, i + 1, if k == 0 then 0 else k - 1);
      } else {
        EmptyCellsCount(b, i + 1, k);
      }
    }
  }

  /** `after` is `before` with a new tile: of the gaps the one the first random number picks, by its remainder, holds a
      4 when the second is a multiple of ten, and otherwise a 2. */
  ghost predicate Appears(before: Board, after: Board, random: bv64, c: nat, v: u16) {
    var (one, two) := (NextRandom(random), NextRandom(NextRandom(random)));
    && c < 16 && before[c] == 0 && after == before[c := v]
    && Gaps(before, 16) > 0 && Gaps(before, c) == Output(one) % Gaps(before, 16)
    && v == if Output(two) % 10 == 0 then 4 else 2
  }

  lemma SpawnMeans(b: Board, random: bv64)
    requires HasGap(b)
    ensures Appears(b, Spawned(b, random), random, SpawnCell(b, random), SpawnValue(random))
    ensures AfterSpawn(b, random) == NextRandom(NextRandom(random))
  {
    SpawnCellMeans(b, random);
    hide NextRandom, Output, SpawnCell, EmptyCells, Gaps, HasGap;
  }

  lemma SpawnCellMeans(b: Board, random: bv64)
    requires HasGap(b)
    ensures Gaps(b, 16) > 0
    ensures Gaps(b, SpawnCell(b, random)) == Output(NextRandom(random)) % Gaps(b, 16)
  {
    hide NextRandom, Output;
    GapIsListed(b);
    var count := |EmptyCells(b, 0)|;
    var k := Output(NextRandom(random)) % count;
    EmptyCellsCount(b, 0, k);
    assert SpawnCell(b, random) == EmptyCells(b, 0)[k];
  }

  lemma GapIsListed(b: Board)
    requires HasGap(b)
    ensures |EmptyCells(b, 0)| > 0
  {
  }

  /** Without a change nothing merges, so nothing is scored. */
  lemma {:induction false} SettledScoresNothing(line: seq<u16>)
    requires Settled(line)
    ensures MergeScore(Compact(line)) == 0
  {
    if line != [] {
      var rest := line[1..];
      assert forall i :: 0 < i < |rest| ==> rest[i - 1] == line[i] && rest[i] == line[i + 1];
      SettledScoresNothing(rest);
      if line[0] != 0 && rest != [] && rest[0] == 0 {
        ZerosAreNothing(rest);
      }
    }
  }

  lemma {:induction false} ZerosAreNothing(line: seq<u16>)
    requires Settled(line) && (line == [] || line[0] == 0)
    ensures Compact(line) == []
  {
    if |line| > 1 {
      var rest := line[1..];
      assert forall i :: 0 < i < |rest| ==> rest[i - 1] == line[i] && rest[i] == line[i + 1];
      ZerosAreNothing(rest);
    }
  }

  lemma UnchangedScoresNothing(b: Board, d: Direction, n: nat)
    requires Moved(b, d) == b && n <= 4
    ensures Delta(b, d, n) == 0
  {
    hide Settled, Moved, LineAt, Compact, MergeScore;
    UnmovedIsSettled(b, d);
    if n > 0 {
      UnchangedScoresNothing(b, d, n - 1);
      SettledScoresNothing(LineAt(b, d, n - 1));
    }
  }

  /** One move from `s` to `t` with outcome `o`, when the tiles slide to `next` and score `delta`. A lost game does
      not move. A move that changes nothing scores nothing, keeps the board, and leaves what can be taken back as it
      was. Any other puts one new tile on the moved board, adds what it scores, modulo 2^32, keeps the larger best
      score, and remembers the game before it. */
  ghost predicate MoveIs(s: State, t: State, o: Outcome, next: Board, delta: nat) {
    && (s.phase == Lost ==> t == s && o == Outcome(false, 0, [], 255, 0))
    && (s.phase != Lost && next == s.board ==>
          t == s.(phase := t.phase) && PhaseIs(t.board, t.phase) && o == Outcome(false, 0, [], 255, 0))
    && (s.phase != Lost && next != s.board ==>
          && o.changed && o.delta == delta && Appears(next, t.board, s.random, o.spawnedCell, o.spawnedValue)
          && t.score == (s.score + delta) % 0x1_0000_0000
          && t.best >= s.best && t.best >= t.score && (t.best == s.best || t.best == t.score)
          && PhaseIs(t.board, t.phase) && t.random == NextRandom(NextRandom(s.random))
          && t.undo == Snapshot(s.board, s.score, s.phase, s.random) && t.undoValid)
  }

  lemma MoveMeans(s: State, d: Direction)
    ensures MoveIs(s, AfterMove(s, d), MoveOutcome(s, d), Moved(s.board, d), Delta(s.board, d, 4))
  {
    hide Moved, Delta, PhaseOf, PhaseIs, Appears, NextRandom, HasGap, Spawned, SpawnCell, SpawnValue, AfterSpawn;
    if s.phase != Lost {
      var next := Moved(s.board, d);
      PhaseMeans(AfterMove(s, d).board);
      if next == s.board {
        UnchangedScoresNothing(s.board, d, 4);
      } else {
        ChangedBoardHasGap(s.board, d);
        SpawnMeans(next, s.random);
      }
    }
  }

  /** Two tiles on an empty board, one after the other. */
  ghost predicate Opens(b: Board, random: bv64) {
    exists one: Board, c, v, k, w ::
      && Appears(EMPTY_BOARD, one, random, c, v)
      && Appears(one, b, NextRandom(NextRandom(random)), k, w)
  }

  /** A new game: that board, no score, nothing to take back, and the best score of before. */
  lemma ResetMeans(s: State)
    ensures
      var t := AfterReset(s);
      && Opens(t.board, s.random)
      && t == State(t.board, 0, s.best, Playing, NextRandom(NextRandom(NextRandom(NextRandom(s.random)))), s.undo, false)
  {
    hide NextRandom, Output, Appears, HasGap, Spawned, SpawnCell, SpawnValue, AfterSpawn;
    EmptyHasGap();
    var one, random := Spawned(EMPTY_BOARD, s.random), AfterSpawn(EMPTY_BOARD, s.random);
    SpawnMeans(EMPTY_BOARD, s.random);
    OneTileLeavesGap(s.random);
    SpawnMeans(one, random);
  }

  lemma EmptyHasGap()
    ensures HasGap(EMPTY_BOARD)
  {
    assert EMPTY_BOARD[0] == 0;
  }

  lemma OneTileLeavesGap(random: bv64)
    requires HasGap(EMPTY_BOARD)
    ensures HasGap(Spawned(EMPTY_BOARD, random))
  {
    hide NextRandom, Output, EmptyCells;
    var one, c := Spawned(EMPTY_BOARD, random), SpawnCell(EMPTY_BOARD, random);
    var other := if c == 0 then 1 else 0;
    assert one[other] == 0;
  }
}
