/** The 2048 board: moving it in four directions, its phase, and the motion list of a move. */
module Game2048Board {
  import opened Bytes
  import opened Game2048Line

  type Board = b: seq<u16> | |b| == 16 witness seq(16, _ => 0)

  datatype Direction = Left | Right | Up | Down
  datatype Phase = Playing | Won | Lost

  /** The cell at `offset` of line `line`, counted from the side the move goes to. */
  function Cell(d: Direction, line: nat, offset: nat): (c: nat)
    requires line < 4 && offset < 4
    ensures c < 16
  {
    match d
    case Left => line * 4 + offset
    case Right => line * 4 + (3 - offset)
    case Up => offset * 4 + line
    case Down => (3 - offset) * 4 + line
  }

  function LineOf(d: Direction, c: nat): (l: nat)
    requires c < 16
    ensures l < 4
  {
    if d.Left? || d.Right? then c / 4 else c % 4
  }

  function OffsetOf(d: Direction, c: nat): (o: nat)
    requires c < 16
    ensures o < 4
  {
    match d
    case Left => c % 4
    case Right => 3 - c % 4
    case Up => c / 4
    case Down => 3 - c / 4
  }

  /** In every direction the lines and offsets number the cells one to one. */
  lemma CellsAreNumbered(d: Direction, line: nat, offset: nat, c: nat)
    requires line < 4 && offset < 4 && c < 16
    ensures Cell(d, line, offset) == c <==> line == LineOf(d, c) && offset == OffsetOf(d, c)
  {
  }

  function LineAt(b: Board, d: Direction, line: nat): (r: Line)
    requires line < 4
  {
    [b[Cell(d, line, 0)], b[Cell(d, line, 1)], b[Cell(d, line, 2)], b[Cell(d, line, 3)]]
  }

  /** The board after a move, before a new tile appears. */
  function Moved(b: Board, d: Direction): (r: Board) {
    seq(16, c requires 0 <= c < 16 => Collapse(LineAt(b, d, LineOf(d, c)))[OffsetOf(d, c)])
  }

  lemma MovedLine(b: Board, d: Direction, line: nat)
    requires line < 4
    ensures LineAt(Moved(b, d), d, line) == Collapse(LineAt(b, d, line))
  {
    hide Collapse;
    forall offset | 0 <= offset < 4
      ensures LineOf(d, Cell(d, line, offset)) == line && OffsetOf(d, Cell(d, line, offset)) == offset
    {
      CellsAreNumbered(d, line, offset, Cell(d, line, offset));
    }
  }

  lemma BoardByLines(a: Board, b: Board, d: Direction)
    requires forall line :: 0 <= line < 4 ==> LineAt(a, d, line) == LineAt(b, d, line)
    ensures a == b
  {
    forall c | 0 <= c < 16
      ensures a[c] == b[c]
    {
      CellsAreNumbered(d, LineOf(d, c), OffsetOf(d, c), c);
      assert LineAt(a, d, LineOf(d, c))[OffsetOf(d, c)] == LineAt(b, d, LineOf(d, c))[OffsetOf(d, c)];
    }
  }

  /** A move leaves the board alone exactly when every line is settled. */
  lemma UnmovedIsSettled(b: Board, d: Direction)
    ensures Moved(b, d) == b <==> forall line :: 0 <= line < 4 ==> Settled(LineAt(b, d, line))
  {
    hide Collapse, Moved, Settled, LineAt;
    forall line | 0 <= line < 4
      ensures LineAt(Moved(b, d), d, line) == LineAt(b, d, line) <==> Settled(LineAt(b, d, line))
    {
      MovedLine(b, d, line);
      CollapseFixesSettled(LineAt(b, d, line));
    }
    if forall line :: 0 <= line < 4 ==> Settled(LineAt(b, d, line)) {
      BoardByLines(Moved(b, d), b, d);
    }
  }

  predicate HasTile(b: Board) { exists c :: 0 <= c < 16 && b[c] != 0 }
  predicate HasGoal(b: Board) { exists c :: 0 <= c < 16 && b[c] >= 2048 }
  predicate HasGap(b: Board) { exists c :: 0 <= c < 16 && b[c] == 0 }

  /** Neighbouring cells, to the right or below, that hold the same value. */
  predicate PairAt(b: Board, c: nat)
    requires c < 16
  {
    (c % 4 < 3 && b[c] == b[c + 1]) || (c < 12 && b[c] == b[c + 4])
  }

  function PhaseOf(b: Board): Phase {
    if HasGoal(b) then Won
    else if HasGap(b) then Playing
    else if exists c :: 0 <= c < 16 && PairAt(b, c) then Playing
    else Lost
  }

  /** The static test of the source, cell by cell. */
  method PhaseForBoard(b: Board) returns (phase: Phase)
    ensures phase == PhaseOf(b)
  {
    if HasGoal(b) {
      return Won;
    }
    if HasGap(b) {
      return Playing;
    }
    for row := 0 to 4
      invariant forall c :: 0 <= c < 4 * row ==> !PairAt(b, c)
    {
      for column := 0 to 4
        invariant forall c :: 0 <= c < 4 * row + column ==> !PairAt(b, c)
      {
        var index := row * 4 + column;
        if (column < 3 && b[index] == b[index + 1]) || (row < 3 && b[index] == b[index + 4]) {
          assert PairAt(b, index);
          return Playing;
        }
      }
    }
    phase := Lost;
  }

  /** No move changes the board. */
  ghost predicate Stuck(b: Board) { forall d :: Moved(b, d) == b }

  /** In a settled board a row or column that starts with a tile from both ends is full. */
  lemma StuckRows(b: Board)
    requires Stuck(b)
    ensures forall d, line :: 0 <= line < 4 ==> Settled(LineAt(b, d, line))
  {
    hide Moved, Settled, LineAt;
    forall d, line | 0 <= line < 4
      ensures Settled(LineAt(b, d, line))
    {
      UnmovedIsSettled(b, d);
    }
  }

  lemma SettledPair(line: Line)
    requires Settled(line)
    ensures (line[0] == 0 ==> line[1] == 0) && (line[1] == 0 ==> line[2] == 0) && (line[2] == 0 ==> line[3] == 0)
    ensures (line[0] != 0 ==> line[0] != line[1]) && (line[1] != 0 ==> line[1] != line[2])
      && (line[2] != 0 ==> line[2] != line[3])
  {
  }

  lemma RowUniform(b: Board, line: nat)
    requires line < 4 && Settled(LineAt(b, Left, line)) && Settled(LineAt(b, Right, line))
    ensures b[4 * line] == 0 <==> b[4 * line + 1] == 0
    ensures b[4 * line] == 0 <==> b[4 * line + 2] == 0
    ensures b[4 * line] == 0 <==> b[4 * line + 3] == 0
  {
    SettledPair(LineAt(b, Left, line));
    SettledPair(LineAt(b, Right, line));
  }

  lemma ColumnUniform(b: Board, line: nat)
    requires line < 4 && Settled(LineAt(b, Up, line)) && Settled(LineAt(b, Down, line))
    ensures b[line] == 0 <==> b[line + 4] == 0
    ensures b[line] == 0 <==> b[line + 8] == 0
    ensures b[line] == 0 <==> b[line + 12] == 0
  {
    SettledPair(LineAt(b, Up, line));
    SettledPair(LineAt(b, Down, line));
  }

  lemma StuckHasNoGap(b: Board)
    requires Stuck(b) && HasTile(b)
    ensures !HasGap(b)
  {
    hide Settled, LineAt, Stuck;
    StuckRows(b);
    forall c | 0 <= c < 16
      ensures b[c] == 0 <==> b[0] == 0
    {
      RowUniform(b, c / 4);
      ColumnUniform(b, 0);
      assert c % 4 in {0, 1, 2, 3} && c == 4 * (c / 4) + c % 4;
      assert 4 * (c / 4) in {0, 4, 8, 12};
    }
  }

  lemma StuckHasNoPair(b: Board, c: nat)
    requires Stuck(b) && !HasGap(b) && c < 16
    ensures !PairAt(b, c)
  {
    hide Settled, Stuck;
    StuckRows(b);
    SettledPair(LineAt(b, Left, c / 4));
    SettledPair(LineAt(b, Up, c % 4));
    assert b[c] != 0;
    assert c == 4 * (c / 4) + c % 4;
  }

  lemma FullWithoutPairsIsStuck(b: Board)
    requires !HasGap(b) && forall c :: 0 <= c < 16 ==> !PairAt(b, c)
    ensures Stuck(b)
  {
    forall d
      ensures Moved(b, d) == b
    {
      forall line | 0 <= line < 4
        ensures Settled(LineAt(b, d, line))
      {
        NeighboursDiffer(b, d, line, 1);
        NeighboursDiffer(b, d, line, 2);
        NeighboursDiffer(b, d, line, 3);
      }
      UnmovedIsSettled(b, d);
    }
  }

  lemma NeighboursDiffer(b: Board, d: Direction, line: nat, i: nat)
    requires !HasGap(b) && (forall c :: 0 <= c < 16 ==> !PairAt(b, c)) && line < 4 && 0 < i < 4
    ensures LineAt(b, d, line)[i - 1] != 0 && LineAt(b, d, line)[i - 1] != LineAt(b, d, line)[i]
  {
    var p, q := Cell(d, line, i - 1), Cell(d, line, i);
    assert !PairAt(b, if p < q then p else q);
    assert LineAt(b, d, line)[i - 1] == b[p] && LineAt(b, d, line)[i] == b[q];
  }

  /** Lost means stuck: the static test reports a lost game exactly when the board has a tile, none
      of them has reached 2048, and no move in any direction changes anything. */
  lemma LostMeansStuck(b: Board)
    ensures PhaseOf(b) == Lost <==> HasTile(b) && !HasGoal(b) && Stuck(b)
  {
    hide Stuck;
    if PhaseOf(b) == Lost {
      FullWithoutPairsIsStuck(b);
      assert b[0] != 0;
    }
    if HasTile(b) && !HasGoal(b) && Stuck(b) {
      StuckHasNoGap(b);
      forall c | 0 <= c < 16
        ensures !PairAt(b, c)
      {
        StuckHasNoPair(b, c);
      }
    }
  }

  /** Every move that changes the board leaves an empty cell, so a new tile always fits. */
  lemma ChangedBoardHasGap(b: Board, d: Direction)
    requires Moved(b, d) != b
    ensures HasGap(Moved(b, d))
  {
    hide Collapse, LineAt, Moved;
    var line :| 0 <= line < 4 && LineAt(Moved(b, d), d, line) != LineAt(b, d, line) by {
      if forall line :: 0 <= line < 4 ==> LineAt(Moved(b, d), d, line) == LineAt(b, d, line) {
        BoardByLines(Moved(b, d), b, d);
      }
    }
    MovedLine(b, d, line);
    ChangedLineHasRoom(LineAt(b, d, line));
    LineLast(Moved(b, d), d, line);
  }

  lemma LineLast(b: Board, d: Direction, line: nat)
    requires line < 4
    ensures LineAt(b, d, line)[3] == b[Cell(d, line, 3)]
  {
  }
}
