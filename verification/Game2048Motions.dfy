/** The motion list of a move: where every tile goes, and what it makes on arrival. */
module Game2048Motions {
  import opened Game2048Line
  import opened Game2048Board

  ghost predicate InLine(ms: seq<Motion>) {
    forall k :: 0 <= k < |ms| ==> ms[k].from < 4 && ms[k].to < 4
  }

  function PlacedOne(m: Motion, d: Direction, line: nat): Motion
    requires line < 4 && m.from < 4 && m.to < 4
  {
    m.(from := Cell(d, line, m.from), to := Cell(d, line, m.to))
  }

  /** The motions of a line, on the board. */
  ghost function Placed(ms: seq<Motion>, d: Direction, line: nat): (r: seq<Motion>)
    requires line < 4 && InLine(ms)
    ensures |r| == |ms|
  {
    seq(|ms|, k requires 0 <= k < |ms| => PlacedOne(ms[k], d, line))
  }

  lemma LineMotionsInLine(line: Line)
    ensures InLine(Motions(line, Sources(line, 0), 0)) && |Motions(line, Sources(line, 0), 0)| <= 4
  {
    hide Motions, Compact;
    var sources := Sources(line, 0);
    TilesAtSources(line, 0);
    assert line[0..] == line;
    MotionsStart(line, sources, 0, 0);
    forall k | 0 <= k < |sources|
      ensures Motions(line, sources, 0)[k].from < 4 && Motions(line, sources, 0)[k].to < 4
    {
      MotionsStart(line, sources, 0, k);
    }
  }

  ghost function LineMotions(b: Board, d: Direction, line: nat): (r: seq<Motion>)
    requires line < 4
    ensures |r| <= 4
  {
    var values := LineAt(b, d, line);
    LineMotionsInLine(values);
    Placed(Motions(values, Sources(values, 0), 0), d, line)
  }

  /** The motions of the first `n` lines. */
  ghost function BoardMotions(b: Board, d: Direction, n: nat): (r: seq<Motion>)
    requires n <= 4
    ensures |r| <= 4 * n
  {
    if n == 0 then [] else BoardMotions(b, d, n - 1) + LineMotions(b, d, n - 1)
  }

  /** The motions that start at `cell`. */
  function Leaving(ms: seq<Motion>, cell: nat): seq<Motion> {
    if ms == [] then []
    else (if ms[0].from == cell then [ms[0]] else []) + Leaving(ms[1..], cell)
  }

  lemma {:induction false} LeavingAppend(a: seq<Motion>, b: seq<Motion>, cell: nat)
    ensures Leaving(a + b, cell) == Leaving(a, cell) + Leaving(b, cell)
  {
    hide Leaving;
    if a == [] {
      LeavingNone(cell);
      assert a + b == b;
    } else {
      LeavingAppend(a[1..], b, cell);
      LeavingFirst(a[0], a[1..] + b, cell);
      LeavingFirst(a[0], a[1..], cell);
      assert a == [a[0]] + a[1..] && a + b == [a[0]] + (a[1..] + b);
    }
  }

  lemma LeavingNone(cell: nat)
    ensures Leaving([], cell) == []
  {
  }

  lemma LeavingFirst(m: Motion, rest: seq<Motion>, cell: nat)
    ensures Leaving([m] + rest, cell) == (if m.from == cell then [m] else []) + Leaving(rest, cell)
  {
    assert ([m] + rest)[1..] == rest;
  }

  /** If the motions start at distinct places then the one that starts at a place is alone. */
  lemma {:induction false} LeavingIsSingle(ms: seq<Motion>, cell: nat)
    requires forall i, j :: 0 <= i < j < |ms| ==> ms[i].from != ms[j].from
    ensures (forall k :: 0 <= k < |ms| ==> ms[k].from != cell) ==> Leaving(ms, cell) == []
    ensures forall k :: 0 <= k < |ms| && ms[k].from == cell ==> Leaving(ms, cell) == [ms[k]]
  {
    if ms != [] {
      LeavingIsSingle(ms[1..], cell);
      forall k | 0 <= k < |ms| && ms[k].from == cell
        ensures Leaving(ms, cell) == [ms[k]]
      {
        if k == 0 {
          assert forall j :: 0 <= j < |ms| - 1 ==> ms[1..][j].from != cell;
        } else {
          assert ms[1..][k - 1] == ms[k];
        }
      }
    }
  }

  lemma PlacedNothing(d: Direction, line: nat)
    requires line < 4
    ensures InLine([]) && Placed([], d, line) == []
  {
  }

  lemma PlacedFirst(ms: seq<Motion>, d: Direction, line: nat)
    requires ms != [] && line < 4 && InLine(ms)
    ensures InLine(ms[1..])
    ensures Placed(ms, d, line) == [PlacedOne(ms[0], d, line)] + Placed(ms[1..], d, line)
  {
  }

  lemma {:induction false} LandingPlaced(ms: seq<Motion>, d: Direction, line: nat, cell: nat)
    requires line < 4 && cell < 16 && InLine(ms)
    ensures InLine(Landing(ms, OffsetOf(d, cell)))
    ensures Landing(Placed(ms, d, line), cell) ==
      if LineOf(d, cell) == line then Placed(Landing(ms, OffsetOf(d, cell)), d, line) else []
  {
    hide Landing, Cell, LineOf, OffsetOf, Placed;
    if ms == [] {
      LandingOfNone(OffsetOf(d, cell));
      LandingOfNone(cell);
      PlacedNothing(d, line);
    } else {
      var rest := ms[1..];
      LandingPlaced(rest, d, line, cell);
      CellsAreNumbered(d, line, ms[0].to, cell);
      assert ms == [ms[0]] + rest;
      PlacedFirst(ms, d, line);
      LandingOfOne(ms[0], rest, OffsetOf(d, cell));
      LandingOfOne(PlacedOne(ms[0], d, line), Placed(rest, d, line), cell);
      if ms[0].to == OffsetOf(d, cell) && LineOf(d, cell) == line {
        var landed := [ms[0]] + Landing(rest, OffsetOf(d, cell));
        assert landed[1..] == Landing(rest, OffsetOf(d, cell));
        PlacedFirst(landed, d, line);
        assert Landing(Placed(ms, d, line), cell) == Placed(landed, d, line);
      } else {
        assert Landing(Placed(ms, d, line), cell) == Landing(Placed(rest, d, line), cell);
        assert ms[0].to != OffsetOf(d, cell) ==> Landing(ms, OffsetOf(d, cell)) == Landing(rest, OffsetOf(d, cell));
      }
    }
  }

  /** The part of a board's motions that lands on a cell is that of its own line. */
  lemma {:induction false} LandingOnBoard(b: Board, d: Direction, n: nat, cell: nat)
    requires n <= 4 && cell < 16
    ensures Landing(BoardMotions(b, d, n), cell) ==
      if LineOf(d, cell) < n then Landing(LineMotions(b, d, LineOf(d, cell)), cell) else []
  {
    hide LineMotions;
    if n > 0 {
      LandingOnBoard(b, d, n - 1, cell);
      LandingAppend(BoardMotions(b, d, n - 1), LineMotions(b, d, n - 1), cell);
      if LineOf(d, cell) != n - 1 {
        LandingElsewhere(b, d, n - 1, cell);
      }
    }
  }

  lemma LandingElsewhere(b: Board, d: Direction, line: nat, cell: nat)
    requires line < 4 && cell < 16 && LineOf(d, cell) != line
    ensures Landing(LineMotions(b, d, line), cell) == []
  {
    var values := LineAt(b, d, line);
    LineMotionsInLine(values);
    LandingPlaced(Motions(values, Sources(values, 0), 0), d, line, cell);
  }

  lemma LandedPlaced(ms: seq<Motion>, d: Direction, line: nat)
    requires line < 4 && InLine(ms)
    ensures Landed(Placed(ms, d, line)) == Landed(ms)
    ensures LandsWell(ms) ==> LandsWell(Placed(ms, d, line))
  {
  }

  /** Replaying the motions gives the moved board: what lands on a cell is nothing, one tile, or
      two equal ones that merge, and makes the tile the collapse puts there. */
  lemma MotionsMakeBoard(b: Board, d: Direction, cell: nat)
    requires cell < 16
    ensures
      var landing := Landing(BoardMotions(b, d, 4), cell);
      LandsWell(landing) && Landed(landing) == Moved(b, d)[cell]
  {
    hide Motions, Merge, Compact, Landing, LandsWell, Landed;
    LandingOnBoard(b, d, 4, cell);
    var line, offset := LineOf(d, cell), OffsetOf(d, cell);
    var values := LineAt(b, d, line);
    var sources := Sources(values, 0);
    LineMotionsInLine(values);
    LandingPlaced(Motions(values, sources, 0), d, line, cell);
    TilesAtSources(values, 0);
    assert values[0..] == values;
    LandingMakesTile(values, sources, 0, offset);
    LandedPlaced(Landing(Motions(values, sources, 0), offset), d, line);
  }

  /** Motion `k` of a line starts at a tile of that line. */
  lemma LineMotionStarts(b: Board, d: Direction, line: nat, k: nat)
    requires line < 4 && k < |LineMotions(b, d, line)|
    ensures
      var ms, values := LineMotions(b, d, line), LineAt(b, d, line);
      var sources := Sources(values, 0);
      && |ms| == |sources| && ms[k].from == Cell(d, line, sources[k])
      && ms[k].value == values[sources[k]] == b[ms[k].from] != 0
  {
    hide Motions;
    var values := LineAt(b, d, line);
    LineMotionsInLine(values);
    MotionsStart(values, Sources(values, 0), 0, 0);
    MotionsStart(values, Sources(values, 0), 0, k);
    LineCell(b, d, line, Sources(values, 0)[k]);
  }

  lemma LineCell(b: Board, d: Direction, line: nat, offset: nat)
    requires line < 4 && offset < 4
    ensures LineAt(b, d, line)[offset] == b[Cell(d, line, offset)]
  {
  }

  lemma LeavingLine(b: Board, d: Direction, line: nat, cell: nat)
    requires line < 4 && cell < 16
    ensures
      var leaving := Leaving(LineMotions(b, d, line), cell);
      if LineOf(d, cell) == line && b[cell] != 0
      then |leaving| == 1 && leaving[0].from == cell && leaving[0].value == b[cell]
      else leaving == []
  {
    hide LineMotions, LineAt, Sources, Leaving, Cell, LineOf, OffsetOf;
    var ms, values := LineMotions(b, d, line), LineAt(b, d, line);
    var sources := Sources(values, 0);
    LineMotionCount(b, d, line);
    forall i, j | 0 <= i < j < |ms|
      ensures ms[i].from != ms[j].from
    {
      LineMotionStarts(b, d, line, i);
      LineMotionStarts(b, d, line, j);
      CellsAreNumbered(d, line, sources[i], ms[i].from);
      CellsAreNumbered(d, line, sources[j], ms[j].from);
    }
    LeavingIsSingle(ms, cell);
    if LineOf(d, cell) == line && b[cell] != 0 {
      CellsAreNumbered(d, line, OffsetOf(d, cell), cell);
      LineCell(b, d, line, OffsetOf(d, cell));
      TilesAtSources(values, 0);
      var k :| 0 <= k < |sources| && sources[k] == OffsetOf(d, cell);
      LineMotionStarts(b, d, line, k);
    } else {
      forall k | 0 <= k < |ms|
        ensures ms[k].from != cell
      {
        LineMotionStarts(b, d, line, k);
        CellsAreNumbered(d, line, sources[k], ms[k].from);
      }
    }
  }

  lemma LineMotionCount(b: Board, d: Direction, line: nat)
    requires line < 4
    ensures |LineMotions(b, d, line)| == |Sources(LineAt(b, d, line), 0)|
  {
    hide Motions;
    MotionsStart(LineAt(b, d, line), Sources(LineAt(b, d, line), 0), 0, 0);
  }

  lemma {:induction false} LeavingBoard(b: Board, d: Direction, n: nat, cell: nat)
    requires n <= 4 && cell < 16
    ensures
      var leaving := Leaving(BoardMotions(b, d, n), cell);
      if LineOf(d, cell) < n && b[cell] != 0
      then |leaving| == 1 && leaving[0].from == cell && leaving[0].value == b[cell]
      else leaving == []
  {
    hide LineMotions;
    if n > 0 {
      LeavingBoard(b, d, n - 1, cell);
      LeavingLine(b, d, n - 1, cell);
      LeavingAppend(BoardMotions(b, d, n - 1), LineMotions(b, d, n - 1), cell);
    }
  }

  /** The motion list explains the move: exactly one motion leaves every tile and none an empty
      cell; replaying them gives the board the collapse computes; and sixteen entries suffice. */
  lemma MotionListExplainsMove(b: Board, d: Direction, cell: nat)
    requires cell < 16
    ensures
      var ms := BoardMotions(b, d, 4);
      var leaving, landing := Leaving(ms, cell), Landing(ms, cell);
      && |ms| <= 16
      && (if b[cell] == 0 then leaving == []
          else |leaving| == 1 && leaving[0].value == b[cell])
      && LandsWell(landing) && Landed(landing) == Moved(b, d)[cell]
  {
    hide Moved, LandsWell, Landed, Landing, Leaving;
    LeavingBoard(b, d, 4, cell);
    MotionsMakeBoard(b, d, cell);
  }
}
