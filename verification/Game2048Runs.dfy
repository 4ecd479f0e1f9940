/** What every game of 2048 keeps: restorability, the score potential, and undo. */
module Game2048Runs {
  import opened Bytes
  import opened Game2048Line
  import opened Game2048Board
  import opened Game2048Motions
  import opened Game2048

  /** A power of two. */
  predicate IsPower(v: nat) { v == 1 || (v > 1 && v % 2 == 0 && IsPower(v / 2)) }

  function Pow2(n: nat): (p: nat)
    ensures p > 0
  {
    if n == 0 then 1 else 2 * Pow2(n - 1)
  }

  lemma {:induction false} BitAndSame(v: nat)
    ensures BitAnd(v, v) == v
  {
    if v > 0 {
      BitAndSame(v / 2);
    }
  }

  lemma {:induction false} BitTest(v: nat)
    requires v > 0
    ensures BitAnd(v, v - 1) == 0 <==> IsPower(v)
  {
    if v > 1 {
      if v % 2 == 0 {
        assert (v - 1) / 2 == v / 2 - 1;
        BitTest(v / 2);
      } else {
        assert (v - 1) / 2 == v / 2;
        BitAndSame(v / 2);
      }
    }
  }

  predicate PowerTile(v: u16) { v == 0 || (v >= 2 && IsPower(v)) }

  predicate PowerTiles(t: seq<u16>) { forall i :: 0 <= i < |t| ==> PowerTile(t[i]) }

  /** The bit test of the source accepts exactly the powers of two from 2 on. */
  lemma ValidTileIsPower(v: u16)
    ensures ValidTile(v) <==> PowerTile(v)
  {
    if v > 0 {
      BitTest(v);
    }
  }

  lemma {:induction false} LargestPower(v: nat, n: nat)
    requires IsPower(v) && v < 2 * Pow2(n)
    ensures v <= Pow2(n)
  {
    if n > 0 && v > 1 {
      LargestPower(v / 2, n - 1);
    }
  }

  lemma Pow2Of15()
    ensures Pow2(15) == 0x8000
  {
    assert Pow2(4) == 16;
    assert Pow2(8) == 256;
    assert Pow2(12) == 4096;
  }

  /** Doubling a tile gives a tile, and the only tile that cannot be doubled is 32768. */
  lemma DoubledTile(v: u16)
    requires PowerTile(v) && v != 0
    ensures PowerTile(Doubled(v)) && v <= 0x8000
    ensures v > 0x7fff ==> v == 0x8000
  {
    Pow2Of15();
    LargestPower(v, 15);
    assert 2 * v / 2 == v;
  }

  /** The generator never reaches zero, where it would stay. */
  lemma RandomStaysNonZero(r: bv64)
    requires r != 0
    ensures NextRandom(r) != 0
  {
  }

  lemma {:induction false} CompactKeepsTiles(s: seq<u16>)
    requires PowerTiles(s)
    ensures PowerTiles(Compact(s))
  {
    if s != [] {
      CompactKeepsTiles(s[1..]);
    }
  }

  lemma {:induction false} MergeKeepsTiles(t: seq<u16>)
    requires PowerTiles(t) && NoZero(t)
    ensures PowerTiles(Merge(t))
  {
    hide IsPower;
    if t != [] {
      DoubledTile(t[0]);
      MergeKeepsTiles(if |t| >= 2 && t[0] == t[1] then t[2..] else t[1..]);
    }
  }

  lemma CollapseKeepsTiles(line: seq<u16>)
    requires PowerTiles(line)
    ensures PowerTiles(Collapse(line))
  {
    hide IsPower, Compact, Merge;
    CompactKeepsTiles(line);
    CompactFacts(line);
    MergeKeepsTiles(Compact(line));
  }

  lemma ValidIsPowerTiles(b: Board)
    ensures ValidBoard(b) <==> PowerTiles(b)
  {
    hide ValidTile, PowerTile;
    forall c | 0 <= c < 16
      ensures ValidTile(b[c]) <==> PowerTile(b[c])
    {
      ValidTileIsPower(b[c]);
    }
  }

  lemma LineOfTiles(b: Board, d: Direction, line: nat)
    requires PowerTiles(b) && line < 4
    ensures PowerTiles(LineAt(b, d, line))
  {
    hide PowerTile;
  }

  /** Moving a valid board gives a valid board. */
  lemma MovedKeepsValid(b: Board, d: Direction)
    requires ValidBoard(b)
    ensures ValidBoard(Moved(b, d))
  {
    hide ValidBoard, PowerTile, Collapse, LineAt;
    ValidIsPowerTiles(b);
    forall c | 0 <= c < 16
      ensures PowerTile(Moved(b, d)[c])
    {
      LineOfTiles(b, d, LineOf(d, c));
      CollapseKeepsTiles(LineAt(b, d, LineOf(d, c)));
    }
    ValidIsPowerTiles(Moved(b, d));
  }

  lemma SpawnedKeepsValid(b: Board, random: bv64)
    requires ValidBoard(b) && random != 0
    ensures ValidBoard(Spawned(b, random)) && AfterSpawn(b, random) != 0
  {
    hide ValidTile, NextRandom, SpawnCell, SpawnValue;
    RandomStaysNonZero(random);
    RandomStaysNonZero(NextRandom(random));
    SpawnTilesValid();
  }

  lemma SpawnTilesValid()
    ensures ValidTile(0) && ValidTile(2) && ValidTile(4)
  {
    ValidTileIsPower(2);
    ValidTileIsPower(4);
  }

  /** A fresh board has two tiles and is being played. */
  lemma ResetBoard(random: bv64)
    requires random != 0
    ensures
      var one, r := Spawned(EMPTY_BOARD, random), AfterSpawn(EMPTY_BOARD, random);
      && ValidBoard(Spawned(one, r)) && AfterSpawn(one, r) != 0
      && PhaseOf(Spawned(one, r)) == Playing
      && one == EMPTY_BOARD[SpawnCell(EMPTY_BOARD, random) := SpawnValue(random)]
      && HasGap(one) && Spawned(one, r) == one[SpawnCell(one, r) := SpawnValue(r)]
  {
    hide ValidTile, NextRandom, SpawnCell, SpawnValue;
    SpawnTilesValid();
    var one, r := Spawned(EMPTY_BOARD, random), AfterSpawn(EMPTY_BOARD, random);
    assert EMPTY_BOARD[0] == 0;
    SpawnedKeepsValid(EMPTY_BOARD, random);
    FewTiles(SpawnCell(EMPTY_BOARD, random), SpawnCell(EMPTY_BOARD, random), SpawnValue(random), SpawnValue(random));
    SpawnedKeepsValid(one, r);
    FewTiles(SpawnCell(EMPTY_BOARD, random), SpawnCell(one, r), SpawnValue(random), SpawnValue(r));
  }

  lemma FewTiles(i: nat, j: nat, v: u16, w: u16)
    requires i < 16 && j < 16 && v < 2048 && w < 2048
    ensures
      var b: Board := EMPTY_BOARD[i := v][j := w];
      HasGap(b) && !HasGoal(b)
  {
    var b: Board := EMPTY_BOARD[i := v][j := w];
    assert b[0] == 0 || b[1] == 0 || b[2] == 0;
  }

  datatype Event = Reset | Move(d: Direction) | Undo | SetBest(value: u32) | Restore(saved: State)

  /** The state after an operation; restoring is refused for a state that is not restorable. */
  function After(s: State, e: Event): State {
    match e
    case Reset => AfterReset(s)
    case Move(d) => AfterMove(s, d)
    case Undo => AfterUndo(s)
    case SetBest(v) => AfterSetBest(s, v)
    case Restore(t) => if Restorable(t) then t else s
  }

  /** Setting a best score must not take it below the score kept for undo. */
  predicate Allowed(s: State, e: Event) {
    e.SetBest? ==> s.undo.score <= Max(e.value, s.score)
  }

  lemma EmptyIsPlaying()
    ensures ValidBoard(EMPTY_BOARD) && PhaseOf(EMPTY_BOARD) == Playing
  {
    SpawnTilesValid();
    FewTiles(0, 0, 0, 0);
    assert EMPTY_BOARD[0 := 0][0 := 0] == EMPTY_BOARD;
  }

  /** A new game can be saved and restored. */
  lemma StartIsRestorable(seed: bv64)
    ensures Restorable(Start(seed))
  {
    hide ValidBoard, PhaseOf, NextRandom, SpawnCell, SpawnValue, Spawned, AfterSpawn;
    ResetBoard(if seed == 0 then 1 else seed);
    EmptyIsPlaying();
  }

  lemma MoveIsRestorable(s: State, d: Direction)
    requires Restorable(s)
    ensures Restorable(AfterMove(s, d))
  {
    hide ValidBoard, NextRandom, Spawned, AfterSpawn, Moved, PhaseOf, Delta;
    MovedKeepsValid(s.board, d);
    SpawnedKeepsValid(Moved(s.board, d), s.random);
  }

  /** What restoring demands is what every operation keeps, with one exception: setting a best
      score keeps it exactly when the new best is not below the score kept for undo. */
  lemma RestorableIsInvariant(s: State, e: Event)
    requires Restorable(s)
    ensures Restorable(After(s, e)) <==> Allowed(s, e)
  {
    hide ValidBoard, NextRandom, Spawned, AfterSpawn, Moved, PhaseOf, AfterMove;
    match e {
      case Reset => ResetBoard(s.random);
      case Move(d) => MoveIsRestorable(s, d);
      case Undo =>
      case SetBest(v) =>
      case Restore(t) =>
    }
  }

  /** The exception can occur: resetting keeps the undo record, so lowering the best score to zero
      right after the reset of a game with points gives a state that cannot be restored. */
  lemma LoweredBestIsRefused(s: State)
    requires Restorable(s) && s.undo.score > 0
    ensures !Restorable(AfterSetBest(AfterReset(s), 0))
  {
    hide Spawned, AfterSpawn, ValidBoard, PhaseOf;
  }

  /** Undo gives back the board, score, phase and generator of before the move, and making the
      same move again leads to the same state with the same outcome: board, score and spawn. */
  lemma UndoThenRedo(s: State, d: Direction)
    requires s.phase != Lost && Moved(s.board, d) != s.board
    ensures
      var moved := AfterMove(s, d);
      var undone := AfterUndo(moved);
      && undone == s.(best := moved.best, undo := Snapshot(s.board, s.score, s.phase, s.random), undoValid := false)
      && AfterMove(undone, d) == moved && MoveOutcome(undone, d) == MoveOutcome(s, d)
  {
    hide Moved, Spawned, AfterSpawn, PhaseOf, Delta, BoardMotions, HasGap, SpawnCell, SpawnValue;
  }

  /** What a tile is worth: the score of building it from tiles of two. */
  function Phi(v: nat): nat { if v < 4 then 0 else v + 2 * Phi(v / 2) }

  lemma Pow2Step(k: nat)
    requires k >= 1
    ensures Pow2(k) / 2 == Pow2(k - 1) && (k >= 2 ==> Pow2(k) >= 4)
  {
    if k >= 2 {
      assert Pow2(k) == 4 * Pow2(k - 2);
    }
  }

  lemma OneMore(k: int, p: int)
    ensures 2 * p + 2 * ((k - 2) * p) == (k - 1) * (2 * p)
  {
  }

  /** The closed form: a tile of `2^k` is worth `(k - 1) * 2^k`. */
  lemma {:induction false} PhiOfPower(k: nat)
    requires k >= 1
    ensures Phi(Pow2(k)) == (k - 1) * Pow2(k)
  {
    Pow2Step(k);
    if k > 1 {
      PhiOfPower(k - 1);
      OneMore(k, Pow2(k - 1));
    }
  }

  lemma {:induction false} PhiBound(v: nat, n: nat)
    requires n >= 1 && v <= Pow2(n)
    ensures Phi(v) <= (n - 1) * Pow2(n)
  {
    if v >= 4 {
      assert n >= 2;
      PhiBound(v / 2, n - 1);
      assert 2 * ((n - 2) * Pow2(n - 1)) == (n - 2) * Pow2(n);
      assert Pow2(n) + (n - 2) * Pow2(n) == (n - 1) * Pow2(n);
    }
  }

  function SumPhi(t: seq<u16>): nat {
    if t == [] then 0 else Phi(t[0]) + SumPhi(t[1..])
  }

  /** How many merges of a line meet two tiles of 32768, which do not add up. */
  function Saturated(t: seq<u16>): nat {
    if t == [] then 0
    else if |t| >= 2 && t[0] == t[1] then (if t[0] > 0x7fff then 1 else 0) + Saturated(t[2..])
    else Saturated(t[1..])
  }

  /** What a saturated merge scores beyond the change in worth: 32768 for the merge, and the
      worth of the tile that vanishes. */
  const SURPLUS: nat := 0x8000 + 14 * 0x8000

  lemma PhiOfDoubled(v: u16)
    requires PowerTile(v) && v != 0
    ensures Doubled(v) + 2 * Phi(v) == Phi(Doubled(v)) + if v > 0x7fff then SURPLUS else 0
  {
    DoubledTile(v);
    if v > 0x7fff {
      Pow2Of15();
      PhiOfPower(15);
    } else {
      assert Phi(2 * v) == 2 * v + 2 * Phi(v) by { assert 2 * v / 2 == v; }
    }
  }

  /** Merging scores what it adds to the worth of the tiles, and the surplus of saturation. */
  lemma {:induction false} MergeScores(t: seq<u16>)
    requires PowerTiles(t) && NoZero(t)
    ensures MergeScore(t) + SumPhi(t) == SumPhi(Merge(t)) + SURPLUS * Saturated(t)
  {
    hide PowerTile, Phi;
    if t != [] {
      if |t| >= 2 && t[0] == t[1] {
        MergeScores(t[2..]);
        PhiOfDoubled(t[0]);
        assert t[1..][1..] == t[2..];
        assert SumPhi(t) == Phi(t[0]) + Phi(t[1]) + SumPhi(t[2..]);
        SumPhiFirst(Doubled(t[0]), Merge(t[2..]));
      } else {
        MergeScores(t[1..]);
        SumPhiFirst(t[0], Merge(t[1..]));
      }
    }
  }

  lemma SumPhiFirst(v: u16, t: seq<u16>)
    ensures SumPhi([v] + t) == Phi(v) + SumPhi(t)
  {
    assert ([v] + t)[1..] == t;
  }

  lemma {:induction false} SumPhiCompact(s: seq<u16>)
    ensures SumPhi(Compact(s)) == SumPhi(s)
  {
    if s != [] {
      SumPhiCompact(s[1..]);
      SumPhiFirst(s[0], Compact(s[1..]));
    }
  }

  lemma {:induction false} SumPhiPadded(t: seq<u16>, n: nat)
    ensures SumPhi(t + ZeroTiles(n)) == SumPhi(t)
    decreases |t| + n
  {
    var s := t + ZeroTiles(n);
    if t != [] {
      assert s[1..] == t[1..] + ZeroTiles(n);
      SumPhiPadded(t[1..], n);
    } else if n > 0 {
      assert s[1..] == [] + ZeroTiles(n - 1);
      SumPhiPadded([], n - 1);
    }
  }

  lemma LineScores(line: Line)
    requires PowerTiles(line)
    ensures MergeScore(Compact(line)) + SumPhi(line)
      == SumPhi(Collapse(line)) + SURPLUS * Saturated(Compact(line))
  {
    hide Compact, Merge, MergeScore, SumPhi, Saturated, PowerTile;
    CompactKeepsTiles(line);
    CompactFacts(line);
    MergeScores(Compact(line));
    SumPhiCompact(line);
    SumPhiPadded(Merge(Compact(line)), 4 - |Merge(Compact(line))|);
  }

  /** The worth of the tiles on a board. */
  function Worth(b: Board): nat { SumPhi(b) }

  function LinesWorth(b: Board, d: Direction, n: nat): nat
    requires n <= 4
  {
    if n == 0 then 0 else LinesWorth(b, d, n - 1) + SumPhi(LineAt(b, d, n - 1))
  }

  lemma SumPhiOfFour(t: Line)
    ensures SumPhi(t) == Phi(t[0]) + Phi(t[1]) + Phi(t[2]) + Phi(t[3])
  {
    hide Phi;
    assert t[1..][1..] == t[2..] && t[2..][1..] == t[3..] && t[3..][1..] == [];
    assert SumPhi(t[3..]) == Phi(t[3]);
    assert SumPhi(t[2..]) == Phi(t[2]) + Phi(t[3]);
    assert SumPhi(t[1..]) == Phi(t[1]) + SumPhi(t[2..]);
  }

  lemma {:induction false} SumPhiAppend(s: seq<u16>, t: seq<u16>)
    ensures SumPhi(s + t) == SumPhi(s) + SumPhi(t)
  {
    if s == [] {
      assert s + t == t;
    } else {
      assert (s + t)[1..] == s[1..] + t;
      SumPhiAppend(s[1..], t);
    }
  }

  lemma WorthByRows(b: Board)
    ensures Worth(b) == SumPhi(LineAt(b, Left, 0)) + SumPhi(LineAt(b, Left, 1))
      + SumPhi(LineAt(b, Left, 2)) + SumPhi(LineAt(b, Left, 3))
  {
    hide SumPhi;
    var r0: seq<u16>, r1: seq<u16> := LineAt(b, Left, 0), LineAt(b, Left, 1);
    var r2: seq<u16>, r3: seq<u16> := LineAt(b, Left, 2), LineAt(b, Left, 3);
    assert b == r0 + (r1 + (r2 + r3));
    SumPhiAppend(r2, r3);
    SumPhiAppend(r1, r2 + r3);
    SumPhiAppend(r0, r1 + (r2 + r3));
  }

  lemma LinesWorthOfFour(b: Board, d: Direction)
    ensures LinesWorth(b, d, 4) == SumPhi(LineAt(b, d, 0)) + SumPhi(LineAt(b, d, 1))
      + SumPhi(LineAt(b, d, 2)) + SumPhi(LineAt(b, d, 3))
  {
    hide SumPhi, LineAt;
    assert LinesWorth(b, d, 1) == SumPhi(LineAt(b, d, 0));
    assert LinesWorth(b, d, 2) == LinesWorth(b, d, 1) + SumPhi(LineAt(b, d, 1));
    assert LinesWorth(b, d, 3) == LinesWorth(b, d, 2) + SumPhi(LineAt(b, d, 2));
  }

  /** Adding up the board by its lines gives its worth, whichever way the lines run. */
  lemma WorthByLines(b: Board, d: Direction)
    ensures LinesWorth(b, d, 4) == Worth(b)
  {
    hide SumPhi, Phi;
    WorthByRows(b);
    SumPhiOfFour(LineAt(b, Left, 0));
    SumPhiOfFour(LineAt(b, Left, 1));
    SumPhiOfFour(LineAt(b, Left, 2));
    SumPhiOfFour(LineAt(b, Left, 3));
    SumPhiOfFour(LineAt(b, d, 0));
    SumPhiOfFour(LineAt(b, d, 1));
    SumPhiOfFour(LineAt(b, d, 2));
    SumPhiOfFour(LineAt(b, d, 3));
    LinesWorthOfFour(b, d);
  }

  function SaturatedLines(b: Board, d: Direction, n: nat): nat
    requires n <= 4
  {
    if n == 0 then 0 else SaturatedLines(b, d, n - 1) + Saturated(Compact(LineAt(b, d, n - 1)))
  }

  lemma {:induction false} LinesScore(b: Board, d: Direction, n: nat)
    requires n <= 4 && PowerTiles(b)
    ensures Delta(b, d, n) + LinesWorth(b, d, n) == LinesWorth(Moved(b, d), d, n) + SURPLUS * SaturatedLines(b, d, n)
  {
    hide SumPhi, Collapse, Compact, MergeScore, Saturated, PowerTile, Moved, LineAt;
    if n > 0 {
      LinesScore(b, d, n - 1);
      LineOfTiles(b, d, n - 1);
      LineScores(LineAt(b, d, n - 1));
      MovedLine(b, d, n - 1);
    }
  }

  /** A move scores what it adds to the worth of the board. */
  lemma MoveScores(b: Board, d: Direction)
    requires ValidBoard(b)
    ensures Delta(b, d, 4) + Worth(b) == Worth(Moved(b, d)) + SURPLUS * SaturatedLines(b, d, 4)
  {
    hide LinesWorth, SaturatedLines, Delta, Worth, ValidBoard, Moved;
    ValidIsPowerTiles(b);
    LinesScore(b, d, 4);
    WorthByLines(b, d);
    WorthByLines(Moved(b, d), d);
  }

  /** A new tile adds its worth: nothing for a two, four for a four. */
  lemma SpawnWorth(b: Board, c: nat, v: u16)
    requires c < 16 && b[c] == 0 && (v == 2 || v == 4)
    ensures Worth(b[c := v]) == Worth(b) + if v == 4 then 4 else 0
  {
    hide SumPhi;
    SumPhiSplit(b, c);
    SumPhiSplit(b[c := v], c);
    assert b[c := v][..c] == b[..c] && b[c := v][c + 1..] == b[c + 1..];
    assert Phi(2) == 0 && Phi(4) == 4 by { assert Phi(4 / 2) == 0; }
  }

  lemma SumPhiSplit(s: seq<u16>, c: nat)
    requires c < |s|
    ensures SumPhi(s) == SumPhi(s[..c]) + Phi(s[c]) + SumPhi(s[c + 1..])
  {
    assert s == s[..c] + s[c..] && s[c..][1..] == s[c + 1..];
    SumPhiAppend(s[..c], s[c..]);
  }

  /** What has happened in a game: tiles of four that appeared, and merges that saturated. */
  datatype Book = Book(fours: nat, saturated: nat)

  datatype Ledger = Ledger(now: Book, undo: Book)

  function SpawnBook(k: Book, random: bv64): Book {
    k.(fours := k.fours + if SpawnValue(random) == 4 then 1 else 0)
  }

  /** The book of a freshly reset board. */
  function ResetBook(random: bv64): Book {
    SpawnBook(SpawnBook(Book(0, 0), random), AfterSpawn(EMPTY_BOARD, random))
  }

  /** The ledger after an operation; a save comes with the ledger of the game it was saved from. */
  function LedgerAfter(s: State, k: Ledger, e: Event, saved: Ledger): Ledger {
    match e
    case Reset => k.(now := ResetBook(s.random))
    case Move(d) =>
      if s.phase == Lost || Moved(s.board, d) == s.board then k
      else
        Ledger(SpawnBook(k.now.(saturated := k.now.saturated + SaturatedLines(s.board, d, 4)), s.random), k.now)
    case Undo => if s.undoValid then k.(now := k.undo) else k
    case SetBest(_) => k
    case Restore(t) => if Restorable(t) then saved else k
  }

  /** The score is the worth of the board, with the fours that appeared taken off and the surplus
      of saturation added, in 32-bit arithmetic. */
  ghost predicate Accounted(board: Board, score: u32, k: Book) {
    var earned := Worth(board) + SURPLUS * k.saturated - 4 * k.fours;
    earned >= 0 && score == earned % TWO_32
  }

  ghost predicate Balanced(s: State, k: Ledger) {
    && Accounted(s.board, s.score, k.now)
    && (s.undoValid ==> Accounted(s.undo.board, s.undo.score, k.undo))
  }

  lemma WorthOfEmpty()
    ensures Worth(EMPTY_BOARD) == 0
  {
    assert EMPTY_BOARD == [] + ZeroTiles(16);
    SumPhiPadded([], 16);
  }

  lemma ResetIsBalanced(s: State, k: Ledger)
    requires s.random != 0
    ensures Balanced(AfterReset(s), LedgerAfter(s, k, Reset, k))
  {
    hide Worth, AfterSpawn, SpawnCell, SpawnValue, Spawned;
    var one, r := Spawned(EMPTY_BOARD, s.random), AfterSpawn(EMPTY_BOARD, s.random);
    ResetBoard(s.random);
    WorthOfEmpty();
    assert EMPTY_BOARD[0] == 0;
    SpawnWorth(EMPTY_BOARD, SpawnCell(EMPTY_BOARD, s.random), SpawnValue(s.random));
    SpawnWorth(one, SpawnCell(one, r), SpawnValue(r));
  }

  lemma AddModulo(score: int, earned: int, delta: int)
    requires score == earned % TWO_32
    ensures (score + delta) % TWO_32 == (earned + delta) % TWO_32
  {
    var q := earned / TWO_32;
    assert earned + delta == q * TWO_32 + (score + delta);
  }

  lemma MoveIsBalanced(s: State, d: Direction, k: Ledger)
    requires Balanced(s, k) && ValidBoard(s.board)
    ensures Balanced(AfterMove(s, d), LedgerAfter(s, k, Move(d), k))
  {
    hide Worth, Moved, Delta, SaturatedLines, SpawnCell, SpawnValue, PhaseOf, HasGap, AfterSpawn, ValidBoard;
    var next := Moved(s.board, d);
    if s.phase != Lost && next != s.board {
      MoveScores(s.board, d);
      ChangedBoardHasGap(s.board, d);
      SpawnWorth(next, SpawnCell(next, s.random), SpawnValue(s.random));
      AddModulo(s.score, Worth(s.board) + SURPLUS * k.now.saturated - 4 * k.now.fours, Delta(s.board, d, 4));
    }
  }

  /** A run of a game: any operations, restoring any saved state included, as long as a best score that
      is set is allowed. */
  ghost predicate Run(states: seq<State>, events: seq<Event>) {
    && |states| == |events| + 1
    && (exists seed :: states[0] == Start(seed))
    && forall i :: 0 <= i < |events| ==>
      Allowed(states[i], events[i]) && states[i + 1] == After(states[i], events[i])
  }

  /** Every state of every run can be saved and restored. */
  lemma {:induction false} RunStaysRestorable(states: seq<State>, events: seq<Event>, i: nat)
    requires Run(states, events) && i < |states|
    ensures Restorable(states[i])
  {
    hide Start, After, Restorable;
    if i == 0 {
      var seed :| states[0] == Start(seed);
      StartIsRestorable(seed);
    } else {
      RunStaysRestorable(states, events, i - 1);
      RestorableIsInvariant(states[i - 1], events[i - 1]);
    }
  }

  /** A run with its ledgers. What is restored was saved together with a ledger that fits it; `saves`
      holds the one that belongs to each event. */
  ghost predicate AccountedRun(states: seq<State>, ledgers: seq<Ledger>, events: seq<Event>, saves: seq<Ledger>) {
    && Run(states, events) && |ledgers| == |states| && |saves| == |events|
    && (exists seed :: states[0] == Start(seed) && ledgers[0].now == StartBook(seed))
    && forall i :: 0 <= i < |events| ==>
      && (events[i].Restore? && Restorable(events[i].saved) ==> Balanced(events[i].saved, saves[i]))
      && ledgers[i + 1] == LedgerAfter(states[i], ledgers[i], events[i], saves[i])
  }

  function StartBook(seed: bv64): Book { ResetBook(if seed == 0 then 1 else seed) }

  /** At every point of every run the score is accounted for, and so is the score kept for undo. In
      particular every point can be saved with its ledger and resumed in another run. */
  lemma {:induction false} RunKeeps(
    states: seq<State>, ledgers: seq<Ledger>, events: seq<Event>, saves: seq<Ledger>, i: nat)
    requires AccountedRun(states, ledgers, events, saves) && i < |states|
    ensures Restorable(states[i]) && Balanced(states[i], ledgers[i])
  {
    hide Start, After, LedgerAfter, Balanced, Restorable, StartBook;
    RunStaysRestorable(states, events, i);
    if i == 0 {
      var seed :| states[0] == Start(seed) && ledgers[0].now == StartBook(seed);
      StartIsBalanced(seed, ledgers[0]);
    } else {
      RunKeeps(states, ledgers, events, saves, i - 1);
      StepIsBalanced(states[i - 1], ledgers[i - 1], events[i - 1], saves[i - 1]);
    }
  }

  lemma StartIsBalanced(seed: bv64, k: Ledger)
    requires k.now == StartBook(seed)
    ensures Balanced(Start(seed), k)
  {
    hide AfterSpawn, Spawned, Accounted, SpawnBook;
    var random := if seed == 0 then 1 else seed;
    ResetIsBalanced(State(EMPTY_BOARD, 0, 0, Playing, random, Snapshot(EMPTY_BOARD, 0, Playing, 1), false), k);
  }

  lemma StepIsBalanced(s: State, k: Ledger, e: Event, saved: Ledger)
    requires Restorable(s) && Balanced(s, k)
    requires e.Restore? && Restorable(e.saved) ==> Balanced(e.saved, saved)
    ensures Balanced(After(s, e), LedgerAfter(s, k, e, saved))
  {
    hide ValidBoard, Moved, AfterMove, AfterReset, Accounted, PhaseOf;
    match e {
      case Reset => ResetIsBalanced(s, k);
      case Move(d) => MoveIsBalanced(s, d, k);
      case Undo =>
      case SetBest(v) =>
      case Restore(t) =>
    }
  }

  lemma {:induction false} SumPhiBound(t: seq<u16>)
    requires PowerTiles(t)
    ensures SumPhi(t) <= |t| * (14 * 0x8000)
  {
    hide Phi;
    if t != [] {
      SumPhiBound(t[1..]);
      PhiOfTile(t[0]);
    }
  }

  lemma PhiOfTile(v: u16)
    requires PowerTile(v)
    ensures Phi(v) <= 14 * 0x8000
  {
    if v != 0 {
      DoubledTile(v);
      Pow2Of15();
      PhiBound(v, 15);
    }
  }

  lemma SmallModulo(score: int, earned: int)
    requires score == earned % TWO_32 && 0 <= earned < TWO_32
    ensures score == earned
  {
  }

  lemma BookPotential(b: Board, score: u32, k: Book)
    requires ValidBoard(b) && Accounted(b, score, k) && k.saturated == 0
    ensures score + 4 * k.fours == Worth(b) && score <= 16 * 14 * 0x8000
  {
    hide Phi, SumPhi, ValidBoard;
    ValidIsPowerTiles(b);
    SumPhiBound(b);
    SmallModulo(score, Worth(b) - 4 * k.fours);
  }

  /** The score potential: at every point of every run, games resumed from saves included, in which no
      two tiles of 32768 have met, the score and four for every four that appeared add up to the worth
      of the board. So the score stays below 16 * 14 * 32768 and has never wrapped. */
  lemma ScorePotential(
    states: seq<State>, ledgers: seq<Ledger>, events: seq<Event>, saves: seq<Ledger>, i: nat)
    requires AccountedRun(states, ledgers, events, saves) && i < |states| && ledgers[i].now.saturated == 0
    ensures states[i].score + 4 * ledgers[i].now.fours == Worth(states[i].board)
    ensures states[i].score <= 16 * 14 * 0x8000 < TWO_32
  {
    assert |states| == |ledgers|;
    hide AccountedRun, Worth, PhaseOf, ValidBoard, Accounted;
    RunKeeps(states, ledgers, events, saves, i);
    BookPotential(states[i].board, states[i].score, ledgers[i].now);
  }
}
