/** The saved form of a 2048 game: 128 checksummed bytes. */
module GamePersistence {
  import opened Bytes
  import opened Crc
  import opened Game2048Board
  import opened Game2048
  import opened Game2048Runs
  import opened Words

  const WIRE_SIZE: nat := 128
  const MAGIC: seq<byte> := [0x47, 0x32, 0x30, 0x34, 0x38, 0x56, 0x30, 0x31]

  function BoardBytes(b: Board): (s: seq<byte>)
    ensures |s| == 32
  {
    seq(32, i requires 0 <= i < 32 => ByteOf(b[i / 2], i % 2))
  }

  function Pair(lo: byte, hi: byte): u16 { lo + 256 * hi }

  function BoardOf(s: seq<byte>): Board
    requires |s| == 32
  {
    seq(16, i requires 0 <= i < 16 => Pair(s[2 * i], s[2 * i + 1]))
  }

  lemma TwoBytes(v: u16)
    ensures ByteOf(v, 0) == v % 256 && ByteOf(v, 1) == v / 256
    ensures v == ByteOf(v, 0) + 256 * ByteOf(v, 1)
  {
    Widths();
    assert Pow256(0) == 1;
  }

  lemma BytesOfPair(lo: byte, hi: byte)
    ensures ByteOf(lo + 256 * hi, 0) == lo && ByteOf(lo + 256 * hi, 1) == hi
  {
    TwoBytes(lo + 256 * hi);
  }

  lemma BoardIsRead(b: Board)
    ensures BoardOf(BoardBytes(b)) == b
  {
    hide ByteOf;
    forall i | 0 <= i < 16
      ensures BoardOf(BoardBytes(b))[i] == b[i]
    {
      TwoBytes(b[i]);
      assert 2 * i / 2 == i && (2 * i + 1) / 2 == i;
    }
  }

  lemma BoardIsWritten(s: seq<byte>)
    requires |s| == 32
    ensures BoardBytes(BoardOf(s)) == s
  {
    hide ByteOf;
    forall i | 0 <= i < 32
      ensures BoardBytes(BoardOf(s))[i] == s[i]
    {
      assert i == 2 * (i / 2) + i % 2 && 0 <= i / 2 < 16;
      BytesOfPair(s[2 * (i / 2)], s[2 * (i / 2) + 1]);
    }
  }

  function PhaseByte(p: Phase): (b: byte)
    ensures b <= 2
  {
    match p
    case Playing => 0
    case Won => 1
    case Lost => 2
  }

  function PhaseAt(b: byte): Phase
    requires b <= 2
  {
    if b == 0 then Playing else if b == 1 then Won else Lost
  }

  /** The checks of the decoder. */
  predicate Accepted(b: seq<byte>) {
    && |b| == WIRE_SIZE && b[0..8] == MAGIC && FromLe(b[8..10]) == WIRE_SIZE && FromLe(b[10..12]) == 1
    && FromWord32(b[12..16]) == Crc32(b[16..])
    && b[64] <= 2 && b[65] <= 1 && b[66] == 0 && b[67] == 0 && b[112] <= 2 && Zero(b[113..128])
  }

  function Fields(b: seq<byte>): State
    requires |b| == WIRE_SIZE && b[64] <= 2 && b[112] <= 2
  {
    State(BoardOf(b[16..48]), Word(b, 48), Word(b, 52), PhaseAt(b[64]), FromWord64(b[56..64]),
      Snapshot(BoardOf(b[68..100]), Word(b, 100), PhaseAt(b[112]), FromWord64(b[104..112])),
      b[65] == 1)
  }

  function Decode(b: seq<byte>): Option<State> {
    if Accepted(b) then Some(Fields(b)) else None
  }

  ghost predicate HasGame(b: seq<byte>, s: State)
    requires |b| == WIRE_SIZE
  {
    && b[16..48] == BoardBytes(s.board) && b[48..52] == Le(4, s.score) && b[52..56] == Le(4, s.best)
    && b[56..64] == Word64(s.random) && b[64] == PhaseByte(s.phase) && b[65] == if s.undoValid then 1 else 0
  }

  ghost predicate HasUndo(b: seq<byte>, u: Snapshot)
    requires |b| == WIRE_SIZE
  {
    && b[68..100] == BoardBytes(u.board) && b[100..104] == Le(4, u.score)
    && b[104..112] == Word64(u.random) && b[112] == PhaseByte(u.phase)
  }

  ghost predicate HasFrame(b: seq<byte>)
    requires |b| == WIRE_SIZE
  {
    && b[0..8] == MAGIC && b[8..10] == Le(2, WIRE_SIZE) && b[10..12] == Le(2, 1)
    && b[66] == 0 && b[67] == 0 && Zero(b[113..128])
    && b[12..16] == Word32(Crc32(b[16..]))
  }

  /** `b` holds the state, field by field, under a valid checksum. */
  ghost predicate Laid(b: seq<byte>, s: State) {
    |b| == WIRE_SIZE && HasFrame(b) && HasGame(b, s) && HasUndo(b, s.undo)
  }

  lemma FrameIsRead(b: seq<byte>)
    requires |b| == WIRE_SIZE
    ensures HasFrame(b) <==>
      && b[0..8] == MAGIC && FromLe(b[8..10]) == WIRE_SIZE && FromLe(b[10..12]) == 1
      && FromWord32(b[12..16]) == Crc32(b[16..])
      && b[66] == 0 && b[67] == 0 && Zero(b[113..128])
  {
    hide Crc32, Word32, FromWord32;
    Widths();
    LeInverse(2, WIRE_SIZE); LeInverse(2, 1); Word32IsRead(Crc32(b[16..]));
    LeOfFromLe(b[8..10]); LeOfFromLe(b[10..12]); Word32IsWritten(b[12..16]);
  }

  lemma GameIsRead(b: seq<byte>, s: State)
    requires |b| == WIRE_SIZE && b[64] <= 2 && b[65] <= 1 && b[112] <= 2
    ensures HasGame(b, s) <==>
      && BoardOf(b[16..48]) == s.board && Word(b, 48) == s.score && Word(b, 52) == s.best
      && FromWord64(b[56..64]) == s.random && PhaseAt(b[64]) == s.phase && (b[65] == 1) == s.undoValid
  {
    hide Word64, FromWord64, BoardOf, BoardBytes;
    Widths();
    BoardIsRead(s.board); LeInverse(4, s.score); LeInverse(4, s.best); Word64IsRead(s.random);
    BoardIsWritten(b[16..48]); LeOfFromLe(b[48..52]); LeOfFromLe(b[52..56]); Word64IsWritten(b[56..64]);
  }

  lemma UndoIsRead(b: seq<byte>, u: Snapshot)
    requires |b| == WIRE_SIZE && b[64] <= 2 && b[112] <= 2
    ensures HasUndo(b, u) <==>
      && BoardOf(b[68..100]) == u.board && Word(b, 100) == u.score
      && FromWord64(b[104..112]) == u.random && PhaseAt(b[112]) == u.phase
  {
    hide Word64, FromWord64, BoardOf, BoardBytes;
    Widths();
    BoardIsRead(u.board); LeInverse(4, u.score); Word64IsRead(u.random);
    BoardIsWritten(b[68..100]); LeOfFromLe(b[100..104]); Word64IsWritten(b[104..112]);
  }

  /** A byte string decodes to a state exactly when it holds that state. */
  lemma LaidIsRead(b: seq<byte>, s: State)
    ensures Laid(b, s) <==> Decode(b) == Some(s)
  {
    hide HasGame, HasUndo, Word64, FromWord64, Word32, FromWord32, BoardOf, BoardBytes, Crc32, Zero, Word;
    if Laid(b, s) || Accepted(b) {
      FrameIsRead(b);
      if Laid(b, s) {
        SmallBytes(b, s);
      }
      GameIsRead(b, s);
      UndoIsRead(b, s.undo);
    }
  }

  lemma SmallBytes(b: seq<byte>, s: State)
    requires Laid(b, s)
    ensures b[64] <= 2 && b[65] <= 1 && b[112] <= 2
  {
  }

  predicate BoardAt(b: seq<byte>, at: nat, board: Board)
    requires at + 32 <= |b|
  {
    forall i :: 0 <= i < 16 ==> Cell(b, at, i) == board[i]
  }

  /** Cell `i` of the board at an offset: two bytes, the low one first. */
  function Cell(b: seq<byte>, at: nat, i: nat): u16
    requires i < 16 && at + 32 <= |b|
  {
    var (low: int, high: int) := (b[at + 2 * i], b[at + 2 * i + 1]);
    low + 256 * high
  }

  function PhaseCode(p: Phase): byte {
    match p { case Playing => 0 case Won => 1 case Lost => 2 }
  }

  /** A saved game byte for byte: "G2048V01", 128 bytes, version 1, checksum; the game; the game before the last
      move, if it can be taken back. */
  lemma SavedFormat(b: seq<byte>, s: State)
    ensures Decode(b) == Some(s) <==>
      && |b| == 128 && b[..8] == [0x47, 0x32, 0x30, 0x34, 0x38, 0x56, 0x30, 0x31] && b[8..12] == [128, 0, 1, 0]
      && b[12..16] == Word32(Crc32(b[16..]))
      && BoardAt(b, 16, s.board) && b[48..52] == Le(4, s.score) && b[52..56] == Le(4, s.best)
      && b[56..64] == Word64(s.random) && b[64] == PhaseCode(s.phase) && b[65] == (if s.undoValid then 1 else 0)
      && b[66] == 0 && b[67] == 0
      && BoardAt(b, 68, s.undo.board) && b[100..104] == Le(4, s.undo.score)
      && b[104..112] == Word64(s.undo.random) && b[112] == PhaseCode(s.undo.phase) && Zero(b[113..])
  {
    LaidIsRead(b, s);
    if |b| == 128 {
      FrameFormat(b);
      BoardIsThere(b, 16, s.board);
      BoardIsThere(b, 68, s.undo.board);
    }
    hide Word64, Word32, BoardBytes, Crc32, Decode, Le, BoardAt, HasFrame, Zero;
  }

  lemma FrameFormat(b: seq<byte>)
    requires |b| == 128
    ensures HasFrame(b) <==>
      && b[..8] == [0x47, 0x32, 0x30, 0x34, 0x38, 0x56, 0x30, 0x31] && b[8..12] == [128, 0, 1, 0]
      && b[12..16] == Word32(Crc32(b[16..])) && b[66] == 0 && b[67] == 0 && Zero(b[113..])
  {
    LeBytes(128);
    LeBytes(1);
    hide Word32, Crc32, Le, Zero;
    assert Le(2, 128) == [128, 0] && Le(2, 1) == [1, 0] && [128, 0, 1, 0] == [128, 0] + [1, 0];
    assert b[8..12] == b[8..10] + b[10..12] && b[113..] == b[113..128];
    TwoParts(b[8..10], b[10..12], [128, 0], [1, 0]);
  }

  lemma BoardIsThere(b: seq<byte>, at: nat, board: Board)
    requires at + 32 <= |b|
    ensures b[at..at + 32] == BoardBytes(board) <==> BoardAt(b, at, board)
  {
    hide BoardBytes;
    var part := b[at..at + 32];
    BoardIsRead(board);
    BoardIsWritten(part);
    forall i | 0 <= i < 16
      ensures BoardOf(part)[i] == Cell(b, at, i)
    {
      assert part[2 * i] == b[at + 2 * i] && part[2 * i + 1] == b[at + 2 * i + 1];
    }
    assert BoardOf(part) == board <==> BoardAt(b, at, board);
  }

  /** Only one byte string holds a given state. */
  lemma LaidUnique(a: seq<byte>, b: seq<byte>, s: State)
    requires Laid(a, s) && Laid(b, s)
    ensures a == b
  {
    hide Word64, Word32, BoardBytes, Crc32;
    var p, q := a[16..], b[16..];
    assert p == q by {
      assert a[65..66] == [a[65]] && b[65..66] == [b[65]] && a[64..65] == [a[64]] && b[64..65] == [b[64]];
      assert a[66..68] == [a[66], a[67]] && b[66..68] == [b[66], b[67]] && a[112..113] == [a[112]] && b[112..113] == [b[112]];
      assert a[113..128] == b[113..128];
      JoinBody(a);
      JoinBody(b);
    }
    assert a == a[0..8] + a[8..10] + a[10..12] + a[12..16] + p;
    assert b == b[0..8] + b[8..10] + b[10..12] + b[12..16] + q;
  }

  lemma JoinBody(a: seq<byte>)
    requires |a| == WIRE_SIZE
    ensures a[16..] == a[16..48] + a[48..52] + a[52..56] + a[56..64] + a[64..65] + a[65..66] + a[66..68]
      + a[68..100] + a[100..104] + a[104..112] + a[112..113] + a[113..128]
  {
  }

  lemma BoardPair(board: Board, index: nat)
    requires index < 16
    ensures Le(2, board[index]) == [BoardBytes(board)[2 * index], BoardBytes(board)[2 * index + 1]]
  {
    assert 2 * index / 2 == index && (2 * index + 1) / 2 == index;
  }

  method PutBoard(board: Board, output: array<byte>, at: nat)
    requires at + 32 <= output.Length
    modifies output
    ensures output[at..at + 32] == BoardBytes(board)
    ensures forall i :: 0 <= i < output.Length && !(at <= i < at + 32) ==> output[i] == old(output[i])
  {
    hide BoardBytes, ByteOf;
    for index := 0 to 16
      invariant forall k :: 0 <= k < 2 * index ==> output[at + k] == BoardBytes(board)[k]
      invariant forall i :: 0 <= i < output.Length && !(at <= i < at + 2 * index) ==> output[i] == old(output[i])
    {
      PutLe(board[index], output, at + 2 * index, 2);
      ghost var pair := output[at + 2 * index..at + 2 * index + 2];
      BoardPair(board, index);
      assert output[at + 2 * index] == pair[0] && output[at + 2 * index + 1] == pair[1];
    }
  }

  method GetBoard(b: seq<byte>, at: nat) returns (board: Board)
    requires at + 32 <= |b|
    ensures board == BoardOf(b[at..at + 32])
  {
    var tiles: seq<u16> := [];
    for index := 0 to 16
      invariant |tiles| == index
      invariant forall k :: 0 <= k < index ==> tiles[k] == BoardOf(b[at..at + 32])[k]
    {
      tiles := tiles + [Pair(b[at + 2 * index], b[at + 2 * index + 1])];
    }
    board := tiles;
  }

  method PutGame(s: State, output: array<byte>)
    requires output.Length == WIRE_SIZE
    modifies output
    ensures HasGame(output[..], s)
    ensures forall i :: 0 <= i < WIRE_SIZE && !(16 <= i < 66) ==> output[i] == old(output[i])
  {
    hide BoardBytes, Word64;
    PutBoard(s.board, output, 16);
    PutLe(s.score, output, 48, 4);
    PutLe(s.best, output, 52, 4);
    PutBytes(Word64(s.random), output, 56);
    output[64] := PhaseByte(s.phase);
    output[65] := if s.undoValid then 1 else 0;
    assert output[..][16..48] == output[16..48] && output[..][48..52] == output[48..52];
    assert output[..][52..56] == output[52..56] && output[..][56..64] == output[56..64];
  }

  method PutUndo(u: Snapshot, output: array<byte>)
    requires output.Length == WIRE_SIZE
    modifies output
    ensures HasUndo(output[..], u)
    ensures forall i :: 0 <= i < WIRE_SIZE && !(68 <= i < 113) ==> output[i] == old(output[i])
  {
    hide BoardBytes, Word64;
    PutBoard(u.board, output, 68);
    PutLe(u.score, output, 100, 4);
    PutBytes(Word64(u.random), output, 104);
    output[112] := PhaseByte(u.phase);
    assert output[..][68..100] == output[68..100] && output[..][100..104] == output[100..104];
    assert output[..][104..112] == output[104..112];
  }

  method PutHead(output: array<byte>)
    requires output.Length == WIRE_SIZE && output[66] == 0 && output[67] == 0
    requires forall i :: 113 <= i < WIRE_SIZE ==> output[i] == 0
    modifies output
    ensures HasFrame(output[..])
    ensures forall i :: 16 <= i < WIRE_SIZE ==> output[i] == old(output[i])
  {
    hide Crc32, Word32;
    PutBytes(MAGIC, output, 0);
    PutLe(WIRE_SIZE, output, 8, 2);
    PutLe(1, output, 10, 2);
    var crc := ComputeCrc(output[16..]);
    ghost var covered := output[16..];
    PutBytes(Word32(crc), output, 12);
    assert output[..][0..8] == output[0..8] && output[..][8..10] == output[8..10];
    assert output[..][10..12] == output[10..12] && output[..][12..16] == output[12..16];
    assert output[..][16..] == covered;
  }

  lemma HasGameKept(a: seq<byte>, b: seq<byte>, s: State)
    requires |a| == |b| == WIRE_SIZE && HasGame(a, s) && forall i :: 16 <= i < 66 ==> a[i] == b[i]
    ensures HasGame(b, s)
  {
    hide BoardBytes, Word64;
    SamePart(a, b, 16, 48); SamePart(a, b, 48, 52); SamePart(a, b, 52, 56); SamePart(a, b, 56, 64);
  }

  lemma HasUndoKept(a: seq<byte>, b: seq<byte>, u: Snapshot)
    requires |a| == |b| == WIRE_SIZE && HasUndo(a, u) && forall i :: 68 <= i < 113 ==> a[i] == b[i]
    ensures HasUndo(b, u)
  {
    hide BoardBytes, Word64;
    SamePart(a, b, 68, 100); SamePart(a, b, 100, 104); SamePart(a, b, 104, 112);
  }

  /** Writes the record; the checksum over everything behind it comes last. The result is the one
      byte string that decodes to the state. */
  method EncodeGameState(s: State) returns (r: seq<byte>)
    ensures |r| == WIRE_SIZE
    ensures forall b :: Decode(b) == Some(s) <==> b == r
  {
    hide Decode, HasGame, HasUndo, HasFrame;
    var output := new byte[WIRE_SIZE](_ => 0);
    PutGame(s, output);
    ghost var one := output[..];
    PutUndo(s.undo, output);
    ghost var two := output[..];
    PutHead(output);
    r := output[..];
    HasGameKept(one, r, s);
    HasUndoKept(two, r, s.undo);
    OnlyOneIsRead(r, s);
  }

  lemma OnlyOneIsRead(r: seq<byte>, s: State)
    requires Laid(r, s)
    ensures forall b :: Decode(b) == Some(s) <==> b == r
  {
    hide Decode, Laid;
    LaidIsRead(r, s);
    forall b | Decode(b) == Some(s)
      ensures b == r
    {
      LaidIsRead(b, s);
      LaidUnique(b, r, s);
    }
  }

  method DecodeGameState(b: seq<byte>) returns (r: Option<State>)
    ensures r == Decode(b)
  {
    hide Crc32, FromWord64, FromWord32, BoardOf;
    if |b| != WIRE_SIZE || b[0..8] != MAGIC {
      return None;
    }
    var size := GetLe(b, 8, 2);
    var version := GetLe(b, 10, 2);
    var crc := ComputeCrc(b[16..]);
    if size != WIRE_SIZE || version != 1 || FromWord32(b[12..16]) != crc || b[64] > 2 || b[65] > 1
       || b[66] != 0 || b[67] != 0 || b[112] > 2 {
      return None;
    }
    for i := 113 to 128
      invariant forall k :: 113 <= k < i ==> b[k] == 0
    {
      if b[i] != 0 {
        assert b[113..128][i - 113] != 0;
        return None;
      }
    }
    assert Accepted(b);
    var board := GetBoard(b, 16);
    var undoBoard := GetBoard(b, 68);
    r := Some(State(board, Word(b, 48), Word(b, 52), PhaseAt(b[64]), FromWord64(b[56..64]),
      Snapshot(undoBoard, Word(b, 100), PhaseAt(b[112]), FromWord64(b[104..112])), b[65] == 1));
  }

  /** Loading a save: decode it, then let the game refuse what is not restorable. */
  method LoadGameState(bytes: seq<byte>, game: Game) returns (ok: bool)
    modifies game
    ensures ok == (Decode(bytes).Some? && Restorable(Decode(bytes).value))
    ensures game.Persistent() == if ok then Decode(bytes).value else old(game.Persistent())
  {
    hide Decode, Restorable;
    var decoded := DecodeGameState(bytes);
    if decoded.None? {
      return false;
    }
    ok := game.Restore(decoded.value);
  }

  /** Every game survives being saved: at any point of any run, one resumed from earlier saves included,
      whatever decodes to its state restores it unchanged into any other game. */
  lemma SavedGameIsRestored(states: seq<State>, events: seq<Event>, i: nat, bytes: seq<byte>, other: State)
    requires Run(states, events) && i < |states| && Decode(bytes) == Some(states[i])
    ensures Restorable(Decode(bytes).value) && After(other, Restore(Decode(bytes).value)) == states[i]
  {
    hide Run, Decode, Restorable, After;
    RunStaysRestorable(states, events, i);
    RestoredAnywhere(other, states[i]);
  }

  lemma RestoredAnywhere(s: State, t: State)
    requires Restorable(t)
    ensures After(s, Restore(t)) == t
  {
    hide Restorable;
  }

  /** Damage to a single byte of a save never goes unnoticed, wherever it strikes. */
  lemma OneDamagedByteIsRefused(b: seq<byte>, c: seq<byte>, k: nat)
    requires Accepted(b) && |c| == |b| && k < |b| && b[k] != c[k]
    requires forall i :: 0 <= i < |b| && i != k ==> b[i] == c[i]
    ensures !Accepted(c)
  {
    hide CrcFrom, FromWord32, Word32;
    if k < 12 {
      FrameDamage(b, c, k);
    } else if k < 16 {
      CrcDamage(b, c, k);
    } else {
      assert b[12..16] == c[12..16];
      CrcSeesOneByte(b[16..], c[16..], 0xffffffff, k - 16);
      XorApart(CrcFrom(0xffffffff, b[16..]), CrcFrom(0xffffffff, c[16..]));
    }
  }

  lemma XorApart(v: bv32, w: bv32)
    requires v != w
    ensures v ^ 0xffffffff != w ^ 0xffffffff
  {
  }

  lemma FrameDamage(b: seq<byte>, c: seq<byte>, k: nat)
    requires Accepted(b) && |c| == |b| && k < 12 && b[k] != c[k]
    ensures !Accepted(c)
  {
    LeOfFromLe(b[8..10]); LeOfFromLe(b[10..12]);
    LeOfFromLe(c[8..10]); LeOfFromLe(c[10..12]);
    var at, end := if k < 8 then 0 else if k < 10 then 8 else 10, if k < 8 then 8 else if k < 10 then 10 else 12;
    assert b[at..end][k - at] != c[at..end][k - at];
  }

  lemma CrcDamage(b: seq<byte>, c: seq<byte>, k: nat)
    requires Accepted(b) && |c| == |b| && 12 <= k < 16 && b[k] != c[k] && b[16..] == c[16..]
    ensures !Accepted(c)
  {
    hide Crc32, FromWord32, Word32;
    Word32IsWritten(b[12..16]);
    Word32IsWritten(c[12..16]);
    assert b[12..16][k - 12] != c[12..16][k - 12];
  }
}
