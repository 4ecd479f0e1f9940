/** Touch frames: their 56 bytes, how fresh they must be, and the two guards. */
module TouchProtocol {
  import opened Bytes

  const MAGIC: nat := 0x4C565450
  const VERSION: nat := 1
  const WIRE_SIZE: nat := 56
  const MAX_CONTACT: nat := 31
  const MAXIMUM_AGE: nat := 2000000
  const MAXIMUM_FUTURE: nat := 100000

  const START: u32 := 1
  const MOVE: u32 := 2
  const END: u32 := 3
  const CANCEL: u32 := 4

  datatype Frame = Frame(
    nonce: u64, sequence: u64, time: u64, phase: u32, contact: u32, x: i32, y: i32, flags: u32)

  datatype Error = FrameInvalid | SessionMismatch | SequenceReplayed | TimestampStale | ContactInvalid

  /** A signed integer as its two's complement, and back. */
  function Unsigned(x: i32): u32 { if x < 0 then x + 0x1_0000_0000 else x }
  function Signed(u: u32): i32 { if u < 0x8000_0000 then u else u - 0x1_0000_0000 }

  predicate ValidFrame(f: Frame, width: i32, height: i32) {
    && f.nonce != 0 && f.sequence != 0 && f.time != 0
    && START <= f.phase <= CANCEL && f.contact <= MAX_CONTACT && width > 0
    && height > 0 && f.x >= 0 && f.y >= 0 && f.x < width && f.y < height
    && f.flags == 0
  }

  predicate Fresh(f: Frame, now: u64) {
    if f.time == 0 || now == 0 then false
    else if f.time > now then f.time - now <= MAXIMUM_FUTURE
    else now - f.time <= MAXIMUM_AGE
  }

  function FirstHalf(f: Frame): (r: seq<byte>)
    ensures |r| == 32
  {
    Le(4, MAGIC) + Le(2, VERSION) + Le(2, WIRE_SIZE) + Le(8, f.nonce) + Le(8, f.sequence) + Le(8, f.time)
  }

  function SecondHalf(f: Frame): (r: seq<byte>)
    ensures |r| == 24
  {
    Le(4, f.phase) + Le(4, f.contact) + Le(4, Unsigned(f.x)) + Le(4, Unsigned(f.y)) + Le(4, f.flags) + Le(4, 0)
  }

  /** The bytes of a frame. */
  function Encoded(f: Frame): (r: seq<byte>)
    ensures |r| == WIRE_SIZE
  {
    FirstHalf(f) + SecondHalf(f)
  }

  predicate LayoutOk(b: seq<byte>) {
    && |b| == WIRE_SIZE && Word(b, 0) == MAGIC && Half(b, 4) == VERSION
    && Half(b, 6) == WIRE_SIZE && Word(b, 52) == 0
  }

  function FieldsOf(b: seq<byte>): Frame
    requires |b| == WIRE_SIZE
  {
    Frame(Long(b, 8), Long(b, 16), Long(b, 24), Word(b, 32), Word(b, 36), Signed(Word(b, 40)), Signed(Word(b, 44)),
      Word(b, 48))
  }

  /** The frame a caller sees whatever the answer: filled in as soon as the layout is right. */
  const NO_FRAME: Frame := Frame(0, 0, 0, CANCEL, 0, 0, 0, 0)

  function SeenFrame(b: seq<byte>): Frame { if LayoutOk(b) then FieldsOf(b) else NO_FRAME }

  function Decode(b: seq<byte>, width: i32, height: i32): Option<Frame> {
    if !LayoutOk(b) then None
    else if !ValidFrame(FieldsOf(b), width, height) then None
    else Some(FieldsOf(b))
  }

  ghost predicate HasFirst(b: seq<byte>, f: Frame)
    requires |b| == WIRE_SIZE
  {
    && b[0..4] == Le(4, MAGIC) && b[4..6] == Le(2, VERSION) && b[6..8] == Le(2, WIRE_SIZE)
    && b[8..16] == Le(8, f.nonce) && b[16..24] == Le(8, f.sequence) && b[24..32] == Le(8, f.time)
  }

  ghost predicate HasSecond(b: seq<byte>, f: Frame)
    requires |b| == WIRE_SIZE
  {
    && b[32..36] == Le(4, f.phase) && b[36..40] == Le(4, f.contact)
    && b[40..44] == Le(4, Unsigned(f.x)) && b[44..48] == Le(4, Unsigned(f.y))
    && b[48..52] == Le(4, f.flags) && b[52..56] == Le(4, 0)
  }

  lemma FirstIsPrefix(b: seq<byte>, f: Frame)
    requires |b| == WIRE_SIZE
    ensures HasFirst(b, f) <==> b[..32] == FirstHalf(f)
  {
    assert b[..32] == b[0..4] + b[4..6] + b[6..8] + b[8..16] + b[16..24] + b[24..32];
    SixParts(b[0..4], b[4..6], b[6..8], b[8..16], b[16..24], b[24..32],
      Le(4, MAGIC), Le(2, VERSION), Le(2, WIRE_SIZE), Le(8, f.nonce), Le(8, f.sequence), Le(8, f.time));
  }

  lemma SecondIsSuffix(b: seq<byte>, f: Frame)
    requires |b| == WIRE_SIZE
    ensures HasSecond(b, f) <==> b[32..] == SecondHalf(f)
  {
    assert b[32..] == b[32..36] + b[36..40] + b[40..44] + b[44..48] + b[48..52] + b[52..56];
    SixParts(b[32..36], b[36..40], b[40..44], b[44..48], b[48..52], b[52..56],
      Le(4, f.phase), Le(4, f.contact), Le(4, Unsigned(f.x)), Le(4, Unsigned(f.y)), Le(4, f.flags), Le(4, 0));
  }

  lemma FirstIsRead(b: seq<byte>, f: Frame)
    requires |b| == WIRE_SIZE
    ensures HasFirst(b, f) <==>
      && Word(b, 0) == MAGIC && Half(b, 4) == VERSION && Half(b, 6) == WIRE_SIZE
      && Long(b, 8) == f.nonce && Long(b, 16) == f.sequence && Long(b, 24) == f.time
  {
    hide Word, Half, Long;
    WordIsRead(b, 0, MAGIC); HalfIsRead(b, 4, VERSION); HalfIsRead(b, 6, WIRE_SIZE);
    LongIsRead(b, 8, f.nonce); LongIsRead(b, 16, f.sequence); LongIsRead(b, 24, f.time);
  }

  lemma SecondIsRead(b: seq<byte>, f: Frame)
    requires |b| == WIRE_SIZE
    ensures HasSecond(b, f) <==>
      && Word(b, 32) == f.phase && Word(b, 36) == f.contact && Signed(Word(b, 40)) == f.x
      && Signed(Word(b, 44)) == f.y && Word(b, 48) == f.flags && Word(b, 52) == 0
  {
    hide Word;
    WordIsRead(b, 32, f.phase); WordIsRead(b, 36, f.contact); WordIsRead(b, 40, Unsigned(f.x));
    WordIsRead(b, 44, Unsigned(f.y)); WordIsRead(b, 48, f.flags); WordIsRead(b, 52, 0);
  }

  /** The frame codec is a bijection between valid frames and accepted datagrams. */
  lemma FrameIsBijection(b: seq<byte>, f: Frame, width: i32, height: i32)
    ensures Decode(b, width, height) == Some(f) <==> ValidFrame(f, width, height) && b == Encoded(f)
  {
    hide ValidFrame, FirstHalf, SecondHalf, Word, Half, Long, Signed;
    if |b| == WIRE_SIZE {
      FirstIsPrefix(b, f);
      SecondIsSuffix(b, f);
      FirstIsRead(b, f);
      SecondIsRead(b, f);
      assert b == b[..32] + b[32..];
      assert b == Encoded(f) <==> b[..32] == FirstHalf(f) && b[32..] == SecondHalf(f) by {
        if b == Encoded(f) {
          assert Encoded(f)[..32] == FirstHalf(f) && Encoded(f)[32..] == SecondHalf(f);
        }
      }
    }
  }

  /** The first three and the three 64-bit fields of a frame buffer. */
  method PutFirst(f: Frame, output: array<byte>)
    requires output.Length == WIRE_SIZE
    modifies output
    ensures output[..32] == FirstHalf(f)
    ensures forall i :: 32 <= i < WIRE_SIZE ==> output[i] == old(output[i])
  {
    PutLe(MAGIC, output, 0, 4);
    PutLe(VERSION, output, 4, 2);
    PutLe(WIRE_SIZE, output, 6, 2);
    PutLe(f.nonce, output, 8, 8);
    PutLe(f.sequence, output, 16, 8);
    PutLe(f.time, output, 24, 8);
    ghost var b := output[..];
    assert output[0..4] == b[0..4] && output[4..6] == b[4..6] && output[6..8] == b[6..8];
    assert output[8..16] == b[8..16] && output[16..24] == b[16..24] && output[24..32] == b[24..32];
    FirstIsPrefix(b, f);
    assert output[..32] == b[..32];
  }

  method PutSecond(f: Frame, output: array<byte>)
    requires output.Length == WIRE_SIZE
    modifies output
    ensures output[32..] == SecondHalf(f)
    ensures forall i :: 0 <= i < 32 ==> output[i] == old(output[i])
  {
    PutLe(f.phase, output, 32, 4);
    PutLe(f.contact, output, 36, 4);
    PutLe(Unsigned(f.x), output, 40, 4);
    PutLe(Unsigned(f.y), output, 44, 4);
    PutLe(f.flags, output, 48, 4);
    PutLe(0, output, 52, 4);
    ghost var b := output[..];
    assert output[32..36] == b[32..36] && output[36..40] == b[36..40] && output[40..44] == b[40..44];
    assert output[44..48] == b[44..48] && output[48..52] == b[48..52] && output[52..56] == b[52..56];
    SecondIsSuffix(b, f);
    assert output[32..] == b[32..];
  }

  method EncodeTouchFrame(f: Frame) returns (r: seq<byte>)
    ensures r == Encoded(f)
  {
    hide FirstHalf, SecondHalf;
    var output := new byte[WIRE_SIZE](_ => 0);
    PutFirst(f, output);
    ghost var first := output[..32];
    PutSecond(f, output);
    r := output[..];
    assert output[..32] == first;
    assert r == output[..32] + output[32..];
  }

  method DecodeTouchFrame(b: seq<byte>, width: i32, height: i32) returns (frame: Frame, ok: bool)
    ensures frame == SeenFrame(b) && ok == Decode(b, width, height).Some?
    ensures ok ==> Decode(b, width, height) == Some(frame)
  {
    hide ValidFrame;
    frame := NO_FRAME;
    if |b| != WIRE_SIZE {
      return frame, false;
    }
    var magic := GetLe(b, 0, 4);
    var version := GetLe(b, 4, 2);
    var size := GetLe(b, 6, 2);
    var zero := GetLe(b, 52, 4);
    if magic != MAGIC || version != VERSION || size != WIRE_SIZE || zero != 0 {
      return frame, false;
    }
    frame := FieldsOf(b);
    ok := ValidFrame(frame, width, height);
  }

  /** The bit that stands for a contact: one, shifted left that many times. */
  function Mask(contact: nat): bv32 { if contact == 0 then 1 else Mask(contact - 1) << 1 }

  /** Whether the mask holds a contact. */
  predicate Active(active: bv32, contact: nat) { Meets(active, Mask(contact)) }

  predicate Meets(active: bv32, mask: bv32) { active & mask != 0 }
  function Set(active: bv32, mask: bv32): bv32 { active | mask }
  function Clear(active: bv32, mask: bv32): bv32 { active & !mask }

  lemma {:induction false} MaskGone(contact: nat, later: nat)
    requires contact <= later && Mask(contact) == 0
    ensures Mask(later) == 0
  {
    if contact < later {
      MaskGone(contact, later - 1);
    }
  }

  lemma MaskOf31()
    ensures Mask(31) == 0x8000_0000
  {
    assert Mask(5) == 0x20;
    assert Mask(10) == 0x400;
    assert Mask(15) == 0x8000;
    assert Mask(20) == 0x10_0000;
    assert Mask(25) == 0x200_0000;
    assert Mask(28) == 0x1000_0000;
  }

  lemma MaskNotZero(contact: nat)
    requires contact <= MAX_CONTACT
    ensures Mask(contact) != 0
  {
    MaskOf31();
    if Mask(contact) == 0 {
      MaskGone(contact, 31);
      assert false;
    }
  }

  lemma ShiftedApart(m: bv32, n: bv32)
    requires m & n == 0
    ensures (m << 1) & (n << 1) == 0
  {
  }

  lemma ShiftedFromOne(m: bv32)
    ensures (m << 1) & 1 == 0
  {
  }

  lemma {:induction false} MasksApart(c: nat, d: nat)
    requires c < d
    ensures Mask(c) & Mask(d) == 0
  {
    if c == 0 {
      ShiftedFromOne(Mask(d - 1));
    } else {
      MasksApart(c - 1, d - 1);
      ShiftedApart(Mask(c - 1), Mask(d - 1));
    }
  }

  lemma OtherBitSame(active: bv32, m: bv32, n: bv32)
    requires m & n == 0
    ensures Set(active, m) & n == active & n && Clear(active, m) & n == active & n
  {
  }

  lemma OtherBit(active: bv32, m: bv32, n: bv32)
    requires m & n == 0
    ensures Meets(Set(active, m), n) <==> Meets(active, n)
    ensures Meets(Clear(active, m), n) <==> Meets(active, n)
  {
    hide Set, Clear;
    OtherBitSame(active, m, n);
  }

  lemma OwnBit(active: bv32, m: bv32)
    requires m != 0
    ensures Meets(Set(active, m), m) && !Meets(Clear(active, m), m)
  {
  }

  /** Setting or clearing the bit of one contact does that and leaves all others alone. */
  lemma BitsAreIndependent(active: bv32, c: nat, d: nat)
    requires c <= MAX_CONTACT && d <= MAX_CONTACT
    ensures Active(Set(active, Mask(c)), d) <==> c == d || Active(active, d)
    ensures Active(Clear(active, Mask(c)), d) <==> c != d && Active(active, d)
  {
    hide Mask, Meets, Set, Clear;
    if c == d {
      MaskNotZero(c);
      OwnBit(active, Mask(c));
    } else {
      MasksAnyOrder(c, d);
      OtherBit(active, Mask(c), Mask(d));
    }
  }

  lemma MasksAnyOrder(c: nat, d: nat)
    requires c != d
    ensures Mask(c) & Mask(d) == 0
  {
    hide Mask;
    if c < d {
      MasksApart(c, d);
    } else {
      MasksApart(d, c);
      AndCommutes(Mask(c), Mask(d));
    }
  }

  lemma AndCommutes(m: bv32, n: bv32)
    ensures m & n == n & m
  {
  }

  datatype Sequence = Sequence(nonce: u64, last: u64)

  function SequenceError(s: Sequence, f: Frame): Option<Error> {
    if s.nonce == 0 || f.nonce != s.nonce then Some(SessionMismatch)
    else if f.sequence <= s.last then Some(SequenceReplayed)
    else None
  }

  function AfterSequence(s: Sequence, f: Frame): Sequence {
    if SequenceError(s, f).None? then s.(last := f.sequence) else s
  }

  function ContactError(active: bv32, f: Frame): Option<Error> {
    if f.contact > MAX_CONTACT then Some(ContactInvalid)
    else if f.phase == START && !Active(active, f.contact) then None
    else if MOVE <= f.phase <= CANCEL && Active(active, f.contact) then None
    else Some(ContactInvalid)
  }

  function AfterContact(active: bv32, f: Frame): bv32 {
    if ContactError(active, f).Some? then active
    else if f.phase == START then Set(active, Mask(f.contact))
    else if f.phase == MOVE then active
    else Clear(active, Mask(f.contact))
  }

  /** Refuses frames of another session and frames that are not newer than the last one. */
  class SequenceGuard {
    var nonce: u64
    var last: u64

    function State(): Sequence
      reads this
    {
      Sequence(nonce, last)
    }

    constructor (session: u64)
      ensures State() == Sequence(session, 0)
    {
      nonce, last := session, 0;
    }

    method Reset(session: u64)
      modifies this
      ensures State() == Sequence(session, 0)
    {
      nonce := session;
      last := 0;
    }

    method Accept(f: Frame) returns (error: Option<Error>)
      modifies this
      ensures error == SequenceError(old(State()), f) && State() == AfterSequence(old(State()), f)
    {
      if nonce == 0 || f.nonce != nonce {
        return Some(SessionMismatch);
      }
      if f.sequence <= last {
        return Some(SequenceReplayed);
      }
      last := f.sequence;
      error := None;
    }
  }

  /** Keeps one bit for every contact that is down. */
  class ContactGuard {
    var active: bv32

    constructor ()
      ensures active == 0
    {
      active := 0;
    }

    method Reset()
      modifies this
      ensures active == 0
    {
      active := 0;
    }

    method Accept(f: Frame) returns (error: Option<Error>)
      modifies this
      ensures error == ContactError(old(active), f) && active == AfterContact(old(active), f)
    {
      hide Mask, Meets, Set, Clear;
      if f.contact > MAX_CONTACT {
        return Some(ContactInvalid);
      }
      var mask := Mask(f.contact);
      var isActive := Meets(active, mask);
      if f.phase == START {
        if isActive {
          return Some(ContactInvalid);
        }
        active := Set(active, mask);
        return None;
      } else if f.phase == MOVE {
        return if isActive then None else Some(ContactInvalid);
      } else if f.phase == END || f.phase == CANCEL {
        if !isActive {
          return Some(ContactInvalid);
        }
        active := Clear(active, mask);
        return None;
      }
      error := Some(ContactInvalid);
    }
  }
}
