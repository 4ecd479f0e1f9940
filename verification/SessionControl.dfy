/** Session control messages: 128 bytes with a command and, for a launch, an application. */
module SessionControl {
  import opened Bytes
  import opened Text

  const MAGIC: u32 := 0x4c565343
  const VERSION: u16 := 1
  const SIZE: nat := 128
  const APP_ID_SIZE: nat := 96

  const READY: u32 := 1
  const EXIT_SESSION: u32 := 2
  const LAUNCH_APPLICATION: u32 := 3
  const HOME: u32 := 4

  datatype Message = Message(command: u32, result: u32, appId: seq<byte>)

  predicate KnownCommand(c: u32) { READY <= c <= HOME }

  /** The messages that can be sent: a known command, no result, and an application exactly for a launch. */
  predicate ValidMessage(m: Message) {
    && KnownCommand(m.command) && m.result == 0
    && (if m.command == LAUNCH_APPLICATION then SessionAppId(m.appId) else m.appId == [])
  }

  /** The application the encoder writes: none unless it is a launch of a valid one. */
  function Carried(m: Message): (s: seq<byte>)
    ensures |s| < APP_ID_SIZE
  {
    if m.command == LAUNCH_APPLICATION && SessionAppId(m.appId) then m.appId else []
  }

  function Packet(command: u32, result: u32, appId: seq<byte>): (r: seq<byte>)
    requires |appId| < APP_ID_SIZE
    ensures |r| == SIZE
  {
    Le(4, MAGIC) + Le(2, VERSION) + Le(2, SIZE) + Le(4, command) + Le(4, result) + Le(2, |appId|) + Le(2, 0)
    + (appId + Zeros(108 - |appId|))
  }

  function Encoded(m: Message): (r: seq<byte>)
    ensures |r| == SIZE
  {
    Packet(m.command, m.result, Carried(m))
  }

  predicate LayoutOk(b: seq<byte>) {
    && |b| == SIZE && Word(b, 0) == MAGIC && Half(b, 4) == VERSION && Half(b, 6) == SIZE
    && Half(b, 18) == 0 && Half(b, 16) < APP_ID_SIZE && Zero(b[20 + Half(b, 16)..128])
  }

  function Decode(b: seq<byte>): Option<Message> {
    if !LayoutOk(b) then None
    else
      var (command, appId) := (Word(b, 8), b[20..20 + Half(b, 16)]);
      if !KnownCommand(command) || Word(b, 12) != 0 then None
      else if (command == LAUNCH_APPLICATION) != (appId != []) || (appId != [] && !SessionAppId(appId)) then None
      else Some(Message(command, Word(b, 12), appId))
  }

  lemma PacketIsRead(b: seq<byte>, command: u32, result: u32, appId: seq<byte>)
    requires |b| == SIZE && |appId| < APP_ID_SIZE
    ensures b == Packet(command, result, appId) <==>
      && Word(b, 0) == MAGIC && Half(b, 4) == VERSION && Half(b, 6) == SIZE && Word(b, 8) == command
      && Word(b, 12) == result && Half(b, 16) == |appId| && Half(b, 18) == 0
      && b[20..20 + |appId|] == appId && Zero(b[20 + |appId|..128])
  {
    hide Word, Half, Zero;
    assert b == b[0..4] + b[4..6] + b[6..8] + b[8..12] + b[12..16] + b[16..18] + b[18..20] + b[20..128];
    EightParts(b[0..4], b[4..6], b[6..8], b[8..12], b[12..16], b[16..18], b[18..20], b[20..128],
      Le(4, MAGIC), Le(2, VERSION), Le(2, SIZE), Le(4, command), Le(4, result), Le(2, |appId|), Le(2, 0),
      appId + Zeros(108 - |appId|));
    WordIsRead(b, 0, MAGIC); HalfIsRead(b, 4, VERSION); HalfIsRead(b, 6, SIZE); WordIsRead(b, 8, command);
    WordIsRead(b, 12, result); HalfIsRead(b, 16, |appId|); HalfIsRead(b, 18, 0);
    PaddedIsRead(b, 20, 108, appId);
  }

  lemma AppIdSize(s: seq<byte>)
    requires SessionAppId(s)
    ensures 0 < |s| < APP_ID_SIZE
  {
  }

  /** Valid messages and accepted byte strings correspond one to one. */
  lemma MessageIsBijection(b: seq<byte>, m: Message)
    ensures Decode(b) == Some(m) <==> ValidMessage(m) && b == Encoded(m)
  {
    hide Word, Half, Packet, Zero, SessionAppId;
    if ValidMessage(m) && b == Encoded(m) {
      if m.command == LAUNCH_APPLICATION {
        AppIdSize(m.appId);
      }
      PacketIsRead(b, m.command, m.result, m.appId);
    }
    if Decode(b) == Some(m) {
      PacketIsRead(b, m.command, m.result, m.appId);
    }
  }

  /** What becomes of any message, valid or not: a launch of an invalid application, a result or an
      unknown command is refused at the other end, and a stray application is dropped. So a message
      comes back unchanged exactly when it is valid. */
  lemma EveryMessage(m: Message)
    ensures Decode(Encoded(m)) ==
      if KnownCommand(m.command) && m.result == 0 && (m.command == LAUNCH_APPLICATION ==> SessionAppId(m.appId))
      then Some(m.(appId := Carried(m)))
      else None
    ensures Decode(Encoded(m)) == Some(m) <==> ValidMessage(m)
  {
    hide Word, Half, Packet, Zero, SessionAppId;
    var carried := Carried(m);
    if SessionAppId(m.appId) {
      AppIdSize(m.appId);
    }
    PacketIsRead(Encoded(m), m.command, m.result, carried);
    assert Encoded(m)[20..20 + |carried|] == carried;
    if m.command == LAUNCH_APPLICATION && !SessionAppId(m.appId) {
      assert carried == [];
    }
  }

  method PutPrologue(m: Message, output: array<byte>)
    requires output.Length == SIZE
    modifies output
    ensures output[..16] == Le(4, MAGIC) + Le(2, VERSION) + Le(2, SIZE) + Le(4, m.command) + Le(4, m.result)
    ensures forall i :: 16 <= i < SIZE ==> output[i] == old(output[i])
  {
    PutLe(MAGIC, output, 0, 4);
    PutLe(VERSION, output, 4, 2);
    PutLe(SIZE, output, 6, 2);
    PutLe(m.command, output, 8, 4);
    PutLe(m.result, output, 12, 4);
    assert output[..16] == output[0..4] + output[4..6] + output[6..8] + output[8..12] + output[12..16];
  }

  lemma ZeroHalf()
    ensures Le(2, 0) == [0, 0]
  {
  }

  method EncodeSessionControl(m: Message) returns (r: seq<byte>)
    ensures r == Encoded(m)
  {
    hide SessionAppId;
    var output := new byte[SIZE](_ => 0);
    PutPrologue(m, output);
    ghost var prologue := output[..16];
    var launch := m.command == LAUNCH_APPLICATION;
    var idOk := CheckSessionAppId(m.appId);
    if launch && idOk {
      AppIdSize(m.appId);
    }
    var size := if launch && idOk then |m.appId| else 0;
    PutLe(size, output, 16, 2);
    ghost var half := output[16..18];
    if size != 0 {
      PutBytes(m.appId, output, 20);
    }
    ghost var appId := Carried(m);
    ZeroHalf();
    assert output[..16] == prologue && output[16..18] == half == Le(2, |appId|) && output[18..20] == Le(2, 0);
    assert output[20..128] == appId + Zeros(108 - |appId|);
    r := output[..];
    assert r == output[..16] + output[16..18] + output[18..20] + output[20..128];
  }

  method DecodeSessionControl(b: seq<byte>) returns (r: Option<Message>)
    ensures r == Decode(b)
  {
    hide SessionAppId;
    if |b| != SIZE {
      return None;
    }
    var magic := GetLe(b, 0, 4);
    var version := GetLe(b, 4, 2);
    var wireSize := GetLe(b, 6, 2);
    if magic != MAGIC || version != VERSION || wireSize != SIZE {
      return None;
    }
    var size := GetLe(b, 16, 2);
    var reserved := GetLe(b, 18, 2);
    if reserved != 0 || size >= APP_ID_SIZE {
      return None;
    }
    for i := 20 + size to SIZE
      invariant forall k :: 20 + size <= k < i ==> b[k] == 0
    {
      if b[i] != 0 {
        assert b[20 + size..128][i - 20 - size] != 0;
        return None;
      }
    }
    assert LayoutOk(b);
    var command, result := Word(b, 8), Word(b, 12);
    if !KnownCommand(command) || result != 0 {
      return None;
    }
    var appId := b[20..20 + size];
    var idOk := CheckSessionAppId(appId);
    if (command == LAUNCH_APPLICATION) != (appId != []) || (appId != [] && !idOk) {
      return None;
    }
    r := Some(Message(command, result, appId));
  }
}
