/** The storage requests and responses of the session: names, quota and packets. */
module StorageProtocol {
  import opened Bytes
  import opened Text

  const MAGIC: seq<byte> := [0x4c, 0x56, 0x53, 0x54, 0x4f, 0x52, 0x31, 0x00]
  const VERSION: u16 := 1
  const NAME_SIZE: nat := 64
  const HEADER_SIZE: nat := 96
  const MAXIMUM_RECORD: nat := 64 * 1024

  const READ: u16 := 1
  const WRITE: u16 := 2

  const OK: u16 := 0
  const INVALID_REQUEST: u16 := 1
  const NOT_FOUND: u16 := 2
  const QUOTA_EXCEEDED: u16 := 3
  const STORAGE_CORRUPT: u16 := 4
  const IO_ERROR: u16 := 5

  datatype Request = Request(command: u16, id: u64, record: seq<byte>, maximum: u32, data: seq<byte>)
  datatype Response = Response(command: u16, status: u16, id: u64, data: seq<byte>)

  predicate ValidCommand(c: u16) { c == READ || c == WRITE }

  predicate NameCharacter(c: byte) { Ordinary(c) || c == DOT || c == '_' as int || c == DASH }

  /** A record name: no leading dot, no two dots in a row, lower-case and short. */
  predicate ValidName(s: seq<byte>) {
    && 0 < |s| <= NAME_SIZE && s[0] != DOT
    && (forall i :: 0 < i < |s| ==> !(s[i - 1] == DOT && s[i] == DOT))
    && forall i :: 0 <= i < |s| ==> NameCharacter(s[i])
  }

  /** The quota test of a write. */
  predicate WithinQuota(
    files: u32, bytes: u64, exists_: bool, existing: u64, size: u64, maximumFiles: u32, maximumBytes: u64)
  {
    if maximumFiles == 0 || maximumBytes == 0 || size == 0 || size > MAXIMUM_RECORD
       || (exists_ && (files == 0 || existing == 0 || existing > bytes)) || (!exists_ && existing != 0)
    then false
    else
      var retained := bytes - existing;
      if retained > maximumBytes || size > maximumBytes - retained then false
      else if exists_ then files <= maximumFiles
      else files < maximumFiles
  }

  predicate ValidRequest(r: Request) {
    && ValidCommand(r.command) && r.id != 0 && ValidName(r.record)
    && 0 < r.maximum <= MAXIMUM_RECORD
    && (r.command == WRITE ==> 0 < |r.data| <= r.maximum)
    && (r.command != WRITE ==> r.data == [])
  }

  predicate ValidResponse(r: Response) {
    && ValidCommand(r.command) && r.status <= IO_ERROR && r.id != 0 && |r.data| <= MAXIMUM_RECORD
    && (r.status != OK ==> r.data == []) && (r.command == WRITE ==> r.data == [])
  }

  /** The first 32 bytes of every packet. */
  function Head(command: u16, status: u16, nameSize: u16, dataSize: u32, maximum: u32, id: u64): (r: seq<byte>)
    ensures |r| == 32
  {
    MAGIC + Le(2, VERSION) + Le(2, command) + Le(2, status) + Le(2, nameSize) + Le(4, dataSize) + Le(4, maximum) + Le(8, id)
  }

  /** A packet: head, name field padded with zeros, data. */
  function Packet(
    command: u16, status: u16, name: seq<byte>, maximum: u32, id: u64, data: seq<byte>): (r: seq<byte>)
    requires |name| <= NAME_SIZE && |data| <= MAXIMUM_RECORD
    ensures |r| == HEADER_SIZE + |data|
  {
    Head(command, status, |name|, |data|, maximum, id) + (name + Zeros(NAME_SIZE - |name|)) + data
  }

  function EncodedRequest(r: Request): seq<byte>
    requires ValidRequest(r)
  {
    Packet(r.command, OK, r.record, r.maximum, r.id, r.data)
  }

  function EncodedResponse(r: Response): seq<byte>
    requires ValidResponse(r)
  {
    Packet(r.command, r.status, [], 0, r.id, r.data)
  }

  predicate HeaderOk(b: seq<byte>) {
    && HEADER_SIZE <= |b| <= HEADER_SIZE + MAXIMUM_RECORD && b[0..8] == MAGIC && Half(b, 8) == VERSION
    && ValidCommand(Half(b, 10)) && Half(b, 12) <= IO_ERROR
    && Word(b, 16) <= MAXIMUM_RECORD && |b| == HEADER_SIZE + Word(b, 16)
  }

  function DecodeRequest(b: seq<byte>): Option<Request> {
    if !HeaderOk(b) || Half(b, 12) != OK || Long(b, 24) == 0 || Half(b, 14) == 0 || Half(b, 14) > NAME_SIZE
       || Word(b, 20) == 0 || Word(b, 20) > MAXIMUM_RECORD || Word(b, 16) > Word(b, 20)
       || !Zero(b[32 + Half(b, 14)..96])
    then None
    else
      var record := b[32..32 + Half(b, 14)];
      if !ValidName(record) || (Half(b, 10) == WRITE && Word(b, 16) == 0) || (Half(b, 10) != WRITE && Word(b, 16) != 0)
      then None
      else Some(Request(Half(b, 10), Long(b, 24), record, Word(b, 20), b[96..]))
  }

  function DecodeResponse(b: seq<byte>): Option<Response> {
    if !HeaderOk(b) || Long(b, 24) == 0 || Half(b, 14) != 0 || Word(b, 20) != 0 || !Zero(b[32..96])
       || (Half(b, 12) != OK && Word(b, 16) != 0) || (Half(b, 10) == WRITE && Word(b, 16) != 0)
    then None
    else Some(Response(Half(b, 10), Half(b, 12), Long(b, 24), b[96..]))
  }

  lemma HeadIsRead(b: seq<byte>, command: u16, status: u16, nameSize: u16, dataSize: u32, maximum: u32, id: u64)
    requires |b| >= 32
    ensures b[..32] == Head(command, status, nameSize, dataSize, maximum, id) <==>
      && b[0..8] == MAGIC && Half(b, 8) == VERSION && Half(b, 10) == command && Half(b, 12) == status
      && Half(b, 14) == nameSize && Word(b, 16) == dataSize && Word(b, 20) == maximum && Long(b, 24) == id
  {
    hide Half, Word, Long;
    assert b[..32] == b[0..8] + b[8..10] + b[10..12] + b[12..14] + b[14..16] + b[16..20] + b[20..24] + b[24..32];
    EightParts(b[0..8], b[8..10], b[10..12], b[12..14], b[14..16], b[16..20], b[20..24], b[24..32],
      MAGIC, Le(2, VERSION), Le(2, command), Le(2, status), Le(2, nameSize), Le(4, dataSize), Le(4, maximum), Le(8, id));
    HalfIsRead(b, 8, VERSION); HalfIsRead(b, 10, command); HalfIsRead(b, 12, status); HalfIsRead(b, 14, nameSize);
    WordIsRead(b, 16, dataSize); WordIsRead(b, 20, maximum); LongIsRead(b, 24, id);
  }

  /** A byte string is a packet exactly when its fields read as the packet's. */
  lemma PacketIsRead(b: seq<byte>, command: u16, status: u16, name: seq<byte>, maximum: u32, id: u64, data: seq<byte>)
    requires |name| <= NAME_SIZE && |data| <= MAXIMUM_RECORD && |b| >= HEADER_SIZE
    ensures b == Packet(command, status, name, maximum, id, data) <==>
      && b[0..8] == MAGIC && Half(b, 8) == VERSION && Half(b, 10) == command && Half(b, 12) == status
      && Half(b, 14) == |name| && Word(b, 16) == |data| && Word(b, 20) == maximum && Long(b, 24) == id
      && b[32..32 + |name|] == name && Zero(b[32 + |name|..96]) && b[96..] == data
  {
    hide Half, Word, Long, Head, Zero;
    HeadIsRead(b, command, status, |name|, |data|, maximum, id);
    PaddedIsRead(b, 32, NAME_SIZE, name);
    var field := name + Zeros(NAME_SIZE - |name|);
    var head := Head(command, status, |name|, |data|, maximum, id);
    assert b == b[..32] + b[32..96] + b[96..];
    TwoParts(b[..32] + b[32..96], b[96..], head + field, data);
    TwoParts(b[..32], b[32..96], head, field);
  }

  /** Requests and accepted byte strings correspond one to one. */
  lemma RequestIsBijection(b: seq<byte>, r: Request)
    ensures DecodeRequest(b) == Some(r) <==> ValidRequest(r) && b == EncodedRequest(r)
  {
    hide Half, Word, Long, Packet, Zero, ValidName;
    if DecodeRequest(b) == Some(r) {
      PacketIsRead(b, r.command, OK, r.record, r.maximum, r.id, r.data);
    }
    if ValidRequest(r) && b == EncodedRequest(r) {
      NameFits(r.record);
      PacketIsRead(b, r.command, OK, r.record, r.maximum, r.id, r.data);
    }
  }

  lemma NameFits(name: seq<byte>)
    requires ValidName(name)
    ensures 0 < |name| <= NAME_SIZE
  {
  }

  /** Responses and accepted byte strings correspond one to one. */
  lemma ResponseIsBijection(b: seq<byte>, r: Response)
    ensures DecodeResponse(b) == Some(r) <==> ValidResponse(r) && b == EncodedResponse(r)
  {
    hide Half, Word, Long, Packet, Zero;
    if DecodeResponse(b) == Some(r) || (ValidResponse(r) && b == EncodedResponse(r)) {
      PacketIsRead(b, r.command, r.status, [], 0, r.id, r.data);
    }
  }

  method CheckName(s: seq<byte>) returns (ok: bool)
    ensures ok == ValidName(s)
  {
    if s == [] || |s| > NAME_SIZE || s[0] == DOT {
      return false;
    }
    for i := 1 to |s|
      invariant forall k :: 0 < k < i ==> !(s[k - 1] == DOT && s[k] == DOT)
    {
      if s[i - 1] == DOT && s[i] == DOT {
        return false;
      }
    }
    for i := 0 to |s|
      invariant forall k :: 0 <= k < i ==> NameCharacter(s[k])
    {
      if !NameCharacter(s[i]) {
        return false;
      }
    }
    ok := true;
  }

  method PutKind(output: array<byte>, command: u16, status: u16, nameSize: u16)
    requires output.Length >= HEADER_SIZE
    modifies output
    ensures output[..16] == MAGIC + Le(2, VERSION) + Le(2, command) + Le(2, status) + Le(2, nameSize)
    ensures forall i :: 16 <= i < output.Length ==> output[i] == old(output[i])
  {
    PutBytes(MAGIC, output, 0);
    PutLe(VERSION, output, 8, 2);
    PutLe(command, output, 10, 2);
    PutLe(status, output, 12, 2);
    PutLe(nameSize, output, 14, 2);
    assert output[..16] == output[0..8] + output[8..10] + output[10..12] + output[12..14] + output[14..16];
  }

  method PutHead(
    output: array<byte>, command: u16, status: u16, nameSize: u16, dataSize: u32, maximum: u32, id: u64)
    requires output.Length >= HEADER_SIZE
    modifies output
    ensures output[..32] == Head(command, status, nameSize, dataSize, maximum, id)
    ensures forall i :: 32 <= i < output.Length ==> output[i] == old(output[i])
  {
    PutKind(output, command, status, nameSize);
    ghost var kind := output[..16];
    PutLe(dataSize, output, 16, 4);
    PutLe(maximum, output, 20, 4);
    PutLe(id, output, 24, 8);
    assert output[..16] == kind;
    assert output[..32] == output[..16] + output[16..20] + output[20..24] + output[24..32];
  }

  /** Fills a zeroed packet: head, name, data. */
  method FillPacket(command: u16, status: u16, name: seq<byte>, maximum: u32, id: u64, data: seq<byte>)
    returns (r: seq<byte>)
    requires |name| <= NAME_SIZE && |data| <= MAXIMUM_RECORD
    ensures r == Packet(command, status, name, maximum, id, data)
  {
    hide Head;
    var output := new byte[HEADER_SIZE + |data|](_ => 0);
    PutHead(output, command, status, |name|, |data|, maximum, id);
    ghost var head := output[..32];
    PutBytes(name, output, 32);
    assert output[..32] == head;
    ghost var field := name + Zeros(NAME_SIZE - |name|);
    assert output[32..96] == field;
    PutBytes(data, output, 96);
    assert output[..32] == head && output[32..96] == field && output[96..] == data;
    assert output[..] == output[..32] + output[32..96] + output[96..];
    r := output[..];
  }

  method EncodeStorageRequest(r: Request) returns (b: seq<byte>)
    ensures b == if ValidRequest(r) then EncodedRequest(r) else []
  {
    hide ValidName, Packet;
    var nameOk := CheckName(r.record);
    var write := r.command == WRITE;
    if !ValidCommand(r.command) || r.id == 0 || !nameOk || r.maximum == 0 || r.maximum > MAXIMUM_RECORD
       || (write && (r.data == [] || |r.data| > r.maximum)) || (!write && r.data != []) {
      return [];
    }
    NameFits(r.record);
    b := FillPacket(r.command, OK, r.record, r.maximum, r.id, r.data);
  }

  method EncodeStorageResponse(r: Response) returns (b: seq<byte>)
    ensures b == if ValidResponse(r) then EncodedResponse(r) else []
  {
    hide Packet;
    if !ValidResponse(r) {
      return [];
    }
    b := FillPacket(r.command, r.status, [], 0, r.id, r.data);
  }
}
