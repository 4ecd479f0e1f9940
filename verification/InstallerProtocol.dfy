/** The requests and responses of the installer service. */
module InstallerProtocol {
  import opened Bytes
  import opened Text

  const MAGIC: seq<byte> := [0x4c, 0x56, 0x49, 0x4e, 0x53, 0x54, 0x32, 0x00]
  const VERSION: u16 := 2
  const REQUEST_SIZE: nat := 160
  const RESPONSE_SIZE: nat := 768
  const TOKEN_LIMIT: nat := 128
  const APP_ID_LIMIT: nat := 96
  const NAME_LIMIT: nat := 96
  const VERSION_LIMIT: nat := 32
  const DETAIL_LIMIT: nat := 256

  const SCAN: u16 := 1
  const CANDIDATE: u16 := 2
  const INSTALL: u16 := 3
  const INSTALLED_SCAN: u16 := 4
  const INSTALLED_CANDIDATE: u16 := 5
  const ROLLBACK: u16 := 6
  const REMOVE: u16 := 7

  const STATUS_READY: u16 := 0
  const STATUS_IO_ERROR: u16 := 6

  predicate ValidCommand(c: u16) { SCAN <= c <= REMOVE }
  predicate IndexCommand(c: u16) { c == CANDIDATE || c == INSTALLED_CANDIDATE }
  predicate TokenCommand(c: u16) { c == INSTALL || c == ROLLBACK || c == REMOVE }
  predicate CountCommand(c: u16) { c == SCAN || c == INSTALLED_SCAN }

  predicate ValidToken(s: seq<byte>) { LowerHex(s, TOKEN_LIMIT) }

  datatype Request = Request(command: u16, id: u64, index: u32, token: seq<byte>)

  predicate ValidRequest(r: Request) {
    && ValidCommand(r.command) && r.id != 0 && (!IndexCommand(r.command) ==> r.index == 0)
    && (if TokenCommand(r.command) then ValidToken(r.token) else r.token == [])
  }

  function RequestHead(command: u16, id: u64, index: u32, tokenSize: u16): (r: seq<byte>)
    ensures |r| == 32
  {
    MAGIC + Le(2, VERSION) + Le(2, command) + Le(4, 0) + Le(8, id) + Le(4, index) + Le(2, tokenSize) + Le(2, 0)
  }

  function RequestPacket(r: Request): (b: seq<byte>)
    requires |r.token| <= TOKEN_LIMIT
    ensures |b| == REQUEST_SIZE
  {
    RequestHead(r.command, r.id, r.index, |r.token|) + (r.token + Zeros(TOKEN_LIMIT - |r.token|))
  }

  lemma TokenFits(r: Request)
    requires ValidRequest(r)
    ensures |r.token| <= TOKEN_LIMIT
  {
  }

  /** What the encoder writes: zeros for a request it refuses. */
  function EncodedRequest(r: Request): (b: seq<byte>)
    ensures |b| == REQUEST_SIZE
  {
    if ValidRequest(r) then TokenFits(r); RequestPacket(r) else Zeros(REQUEST_SIZE)
  }

  predicate RequestLayout(b: seq<byte>) {
    && |b| == REQUEST_SIZE && b[0..8] == MAGIC && Half(b, 8) == VERSION && Word(b, 12) == 0 && Half(b, 30) == 0
    && Half(b, 28) <= TOKEN_LIMIT && Zero(b[32 + Half(b, 28)..160])
  }

  function DecodeRequest(b: seq<byte>): Option<Request> {
    if !RequestLayout(b) then None
    else
      var r := Request(Half(b, 10), Long(b, 16), Word(b, 24), b[32..32 + Half(b, 28)]);
      if !ValidCommand(r.command) || r.id == 0 then None
      else if (!IndexCommand(r.command) && r.index != 0)
              || (if TokenCommand(r.command) then !ValidToken(r.token) else r.token != []) then None
      else Some(r)
  }

  lemma RequestIsRead(b: seq<byte>, r: Request)
    requires |b| == REQUEST_SIZE && |r.token| <= TOKEN_LIMIT
    ensures b == RequestPacket(r) <==>
      && b[0..8] == MAGIC && Half(b, 8) == VERSION && Half(b, 10) == r.command && Word(b, 12) == 0
      && Long(b, 16) == r.id && Word(b, 24) == r.index && Half(b, 28) == |r.token| && Half(b, 30) == 0
      && b[32..32 + |r.token|] == r.token && Zero(b[32 + |r.token|..160])
  {
    hide Word, Half, Long, Zero;
    assert b[..32] == b[0..8] + b[8..10] + b[10..12] + b[12..16] + b[16..24] + b[24..28] + b[28..30] + b[30..32];
    EightParts(b[0..8], b[8..10], b[10..12], b[12..16], b[16..24], b[24..28], b[28..30], b[30..32],
      MAGIC, Le(2, VERSION), Le(2, r.command), Le(4, 0), Le(8, r.id), Le(4, r.index), Le(2, |r.token|), Le(2, 0));
    HalfIsRead(b, 8, VERSION); HalfIsRead(b, 10, r.command); WordIsRead(b, 12, 0); LongIsRead(b, 16, r.id);
    WordIsRead(b, 24, r.index); HalfIsRead(b, 28, |r.token|); HalfIsRead(b, 30, 0);
    PaddedIsRead(b, 32, 128, r.token);
    assert b == b[..32] + b[32..160];
    TwoParts(b[..32], b[32..160], RequestHead(r.command, r.id, r.index, |r.token|), r.token + Zeros(128 - |r.token|));
  }

  /** Valid requests and accepted byte strings correspond one to one. */
  lemma RequestIsBijection(b: seq<byte>, r: Request)
    ensures DecodeRequest(b) == Some(r) <==> ValidRequest(r) && b == EncodedRequest(r)
  {
    hide Word, Half, Long, Zero, ValidToken, RequestPacket;
    if ValidRequest(r) && b == EncodedRequest(r) {
      TokenFits(r);
      RequestIsRead(b, r);
    }
    if DecodeRequest(b) == Some(r) {
      RequestIsRead(b, r);
    }
  }

  /** A refused request is not mistaken for one. */
  lemma RefusedIsNotDecoded(r: Request)
    requires !ValidRequest(r)
    ensures DecodeRequest(EncodedRequest(r)) == None
  {
    assert EncodedRequest(r)[0] != MAGIC[0];
    assert EncodedRequest(r)[0..8][0] != MAGIC[0];
  }

  datatype Candidate = Candidate(
    token: seq<byte>, appId: seq<byte>, name: seq<byte>, version: seq<byte>, detail: seq<byte>,
    counter: u64, epoch: u32, packageSize: u64, installable: bool)

  datatype Installed = Installed(
    token: seq<byte>, appId: seq<byte>, name: seq<byte>, version: seq<byte>, detail: seq<byte>,
    current: u64, previous: u64, epoch: u32, trusted: bool, verified: bool, rollback: bool)

  datatype Response = Response(
    command: u16, status: u16, id: u64, count: u32, detail: seq<byte>, candidate: Candidate, installed: Installed)

  const NO_CANDIDATE: Candidate := Candidate([], [], [], [], [], 0, 0, 0, false)
  const NOT_INSTALLED: Installed := Installed([], [], [], [], [], 0, 0, 0, false, false, false)

  predicate ValidStrings(token: seq<byte>, appId: seq<byte>, name: seq<byte>, version: seq<byte>) {
    ValidToken(token) && SessionAppId(appId) && ValidText(name, NAME_LIMIT) && ValidText(version, VERSION_LIMIT)
  }

  predicate ValidCandidate(c: Candidate) {
    && ValidStrings(c.token, c.appId, c.name, c.version) && ValidText(c.detail, DETAIL_LIMIT)
    && c.counter != 0 && c.packageSize != 0
  }

  predicate ValidInstalled(c: Installed) {
    && ValidStrings(c.token, c.appId, c.name, c.version) && ValidText(c.detail, DETAIL_LIMIT)
    && (if c.trusted then c.current != 0 else c.current == 0 && c.previous == 0)
    && (c.verified ==> c.trusted) && (c.rollback ==> c.trusted && c.previous != 0)
  }

  predicate HasCandidate(command: u16, status: u16) { command == CANDIDATE && status == STATUS_READY }
  predicate HasInstalled(command: u16, status: u16) { command == INSTALLED_CANDIDATE && status == STATUS_READY }

  predicate ValidResponse(r: Response) {
    && ValidCommand(r.command) && r.status <= STATUS_IO_ERROR && r.id != 0 && ValidText(r.detail, DETAIL_LIMIT)
    && (if HasCandidate(r.command, r.status) then ValidCandidate(r.candidate) else r.candidate == NO_CANDIDATE)
    && (if HasInstalled(r.command, r.status) then ValidInstalled(r.installed) else r.installed == NOT_INSTALLED)
    && (!CountCommand(r.command) ==> r.count == 0)
  }

  /** What a response packet holds. */
  datatype Wire = Wire(
    command: u16, status: u16, flags: u16, id: u64, count: u32, release: u64, second: u64, epoch: u32,
    token: seq<byte>, appId: seq<byte>, name: seq<byte>, version: seq<byte>, detail: seq<byte>)

  predicate Sized(w: Wire) {
    && |w.token| <= TOKEN_LIMIT && |w.appId| <= APP_ID_LIMIT && |w.name| <= NAME_LIMIT
    && |w.version| <= VERSION_LIMIT && |w.detail| <= DETAIL_LIMIT
  }

  function Flag(b: bool, weight: u16): u16 { if b then weight else 0 }

  function ToWire(r: Response): Wire {
    if HasCandidate(r.command, r.status) then
      var c := r.candidate;
      Wire(r.command, r.status, Flag(c.installable, 1), r.id, r.count, c.counter, c.packageSize, c.epoch,
        c.token, c.appId, c.name, c.version, r.detail)
    else if HasInstalled(r.command, r.status) then
      var c := r.installed;
      Wire(r.command, r.status, Flag(c.verified, 1) + Flag(c.rollback, 2) + Flag(c.trusted, 4), r.id, r.count,
        c.current, c.previous, c.epoch, c.token, c.appId, c.name, c.version, r.detail)
    else Wire(r.command, r.status, 0, r.id, r.count, 0, 0, 0, [], [], [], [], r.detail)
  }

  /** What the decoder makes of the fields of a packet. */
  function Meaning(w: Wire): Option<Response> {
    if !ValidCommand(w.command) || w.status > STATUS_IO_ERROR || w.id == 0 || w.flags > 7 then None
    else if HasCandidate(w.command, w.status) then
      var c := Candidate(w.token, w.appId, w.name, w.version, w.detail, w.release, w.epoch, w.second, w.flags == 1);
      if w.flags > 1 || !ValidCandidate(c) || w.count != 0 || !ValidText(w.detail, DETAIL_LIMIT) then None
      else Some(Response(w.command, w.status, w.id, w.count, w.detail, c, NOT_INSTALLED))
    else if HasInstalled(w.command, w.status) then
      var c := Installed(w.token, w.appId, w.name, w.version, w.detail, w.release, w.second, w.epoch,
        w.flags / 4 % 2 == 1, w.flags % 2 == 1, w.flags / 2 % 2 == 1);
      if !ValidInstalled(c) || w.count != 0 || !ValidText(w.detail, DETAIL_LIMIT) then None
      else Some(Response(w.command, w.status, w.id, w.count, w.detail, NO_CANDIDATE, c))
    else if w.flags != 0 || w.token != [] || w.appId != [] || w.name != [] || w.version != []
            || w.release != 0 || w.second != 0 || w.epoch != 0 || (!CountCommand(w.command) && w.count != 0)
            || !ValidText(w.detail, DETAIL_LIMIT) then None
    else Some(Response(w.command, w.status, w.id, w.count, w.detail, NO_CANDIDATE, NOT_INSTALLED))
  }

  /** The response with the detail of the packet also inside. */
  function Aligned(r: Response): Response {
    if HasCandidate(r.command, r.status) then r.(candidate := r.candidate.(detail := r.detail))
    else if HasInstalled(r.command, r.status) then r.(installed := r.installed.(detail := r.detail))
    else r
  }

  lemma WireIsSized(r: Response)
    requires ValidResponse(r)
    ensures Sized(ToWire(r))
  {
  }

  lemma FlagsAreRead(a: bool, b: bool, c: bool)
    ensures
      var f := Flag(a, 1) + Flag(b, 2) + Flag(c, 4);
      f <= 7 && (f % 2 == 1) == a && (f / 2 % 2 == 1) == b && (f / 4 % 2 == 1) == c
  {
  }

  lemma FlagsAreWritten(f: u16)
    requires f <= 7
    ensures Flag(f % 2 == 1, 1) + Flag(f / 2 % 2 == 1, 2) + Flag(f / 4 % 2 == 1, 4) == f
  {
  }

  /** The fields of a valid response mean that response, with its detail repeated inside. */
  lemma MeaningOfWire(r: Response)
    requires ValidResponse(r)
    ensures Meaning(ToWire(r)) == Some(Aligned(r))
  {
    hide ValidText, ValidStrings;
    FlagsAreRead(r.installed.verified, r.installed.rollback, r.installed.trusted);
  }

  lemma WireOfMeaning(w: Wire)
    requires Meaning(w).Some?
    ensures ValidResponse(Meaning(w).value) && ToWire(Meaning(w).value) == w && Aligned(Meaning(w).value) == Meaning(w).value
  {
    hide ValidText, ValidStrings;
    FlagsAreWritten(w.flags);
  }

  function Kind(w: Wire): (r: seq<byte>)
    ensures |r| == 32
  {
    MAGIC + Le(2, VERSION) + Le(2, w.command) + Le(2, w.status) + Le(2, w.flags) + Le(8, w.id) + Le(4, w.count) + Zeros(4)
  }

  function Numbers(w: Wire): (r: seq<byte>)
    requires Sized(w)
    ensures |r| == 30
  {
    Le(8, w.release) + Le(8, w.second) + Le(4, w.epoch) + Le(2, |w.token|) + Le(2, |w.appId|) + Le(2, |w.name|)
    + Le(2, |w.version|) + Le(2, |w.detail|)
  }

  function Padded(s: seq<byte>, size: nat): (r: seq<byte>)
    requires |s| <= size
    ensures |r| == size
  {
    s + Zeros(size - |s|)
  }

  function Strings(w: Wire): (r: seq<byte>)
    requires Sized(w)
    ensures |r| == 706
  {
    Zeros(18) + Padded(w.token, 128) + Padded(w.appId, 96) + Padded(w.name, 96) + Padded(w.version, 32) + Padded(w.detail, 336)
  }

  /** The 768 bytes of a response. */
  function Packet(w: Wire): (r: seq<byte>)
    requires Sized(w)
    ensures |r| == RESPONSE_SIZE
  {
    Kind(w) + Numbers(w) + Strings(w)
  }

  predicate Layout(b: seq<byte>) {
    && |b| == RESPONSE_SIZE && b[0..8] == MAGIC && Half(b, 8) == VERSION && Zero(b[28..32]) && Zero(b[62..80])
    && Half(b, 52) <= TOKEN_LIMIT && Half(b, 54) <= APP_ID_LIMIT && Half(b, 56) <= NAME_LIMIT
    && Half(b, 58) <= VERSION_LIMIT && Half(b, 60) <= DETAIL_LIMIT
    && Zero(b[80 + Half(b, 52)..208]) && Zero(b[208 + Half(b, 54)..304]) && Zero(b[304 + Half(b, 56)..400])
    && Zero(b[400 + Half(b, 58)..432]) && Zero(b[432 + Half(b, 60)..768])
  }

  function Fields(b: seq<byte>): Wire
    requires Layout(b)
  {
    Wire(Half(b, 10), Half(b, 12), Half(b, 14), Long(b, 16), Word(b, 24), Long(b, 32), Long(b, 40), Word(b, 48),
      b[80..80 + Half(b, 52)], b[208..208 + Half(b, 54)], b[304..304 + Half(b, 56)], b[400..400 + Half(b, 58)],
      b[432..432 + Half(b, 60)])
  }

  function Decode(b: seq<byte>): Option<Response> {
    if Layout(b) then Meaning(Fields(b)) else None
  }

  /** What the encoder writes: zeros for a response it refuses. */
  function Encoded(r: Response): (b: seq<byte>)
    ensures |b| == RESPONSE_SIZE
  {
    if ValidResponse(r) then WireIsSized(r); Packet(ToWire(r)) else Zeros(RESPONSE_SIZE)
  }

  lemma KindIsRead(b: seq<byte>, w: Wire)
    requires |b| == RESPONSE_SIZE
    ensures b[..32] == Kind(w) <==>
      && b[0..8] == MAGIC && Half(b, 8) == VERSION && Half(b, 10) == w.command && Half(b, 12) == w.status
      && Half(b, 14) == w.flags && Long(b, 16) == w.id && Word(b, 24) == w.count && Zero(b[28..32])
  {
    hide Word, Half, Long;
    assert b[..32] == b[0..8] + b[8..10] + b[10..12] + b[12..14] + b[14..16] + b[16..24] + b[24..28] + b[28..32];
    EightParts(b[0..8], b[8..10], b[10..12], b[12..14], b[14..16], b[16..24], b[24..28], b[28..32],
      MAGIC, Le(2, VERSION), Le(2, w.command), Le(2, w.status), Le(2, w.flags), Le(8, w.id), Le(4, w.count), Zeros(4));
    HalfIsRead(b, 8, VERSION); HalfIsRead(b, 10, w.command); HalfIsRead(b, 12, w.status); HalfIsRead(b, 14, w.flags);
    LongIsRead(b, 16, w.id); WordIsRead(b, 24, w.count);
    assert Zero(b[28..32]) ==> b[28..32] == Zeros(4);
  }

  lemma NumbersAreRead(b: seq<byte>, w: Wire)
    requires |b| == RESPONSE_SIZE && Sized(w)
    ensures b[32..62] == Numbers(w) <==>
      && Long(b, 32) == w.release && Long(b, 40) == w.second && Word(b, 48) == w.epoch
      && Half(b, 52) == |w.token| && Half(b, 54) == |w.appId| && Half(b, 56) == |w.name|
      && Half(b, 58) == |w.version| && Half(b, 60) == |w.detail|
  {
    hide Word, Half, Long;
    assert b[32..62] == b[32..40] + b[40..48] + b[48..52] + b[52..54] + b[54..56] + b[56..58] + b[58..60] + b[60..62];
    EightParts(b[32..40], b[40..48], b[48..52], b[52..54], b[54..56], b[56..58], b[58..60], b[60..62],
      Le(8, w.release), Le(8, w.second), Le(4, w.epoch), Le(2, |w.token|), Le(2, |w.appId|), Le(2, |w.name|),
      Le(2, |w.version|), Le(2, |w.detail|));
    LongIsRead(b, 32, w.release); LongIsRead(b, 40, w.second); WordIsRead(b, 48, w.epoch);
    HalfIsRead(b, 52, |w.token|); HalfIsRead(b, 54, |w.appId|); HalfIsRead(b, 56, |w.name|);
    HalfIsRead(b, 58, |w.version|); HalfIsRead(b, 60, |w.detail|);
  }

  lemma StringsAreRead(b: seq<byte>, w: Wire)
    requires |b| == RESPONSE_SIZE && Sized(w)
    ensures b[62..768] == Strings(w) <==>
      && Zero(b[62..80])
      && b[80..80 + |w.token|] == w.token && Zero(b[80 + |w.token|..208])
      && b[208..208 + |w.appId|] == w.appId && Zero(b[208 + |w.appId|..304])
      && b[304..304 + |w.name|] == w.name && Zero(b[304 + |w.name|..400])
      && b[400..400 + |w.version|] == w.version && Zero(b[400 + |w.version|..432])
      && b[432..432 + |w.detail|] == w.detail && Zero(b[432 + |w.detail|..768])
  {
    assert b[62..768] == b[62..80] + b[80..208] + b[208..304] + b[304..400] + b[400..432] + b[432..768];
    SixParts(b[62..80], b[80..208], b[208..304], b[304..400], b[400..432], b[432..768],
      Zeros(18), Padded(w.token, 128), Padded(w.appId, 96), Padded(w.name, 96), Padded(w.version, 32), Padded(w.detail, 336));
    assert Zero(b[62..80]) ==> b[62..80] == Zeros(18);
    hide Zero;
    PaddedIsRead(b, 80, 128, w.token);
    PaddedIsRead(b, 208, 96, w.appId);
    PaddedIsRead(b, 304, 96, w.name);
    PaddedIsRead(b, 400, 32, w.version);
    PaddedIsRead(b, 432, 336, w.detail);
  }

  /** The fields read from a byte string are those of the packet it is. */
  lemma PacketIsRead(b: seq<byte>, w: Wire)
    ensures Layout(b) && Fields(b) == w <==> Sized(w) && b == Packet(w)
  {
    hide Word, Half, Long, Zero, Kind, Numbers, Strings;
    if (Layout(b) && Fields(b) == w) || (Sized(w) && b == Packet(w)) {
      KindIsRead(b, w);
      NumbersAreRead(b, w);
      StringsAreRead(b, w);
      assert b == b[..32] + b[32..62] + b[62..768];
      TwoParts(b[..32] + b[32..62], b[62..768], Kind(w) + Numbers(w), Strings(w));
      TwoParts(b[..32], b[32..62], Kind(w), Numbers(w));
    }
  }

  /** What comes back of a valid response: the response with its detail also inside the candidate.
      So it comes back unchanged exactly when the details already agreed. */
  lemma ResponseRoundTrip(r: Response)
    requires ValidResponse(r)
    ensures Decode(Encoded(r)) == Some(Aligned(r))
    ensures Decode(Encoded(r)) == Some(r) <==>
      && (HasCandidate(r.command, r.status) ==> r.candidate.detail == r.detail)
      && (HasInstalled(r.command, r.status) ==> r.installed.detail == r.detail)
  {
    WireIsSized(r);
    hide Layout, Fields, Packet, Meaning, ToWire, ValidResponse;
    PacketIsRead(Encoded(r), ToWire(r));
    MeaningOfWire(r);
  }

  /** Every accepted byte string is the encoding of the valid response it decodes to. */
  lemma ResponseIsCanonical(b: seq<byte>)
    requires Decode(b).Some?
    ensures ValidResponse(Decode(b).value) && Encoded(Decode(b).value) == b
  {
    hide Layout, Fields, Packet, Meaning, ToWire, ValidResponse;
    PacketIsRead(b, Fields(b));
    WireOfMeaning(Fields(b));
  }

  method CheckToken(s: seq<byte>) returns (ok: bool)
    ensures ok == ValidToken(s)
  {
    if |s| != TOKEN_LIMIT {
      return false;
    }
    for i := 0 to |s|
      invariant forall k :: 0 <= k < i ==> LowerHexDigit(s[k])
    {
      if !LowerHexDigit(s[i]) {
        return false;
      }
    }
    ok := true;
  }

  method EncodeInstallerRequest(r: Request) returns (b: seq<byte>)
    ensures b == EncodedRequest(r)
  {
    hide ValidToken;
    var output := new byte[REQUEST_SIZE](_ => 0);
    var hasToken := TokenCommand(r.command);
    var tokenOk := CheckToken(r.token);
    if !ValidCommand(r.command) || r.id == 0 || (!IndexCommand(r.command) && r.index != 0)
       || (if hasToken then !tokenOk else r.token != []) {
      assert output[..] == Zeros(REQUEST_SIZE);
      return output[..];
    }
    TokenFits(r);
    FillRequest(r, output);
    b := output[..];
  }

  lemma {:induction false} ZeroField(b: seq<byte>, at: nat, n: nat)
    requires at + n <= |b| && forall i :: at <= i < at + n ==> b[i] == 0
    ensures b[at..at + n] == Le(n, 0)
  {
    forall i | 0 <= i < n
      ensures ByteOf(0, i) == 0
    {
      ModulusUnique(0, Pow256(i), 0, 0);
    }
  }

  /** Magic, version and command start requests and responses alike. */
  method PutStart(command: u16, output: array<byte>)
    requires output.Length >= 12
    modifies output
    ensures output[..12] == MAGIC + Le(2, VERSION) + Le(2, command)
    ensures forall i :: 12 <= i < output.Length ==> output[i] == old(output[i])
  {
    PutBytes(MAGIC, output, 0);
    PutLe(VERSION, output, 8, 2);
    PutLe(command, output, 10, 2);
    assert output[..12] == output[0..8] + output[8..10] + output[10..12];
  }

  method PutRequestNumbers(r: Request, output: array<byte>)
    requires output.Length == REQUEST_SIZE && |r.token| <= TOKEN_LIMIT
    requires forall i :: 12 <= i < 32 ==> output[i] == 0
    modifies output
    ensures output[12..32] == Le(4, 0) + Le(8, r.id) + Le(4, r.index) + Le(2, |r.token|) + Le(2, 0)
    ensures forall i :: 0 <= i < REQUEST_SIZE && !(12 <= i < 32) ==> output[i] == old(output[i])
  {
    PutLe(r.id, output, 16, 8);
    PutLe(r.index, output, 24, 4);
    PutLe(|r.token|, output, 28, 2);
    ZeroField(output[..], 12, 4);
    ZeroField(output[..], 30, 2);
    assert output[12..32] == output[12..16] + output[16..24] + output[24..28] + output[28..30] + output[30..32];
  }

  method FillRequest(r: Request, output: array<byte>)
    requires output.Length == REQUEST_SIZE && |r.token| <= TOKEN_LIMIT
    requires forall i :: 0 <= i < REQUEST_SIZE ==> output[i] == 0
    modifies output
    ensures output[..] == RequestPacket(r)
  {
    PutStart(r.command, output);
    ghost var start := output[..12];
    PutRequestNumbers(r, output);
    ghost var numbers := output[12..32];
    PutBytes(r.token, output, 32);
    assert output[..12] == start && output[12..32] == numbers;
    assert output[32..160] == r.token + Zeros(TOKEN_LIMIT - |r.token|);
    assert output[..] == output[..12] + output[12..32] + output[32..160];
    Regroup(start, Le(4, 0), Le(8, r.id), Le(4, r.index), Le(2, |r.token|), Le(2, 0));
  }

  lemma Regroup(s: seq<byte>, a: seq<byte>, b: seq<byte>, c: seq<byte>, d: seq<byte>, e: seq<byte>)
    ensures s + (a + b + c + d + e) == s + a + b + c + d + e
  {
  }

  method PutKind(w: Wire, output: array<byte>)
    requires output.Length == RESPONSE_SIZE && forall i :: 28 <= i < 32 ==> output[i] == 0
    modifies output
    ensures output[..32] == Kind(w)
    ensures forall i :: 32 <= i < RESPONSE_SIZE ==> output[i] == old(output[i])
  {
    PutStart(w.command, output);
    ghost var start := output[..12];
    PutLe(w.status, output, 12, 2);
    PutLe(w.flags, output, 14, 2);
    PutLe(w.id, output, 16, 8);
    PutLe(w.count, output, 24, 4);
    assert output[..12] == start && output[28..32] == Zeros(4);
    assert output[..32] == output[..12] + output[12..14] + output[14..16] + output[16..24] + output[24..28] + output[28..32];
  }

  method PutNumbers(w: Wire, output: array<byte>)
    requires output.Length == RESPONSE_SIZE && Sized(w)
    modifies output
    ensures output[32..62] == Numbers(w)
    ensures forall i :: 0 <= i < RESPONSE_SIZE && !(32 <= i < 62) ==> output[i] == old(output[i])
  {
    PutLe(w.release, output, 32, 8);
    PutLe(w.second, output, 40, 8);
    PutLe(w.epoch, output, 48, 4);
    ghost var start := output[32..52];
    assert start == output[32..40] + output[40..48] + output[48..52];
    PutSizes(w, output);
    assert output[32..52] == start;
    assert output[32..62] == output[32..52] + output[52..62];
  }

  method PutSizes(w: Wire, output: array<byte>)
    requires output.Length == RESPONSE_SIZE && Sized(w)
    modifies output
    ensures output[52..62] == Le(2, |w.token|) + Le(2, |w.appId|) + Le(2, |w.name|) + Le(2, |w.version|) + Le(2, |w.detail|)
    ensures forall i :: 0 <= i < RESPONSE_SIZE && !(52 <= i < 62) ==> output[i] == old(output[i])
  {
    PutLe(|w.token|, output, 52, 2);
    PutLe(|w.appId|, output, 54, 2);
    PutLe(|w.name|, output, 56, 2);
    PutLe(|w.version|, output, 58, 2);
    PutLe(|w.detail|, output, 60, 2);
    assert output[52..62] == output[52..54] + output[54..56] + output[56..58] + output[58..60] + output[60..62];
  }

  method PutPadded(s: seq<byte>, size: nat, output: array<byte>, at: nat)
    requires |s| <= size && at + size <= output.Length && forall i :: at <= i < at + size ==> output[i] == 0
    modifies output
    ensures output[at..at + size] == Padded(s, size)
    ensures forall i :: 0 <= i < output.Length && !(at <= i < at + size) ==> output[i] == old(output[i])
  {
    PutBytes(s, output, at);
    assert output[at..at + size] == output[at..at + |s|] + output[at + |s|..at + size];
  }

  method PutStrings(w: Wire, output: array<byte>)
    requires output.Length == RESPONSE_SIZE && Sized(w) && forall i :: 62 <= i < RESPONSE_SIZE ==> output[i] == 0
    modifies output
    ensures output[62..768] == Strings(w)
    ensures forall i :: 0 <= i < 62 ==> output[i] == old(output[i])
  {
    hide Padded;
    PutPadded(w.token, 128, output, 80);
    PutPadded(w.appId, 96, output, 208);
    PutPadded(w.name, 96, output, 304);
    PutPadded(w.version, 32, output, 400);
    PutPadded(w.detail, 336, output, 432);
    assert output[62..80] == Zeros(18);
    assert output[62..768] == output[62..80] + output[80..208] + output[208..304] + output[304..400]
      + output[400..432] + output[432..768];
  }

  method EncodeInstallerResponse(r: Response) returns (b: seq<byte>)
    ensures b == Encoded(r)
  {
    hide ValidResponse, ToWire, Kind, Numbers, Strings;
    var output := new byte[RESPONSE_SIZE](_ => 0);
    if !ValidResponse(r) {
      assert output[..] == Zeros(RESPONSE_SIZE);
      return output[..];
    }
    var w := ToWire(r);
    WireIsSized(r);
    PutKind(w, output);
    ghost var kind := output[..32];
    PutNumbers(w, output);
    ghost var numbers := output[32..62];
    PutStrings(w, output);
    assert output[..32] == kind && output[32..62] == numbers;
    assert output[..] == output[..32] + output[32..62] + output[62..768];
    b := output[..];
  }
}
