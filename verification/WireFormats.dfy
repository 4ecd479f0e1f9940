/** The byte layouts of the platform, each written out once more in plain bytes, and that the codecs take exactly
    these: which strings decode, to what, and that nothing else does. */
module WireFormats {
  import opened Bytes
  import opened Text
  import Touch = TouchProtocol
  import Storage = StorageProtocol
  import Session = SessionControl
  import Installer = InstallerProtocol
  import Release = ReleaseState
  import Registry = ApplicationRegistry

  /** "PTVL", version 1, 56 bytes; session, sequence, clock; phase, contact, point; no flags. */
  function TouchBytes(f: Touch.Frame): seq<byte>
    requires f.x >= 0 && f.y >= 0
  {
    ([0x50, 0x54, 0x56, 0x4c] + [1, 0] + [56, 0] + Le(8, f.nonce) + Le(8, f.sequence) + Le(8, f.time))
    + (Le(4, f.phase) + Le(4, f.contact) + Le(4, f.x) + Le(4, f.y) + [0, 0, 0, 0] + [0, 0, 0, 0])
  }

  lemma TouchFormat(b: seq<byte>, f: Touch.Frame, width: i32, height: i32)
    ensures Touch.Decode(b, width, height) == Some(f) <==>
      && f.nonce > 0 && f.sequence > 0 && f.time > 0 && 1 <= f.phase <= 4 && f.contact < 32
      && 0 <= f.x < width && 0 <= f.y < height && f.flags == 0
      && b == TouchBytes(f)
  {
    Touch.FrameIsBijection(b, f, width, height);
    if Touch.ValidFrame(f, width, height) {
      TouchEncoding(f);
    }
    hide Touch.Decode, Touch.Encoded, TouchBytes;
  }

  lemma TouchEncoding(f: Touch.Frame)
    requires f.x >= 0 && f.y >= 0 && f.flags == 0
    ensures Touch.Encoded(f) == TouchBytes(f)
  {
    LeBytes(0x4C565450); LeBytes(1); LeBytes(56); LeBytes(0);
    hide Le;
    assert Le(4, 0x4C565450) == [0x50, 0x54, 0x56, 0x4c] && Le(2, 1) == [1, 0] && Le(2, 56) == [56, 0];
    assert Le(4, 0) == [0, 0, 0, 0];
  }

  /** What a caller is left with when the size is wrong: a cancel of contact 0, without session or time. */
  lemma TouchNothing(b: seq<byte>)
    requires |b| != 56
    ensures Touch.SeenFrame(b) == Touch.Frame(0, 0, 0, 4, 0, 0, 0, 0)
  {
  }

  /** A record name in character codes: letters, digits, dot, underscore, dash. */
  predicate NameByte(c: byte) { 97 <= c <= 122 || 48 <= c <= 57 || c == 46 || c == 95 || c == 45 }

  predicate RecordName(s: seq<byte>) {
    && 1 <= |s| <= 64 && (forall i :: 0 <= i < |s| ==> NameByte(s[i]))
    && s[0] != 46 && forall i :: 0 <= i < |s| - 1 ==> s[i] != 46 || s[i + 1] != 46
  }

  lemma NameFormat(s: seq<byte>)
    ensures Storage.ValidName(s) <==> RecordName(s)
  {
    assert forall i :: 0 <= i < |s| ==> (Storage.NameCharacter(s[i]) <==> NameByte(s[i]));
    if RecordName(s) {
      forall i | 0 < i < |s|
        ensures !(s[i - 1] == DOT && s[i] == DOT)
      {
        assert i - 1 + 1 == i && (s[i - 1] != 46 || s[i - 1 + 1] != 46);
      }
    }
  }

  /** "LVSTOR1", version 1; command, status, sizes of name and data, room for the answer, number; name; data. */
  function StorageBytes(
    command: u16, status: u16, name: seq<byte>, room: u32, id: u64, data: seq<byte>): seq<byte>
    requires |name| <= 64
  {
    ([0x4c, 0x56, 0x53, 0x54, 0x4f, 0x52, 0x31, 0] + [1, 0] + Le(2, command) + Le(2, status) + Le(2, |name|)
     + Le(4, |data|) + Le(4, room) + Le(8, id)) + (name + Zeros(64 - |name|)) + data
  }

  /** A read (1) carries no data, a write (2) at least one byte, and never more than the room it names. */
  lemma StorageRequestFormat(b: seq<byte>, r: Storage.Request)
    ensures Storage.DecodeRequest(b) == Some(r) <==>
      && (r.command == 1 || r.command == 2) && r.id > 0 && RecordName(r.record) && 1 <= r.maximum <= 65536
      && (if r.command == 1 then r.data == [] else 1 <= |r.data| <= r.maximum)
      && b == StorageBytes(r.command, 0, r.record, r.maximum, r.id, r.data)
  {
    Storage.RequestIsBijection(b, r);
    NameFormat(r.record);
    if Storage.ValidRequest(r) {
      StorageEncoding(r.command, 0, r.record, r.maximum, r.id, r.data);
    }
    hide Storage.DecodeRequest, Storage.ValidName, Storage.Packet, StorageBytes;
  }

  lemma StorageEncoding(command: u16, status: u16, name: seq<byte>, room: u32, id: u64, data: seq<byte>)
    requires |name| <= 64 && |data| <= 65536
    ensures Storage.Packet(command, status, name, room, id, data) == StorageBytes(command, status, name, room, id, data)
  {
    LeBytes(1);
    hide Le;
    assert Le(2, 1) == [1, 0];
  }

  /** Only a successful read (command 1, status 0) returns data. */
  lemma StorageResponseFormat(b: seq<byte>, r: Storage.Response)
    ensures Storage.DecodeResponse(b) == Some(r) <==>
      && (r.command == 1 || r.command == 2) && r.status <= 5 && r.id > 0 && |r.data| <= 65536
      && (r.data != [] ==> r.command == 1 && r.status == 0)
      && b == StorageBytes(r.command, r.status, [], 0, r.id, r.data)
  {
    Storage.ResponseIsBijection(b, r);
    if Storage.ValidResponse(r) {
      StorageEncoding(r.command, r.status, [], 0, r.id, r.data);
    }
    hide Storage.DecodeResponse, Storage.Packet, StorageBytes;
  }

  /** "CSVL", version 1, 128 bytes; command; no result; the identifier of the application to launch. */
  function SessionBytes(command: u32, appId: seq<byte>): seq<byte>
    requires |appId| <= 108
  {
    [0x43, 0x53, 0x56, 0x4c] + [1, 0] + [128, 0] + Le(4, command) + [0, 0, 0, 0] + Le(2, |appId|) + [0, 0]
    + (appId + Zeros(108 - |appId|))
  }

  /** A launch (3) names an application; ready (1), exit (2) and home (4) name none. */
  lemma SessionFormat(b: seq<byte>, m: Session.Message)
    ensures Session.Decode(b) == Some(m) <==>
      && m.result == 0
      && (if m.command == 3 then SessionAppId(m.appId) else m.command in {1, 2, 4} && m.appId == [])
      && |m.appId| <= 108 && b == SessionBytes(m.command, m.appId)
  {
    Session.MessageIsBijection(b, m);
    if SessionAppId(m.appId) {
      Session.AppIdSize(m.appId);
    }
    if Session.ValidMessage(m) {
      SessionEncoding(m);
    }
    hide Session.Decode, SessionAppId, Session.Encoded, SessionBytes;
  }

  lemma SessionEncoding(m: Session.Message)
    requires Session.ValidMessage(m)
    ensures |m.appId| <= 108 && Session.Encoded(m) == SessionBytes(m.command, m.appId)
  {
    if SessionAppId(m.appId) {
      Session.AppIdSize(m.appId);
    }
    LeBytes(0x4c565343); LeBytes(1); LeBytes(128); LeBytes(0);
    hide Le, SessionAppId;
    assert Le(4, 0x4c565343) == [0x43, 0x53, 0x56, 0x4c] && Le(2, 1) == [1, 0] && Le(2, 128) == [128, 0];
    assert Le(4, 0) == [0, 0, 0, 0] && Le(2, 0) == [0, 0];
  }

  /** "LVINST2", version 2; command; number; index; the 128 hexadecimal digits of a token, or none. */
  function InstallerRequestBytes(r: Installer.Request): seq<byte>
    requires |r.token| <= 128
  {
    ([0x4c, 0x56, 0x49, 0x4e, 0x53, 0x54, 0x32, 0] + [2, 0] + Le(2, r.command) + [0, 0, 0, 0] + Le(8, r.id)
     + Le(4, r.index) + Le(2, |r.token|) + [0, 0]) + (r.token + Zeros(128 - |r.token|))
  }

  predicate HexToken(s: seq<byte>) {
    |s| == 128 && forall i :: 0 <= i < 128 ==> 48 <= s[i] <= 57 || 97 <= s[i] <= 102
  }

  lemma TokenFormat(s: seq<byte>)
    ensures Installer.ValidToken(s) <==> HexToken(s)
  {
  }

  /** The two candidate commands (2 and 5) have an index; install (3), rollback (6) and remove (7) have a token;
      the two scans (1 and 4) have neither. */
  lemma InstallerRequestFormat(b: seq<byte>, r: Installer.Request)
    ensures Installer.DecodeRequest(b) == Some(r) <==>
      && 1 <= r.command <= 7 && r.id > 0 && (r.index != 0 ==> r.command == 2 || r.command == 5)
      && (if r.command in {3, 6, 7} then HexToken(r.token) else r.token == [])
      && |r.token| <= 128 && b == InstallerRequestBytes(r)
  {
    Installer.RequestIsBijection(b, r);
    TokenFormat(r.token);
    if Installer.ValidRequest(r) {
      InstallerRequestEncoding(r);
    }
    hide Installer.DecodeRequest, Installer.ValidToken, Installer.EncodedRequest, InstallerRequestBytes;
  }

  lemma InstallerRequestEncoding(r: Installer.Request)
    requires Installer.ValidRequest(r)
    ensures |r.token| <= 128 && Installer.EncodedRequest(r) == InstallerRequestBytes(r)
  {
    Installer.TokenFits(r);
    LeBytes(2); LeBytes(0);
    hide Le, Installer.ValidToken;
    assert Le(2, 2) == [2, 0] && Le(4, 0) == [0, 0, 0, 0] && Le(2, 0) == [0, 0];
  }

  /** "LVINST2", version 2; command, status, flags, number, count; numbers; lengths; five padded strings. */
  function ResponseBytes(command: u16, status: u16, flags: u16, id: u64, count: u32, numbers: (u64, u64, u32),
    token: seq<byte>, appId: seq<byte>, name: seq<byte>, version: seq<byte>, detail: seq<byte>): seq<byte>
    requires |token| <= 128 && |appId| <= 96 && |name| <= 96 && |version| <= 32 && |detail| <= 256
  {
    ([0x4c, 0x56, 0x49, 0x4e, 0x53, 0x54, 0x32, 0] + [2, 0] + Le(2, command) + Le(2, status) + Le(2, flags)
     + Le(8, id) + Le(4, count) + Zeros(4))
    + (Le(8, numbers.0) + Le(8, numbers.1) + Le(4, numbers.2) + Le(2, |token|) + Le(2, |appId|) + Le(2, |name|)
       + Le(2, |version|) + Le(2, |detail|))
    + (Zeros(18) + (token + Zeros(128 - |token|)) + (appId + Zeros(96 - |appId|)) + (name + Zeros(96 - |name|))
       + (version + Zeros(32 - |version|)) + (detail + Zeros(336 - |detail|)))
  }

  predicate TextField(s: seq<byte>, size: nat) {
    1 <= |s| <= size && forall i :: 0 <= i < |s| ==> s[i] >= 32 && s[i] != 127
  }

  predicate Describes(token: seq<byte>, appId: seq<byte>, name: seq<byte>, version: seq<byte>, detail: seq<byte>) {
    && HexToken(token) && SessionAppId(appId) && |appId| <= 96 && TextField(name, 96) && TextField(version, 32)
    && TextField(detail, 256)
  }

  /** A ready answer to the candidate command (2): a release that may be installed, with its counter, the size of
      its package and its epoch; flag 1 says that it is installable. */
  lemma CandidateFormat(b: seq<byte>, r: Installer.Response)
    requires r.command == 2 && r.status == 0
    ensures Installer.Decode(b) == Some(r) <==>
      var c := r.candidate;
      && r.id > 0 && r.count == 0 && r.installed == Installer.Installed([], [], [], [], [], 0, 0, 0, false, false, false)
      && Describes(c.token, c.appId, c.name, c.version, r.detail) && c.detail == r.detail
      && c.counter > 0 && c.packageSize > 0
      && b == ResponseBytes(2, 0, if c.installable then 1 else 0, r.id, 0, (c.counter, c.packageSize, c.epoch),
                c.token, c.appId, c.name, c.version, r.detail)
  {
    ResponseDecodes(b, r);
    DescribesMeans(r.candidate.token, r.candidate.appId, r.candidate.name, r.candidate.version, r.detail);
    if Installer.ValidResponse(r) {
      ResponseEncoding(r);
    }
    hide Installer.Decode, Installer.Encoded, ResponseBytes, Installer.ValidStrings, ValidText, Describes;
  }

  /** A ready answer to the installed-candidate command (5): an installed release, with its current and previous
      counters and its epoch; flags 1, 2 and 4 say that it is verified, can be rolled back, and is trusted. Without
      trust there is nothing to verify or to roll back to, and the counters are zero. */
  lemma InstalledFormat(b: seq<byte>, r: Installer.Response)
    requires r.command == 5 && r.status == 0
    ensures Installer.Decode(b) == Some(r) <==>
      var c := r.installed;
      && r.id > 0 && r.count == 0 && r.candidate == Installer.Candidate([], [], [], [], [], 0, 0, 0, false)
      && Describes(c.token, c.appId, c.name, c.version, r.detail) && c.detail == r.detail && Trust(c)
      && b == ResponseBytes(5, 0, TrustFlags(c), r.id, 0, (c.current, c.previous, c.epoch),
                c.token, c.appId, c.name, c.version, r.detail)
  {
    ResponseDecodes(b, r);
    InstalledMeans(r);
    DescribesMeans(r.installed.token, r.installed.appId, r.installed.name, r.installed.version, r.detail);
    if Installer.ValidResponse(r) {
      InstalledEncoding(r);
    }
    hide Installer.Decode, Installer.Encoded, Installer.ValidResponse, Installer.Aligned, ResponseBytes, Describes, Trust,
      TrustFlags;
  }

  lemma InstalledEncoding(r: Installer.Response)
    requires r.command == 5 && r.status == 0 && Installer.ValidResponse(r)
    ensures
      var c := r.installed;
      && |c.token| <= 128 && |c.appId| <= 96 && |c.name| <= 96 && |c.version| <= 32 && |r.detail| <= 256
      && Installer.Encoded(r) == ResponseBytes(5, 0, TrustFlags(c), r.id, r.count, (c.current, c.previous, c.epoch),
           c.token, c.appId, c.name, c.version, r.detail)
  {
    ResponseEncoding(r);
    hide Installer.Encoded, Installer.ValidResponse, ResponseBytes;
  }

  predicate Trust(c: Installer.Installed) {
    if c.trusted then c.current > 0 && (c.rollback ==> c.previous > 0)
    else c.current == 0 && c.previous == 0 && !c.verified && !c.rollback
  }

  function TrustFlags(c: Installer.Installed): u16 {
    (if c.verified then 1 else 0) + (if c.rollback then 2 else 0) + (if c.trusted then 4 else 0)
  }

  lemma InstalledMeans(r: Installer.Response)
    requires r.command == 5 && r.status == 0
    ensures Installer.ValidResponse(r) && Installer.Aligned(r) == r <==>
      var c := r.installed;
      && r.id > 0 && r.count == 0 && r.candidate == Installer.Candidate([], [], [], [], [], 0, 0, 0, false)
      && Describes(c.token, c.appId, c.name, c.version, r.detail) && c.detail == r.detail && Trust(c)
  {
    DescribesMeans(r.installed.token, r.installed.appId, r.installed.name, r.installed.version, r.detail);
    hide Installer.ValidStrings, ValidText, Describes;
  }

  /** Any other answer: a detail, and a count when it answers one of the scans (1 and 4). */
  lemma AnswerFormat(b: seq<byte>, r: Installer.Response)
    requires (r.command != 2 && r.command != 5) || r.status != 0
    ensures Installer.Decode(b) == Some(r) <==>
      && 1 <= r.command <= 7 && r.status <= 6 && r.id > 0 && (r.count != 0 ==> r.command == 1 || r.command == 4)
      && r.candidate == Installer.Candidate([], [], [], [], [], 0, 0, 0, false)
      && r.installed == Installer.Installed([], [], [], [], [], 0, 0, 0, false, false, false)
      && TextField(r.detail, 256)
      && b == ResponseBytes(r.command, r.status, 0, r.id, r.count, (0, 0, 0), [], [], [], [], r.detail)
  {
    ResponseDecodes(b, r);
    TextMeans(r.detail, 256);
    if Installer.ValidResponse(r) {
      ResponseEncoding(r);
    }
    hide Installer.Decode, Installer.Encoded, ResponseBytes, ValidText, TextField;
  }

  lemma ResponseDecodes(b: seq<byte>, r: Installer.Response)
    ensures Installer.Decode(b) == Some(r) <==>
      Installer.ValidResponse(r) && Installer.Aligned(r) == r && b == Installer.Encoded(r)
  {
    if Installer.ValidResponse(r) {
      Installer.ResponseRoundTrip(r);
    }
    if Installer.Decode(b) == Some(r) {
      Installer.ResponseIsCanonical(b);
      Installer.ResponseRoundTrip(r);
    }
    hide Installer.Decode, Installer.Encoded, Installer.ValidResponse, Installer.Aligned;
  }

  lemma ResponseEncoding(r: Installer.Response)
    requires Installer.ValidResponse(r)
    ensures Installer.Sized(Installer.ToWire(r))
    ensures
      var w := Installer.ToWire(r);
      Installer.Encoded(r) == ResponseBytes(w.command, w.status, w.flags, w.id, w.count, (w.release, w.second, w.epoch),
        w.token, w.appId, w.name, w.version, w.detail)
  {
    Installer.WireIsSized(r);
    LeBytes(2);
    hide Le, Installer.ValidResponse, Installer.ToWire;
    assert Le(2, 2) == [2, 0];
  }

  lemma TextMeans(s: seq<byte>, size: nat)
    ensures ValidText(s, size) <==> TextField(s, size)
  {
  }

  lemma DescribesMeans(token: seq<byte>, appId: seq<byte>, name: seq<byte>, version: seq<byte>, detail: seq<byte>)
    ensures Describes(token, appId, name, version, detail) <==>
      Installer.ValidStrings(token, appId, name, version) && ValidText(detail, 256)
    ensures Describes(token, appId, name, version, detail) ==>
      |token| <= 128 && |appId| <= 96 && |name| <= 96 && |version| <= 32 && |detail| <= 256
  {
    TokenFormat(token);
    TextMeans(name, 96);
    TextMeans(version, 32);
    TextMeans(detail, 256);
    if SessionAppId(appId) {
      Session.AppIdSize(appId);
    }
    hide SessionAppId, Installer.ValidToken;
  }

  /** "LVSTATE1", version 1, header of 64 bytes, size; counters; epoch, failures, lengths. */
  function ReleaseHeader(s: Release.State): seq<byte>
    requires |s.appId| <= 96
  {
    ([0x4c, 0x56, 0x53, 0x54, 0x41, 0x54, 0x45, 0x31] + [1, 0] + [64, 0] + Le(4, |s.appId| + 320))
    + (Le(8, s.generation) + Le(8, s.current) + Le(8, s.previous) + Le(8, s.high) + Le(8, s.quarantined))
    + (Le(4, s.highEpoch) + Le(2, s.failures) + [|s.appId|] + [32])
  }

  /** The header, three digests, the two identifiers. */
  function ReleaseBytes(s: Release.State): seq<byte>
    requires |s.appId| <= 96
  {
    ReleaseHeader(s) + s.currentDigest + s.previousDigest + s.highDigest + s.appId + s.keyId
  }

  predicate ReleaseFields(s: Release.State) {
    && AppId(s.appId) && LowerHex(s.keyId, 32)
    && s.generation > 0 && 0 < s.current <= s.high && s.failures <= 3
    && s.previous <= s.high && s.previous != s.current && s.quarantined <= s.high && s.quarantined != s.current
    && s.currentDigest != Zeros(64) && s.highDigest != Zeros(64)
    && (s.previousDigest == Zeros(64) <==> s.previous == 0)
    && (s.current == s.high ==> s.currentDigest == s.highDigest)
  }

  /** A release record is these bytes and their checksum. */
  lemma ReleaseFormat(b: seq<byte>, s: Release.State, sha: Release.Sha256)
    requires Release.Available(sha)
    ensures Release.Decode(b, sha) == Release.Ok(s) <==>
      && ReleaseFields(s) && |s.appId| <= 96
      && b == ReleaseBytes(s) + sha(ReleaseBytes(s)).value
  {
    if Release.Decode(b, sha) == Release.Ok(s) {
      Release.EncodeInvertsDecode(b, sha);
    }
    if Release.ValidState(s) {
      Release.DecodeInvertsEncode(s, sha);
      ReleaseBody(s);
    }
    ReleaseFieldsMean(s);
    hide Release.Decode, Release.Body, Release.ValidState, ReleaseFields, ReleaseBytes, Release.TotalSize;
  }

  lemma ReleaseBody(s: Release.State)
    requires Release.ValidState(s)
    ensures |s.appId| <= 96 && |s.keyId| == 32 && Release.Body(s) == ReleaseBytes(s)
  {
    LeBytes(1); LeBytes(64);
    hide Le;
    assert Release.TotalSize(s) == |s.appId| + 320;
    assert Le(2, 1) == [1, 0] && Le(2, 64) == [64, 0];
    assert Release.Header(s) == ReleaseHeader(s);
  }

  lemma ReleaseFieldsMean(s: Release.State)
    ensures Release.ValidState(s) <==> ReleaseFields(s)
    ensures ReleaseFields(s) ==> |s.appId| <= 96
  {
    ZeroIsZeros(s.currentDigest);
    ZeroIsZeros(s.previousDigest);
    ZeroIsZeros(s.highDigest);
    hide Dotted, LowerHex, Zero;
  }

  lemma ZeroIsZeros(s: seq<byte>)
    ensures Zero(s) <==> s == Zeros(|s|)
  {
  }

  /** Dots at `i` and `j`, digits everywhere else, and at least one before, between and after the dots. */
  predicate DotsAt(s: seq<byte>, i: int, j: int) {
    && 0 < i && i + 1 < j && j + 1 < |s| && s[i] == 46 && s[j] == 46
    && forall k :: 0 <= k < |s| && k != i && k != j ==> 48 <= s[k] <= 57
  }

  predicate NumberedVersion(s: seq<byte>) {
    |s| <= 32 && exists i, j :: 0 <= i < j < |s| && DotsAt(s, i, j)
  }

  lemma DotsFormat(s: seq<byte>, i: nat, j: nat)
    requires i < j < |s|
    ensures DotsAt(s, i, j) <==>
      && s[i] == DOT && s[j] == DOT
      && Registry.Digits(s, 0, i) && Registry.Digits(s, i + 1, j) && Registry.Digits(s, j + 1, |s|)
  {
  }

  lemma VersionFormat(s: seq<byte>)
    ensures Registry.ValidVersion(s) <==> NumberedVersion(s)
  {
    hide DotsAt, Registry.Digits;
    forall i, j | 0 <= i < j < |s|
      ensures DotsAt(s, i, j) <==>
        && s[i] == DOT && s[j] == DOT
        && Registry.Digits(s, 0, i) && Registry.Digits(s, i + 1, j) && Registry.Digits(s, j + 1, |s|)
    {
      DotsFormat(s, i, j);
    }
  }

  predicate ApplicationFields(a: Registry.Application) {
    SessionAppId(a.id) && TextField(a.name, 64) && NumberedVersion(a.version) && a.counter > 0 && a.capabilities <= 64
  }

  function ApplicationBytes(a: Registry.Application): seq<byte> {
    (Le(2, |a.id|) + Le(2, |a.name|) + Le(2, |a.version|) + [1, 0] + Le(8, a.counter) + Le(4, a.epoch)
     + Le(4, a.capabilities)) + a.id + a.name + a.version
  }

  function AllBytes(apps: seq<Registry.Application>): seq<byte> {
    if apps == [] then [] else ApplicationBytes(apps[0]) + AllBytes(apps[1..])
  }

  /** "LVREG01", version 1, the number of records, the size of the file; the records. */
  function RegistryBytes(apps: seq<Registry.Application>, size: nat): seq<byte> {
    ([0x4c, 0x56, 0x52, 0x45, 0x47, 0x30, 0x31, 0] + [1, 0] + Le(2, |apps|) + Le(4, size)) + AllBytes(apps)
  }

  /** Up to 64 records by strictly ascending identifier. */
  lemma RegistryFormat(b: seq<byte>, apps: seq<Registry.Application>)
    ensures Registry.Decode(b) == Registry.Ok(apps) <==>
      && 1 <= |apps| <= 64 && (forall i :: 0 <= i < |apps| ==> ApplicationFields(apps[i]))
      && (forall i :: 0 < i < |apps| ==> LexLess(apps[i - 1].id, apps[i].id))
      && b == RegistryBytes(apps, |b|)
  {
    Registry.RegistryIsBijection(b, apps);
    RegistryEncoding(apps, |b|);
    if b == RegistryBytes(apps, |b|) {
      assert |b| == 16 + Registry.Total(apps);
    }
    forall i | 0 <= i < |apps|
      ensures Registry.ValidApplication(apps[i]) <==> ApplicationFields(apps[i])
    {
      ApplicationFieldsMean(apps[i]);
    }
    hide Registry.Decode, Registry.Encode, Registry.Encoded, Registry.ValidApplication, ApplicationFields, RegistryBytes,
      LexLess, Registry.Total;
  }

  lemma RegistryEncoding(apps: seq<Registry.Application>, size: nat)
    ensures |RegistryBytes(apps, size)| == 16 + Registry.Total(apps) == |Registry.Encoded(apps)|
    ensures size == 16 + Registry.Total(apps) ==> Registry.Encoded(apps) == RegistryBytes(apps, size)
  {
    RecordsAreAllBytes(apps);
    LeBytes(1);
    hide Le, AllBytes, Registry.Records, Registry.Total;
    assert Le(2, 1) == [1, 0];
  }

  lemma ApplicationFieldsMean(a: Registry.Application)
    ensures Registry.ValidApplication(a) <==> ApplicationFields(a)
  {
    VersionFormat(a.version);
    TextMeans(a.name, 64);
    hide SessionAppId, ValidText, TextField, Registry.ValidVersion, NumberedVersion;
  }

  lemma {:induction false} RecordsAreAllBytes(apps: seq<Registry.Application>)
    ensures Registry.Records(apps) == AllBytes(apps) && |AllBytes(apps)| == Registry.Total(apps)
  {
    if apps != [] {
      RecordsAreAllBytes(apps[1..]);
      RecordIsBytes(apps[0]);
    }
  }

  lemma RecordIsBytes(a: Registry.Application)
    ensures Registry.Record(a) == ApplicationBytes(a)
  {
    LeBytes(1);
    hide Le;
  }
}
