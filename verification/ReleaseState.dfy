/** The anti-rollback record of one application and its checksummed binary form. */
module ReleaseState {
  import opened Bytes
  import opened Text

  type Digest = s: seq<byte> | |s| == 64 witness Zeros(64)

  const MAGIC: seq<byte> := [0x4c, 0x56, 0x53, 0x54, 0x41, 0x54, 0x45, 0x31]
  const HEADER_SIZE: nat := 64
  const DIGEST_BLOCK_SIZE: nat := 192
  const CHECKSUM_SIZE: nat := 32
  const MAXIMUM_STATE_SIZE: nat := 512

  datatype Status =
    | Valid | InvalidLayout | InvalidValue | ChecksumMismatch
    | CryptoUnavailable | SplitBrain | NoValidSlot

  datatype State = State(
    appId: seq<byte>, keyId: seq<byte>, generation: u64,
    current: u64, previous: u64, high: u64, quarantined: u64,
    highEpoch: u32, failures: u16,
    currentDigest: Digest, previousDigest: Digest, highDigest: Digest)

  datatype Result<+T> = Ok(value: T) | Err(status: Status)

  /** SHA-256 as the crypto provider offers it: a deterministic function, or no provider. */
  type Sha256 = seq<byte> -> Option<seq<byte>>

  ghost predicate Available(sha: Sha256) {
    forall b :: sha(b).Some? && |sha(b).value| == CHECKSUM_SIZE
  }

  predicate ValidState(s: State) {
    && AppId(s.appId) && LowerHex(s.keyId, 32) && s.generation != 0
    && s.current != 0 && s.current <= s.high && s.previous <= s.high && s.quarantined <= s.high
    && s.failures <= 3 && !Zero(s.currentDigest) && !Zero(s.highDigest)
    && (s.previous == 0) == Zero(s.previousDigest)
    && (s.high == s.current ==> s.highDigest == s.currentDigest)
    && s.previous != s.current && s.quarantined != s.current
  }

  function TotalSize(s: State): nat {
    HEADER_SIZE + DIGEST_BLOCK_SIZE + |s.appId| + |s.keyId| + CHECKSUM_SIZE
  }

  /** The first 64 bytes: magic, version, header size, total size, counters, string lengths. */
  function Header(s: State): seq<byte> {
    Prologue(s) + Counters(s) + Lengths(s)
  }

  function Prologue(s: State): seq<byte> {
    MAGIC + Le(2, 1) + Le(2, HEADER_SIZE) + Le(4, TotalSize(s))
  }

  function Counters(s: State): seq<byte> {
    Le(8, s.generation) + Le(8, s.current) + Le(8, s.previous) + Le(8, s.high) + Le(8, s.quarantined)
  }

  function Lengths(s: State): seq<byte> {
    Le(4, s.highEpoch) + Le(2, s.failures) + [|s.appId| % 256] + [|s.keyId| % 256]
  }

  function Body(s: State): seq<byte> {
    Header(s) + s.currentDigest + s.previousDigest + s.highDigest + s.appId + s.keyId
  }

  function Encode(s: State, sha: Sha256): Result<seq<byte>> {
    if !ValidState(s) then Err(InvalidValue)
    else if TotalSize(s) > MAXIMUM_STATE_SIZE then Err(InvalidLayout)
    else if sha(Body(s)).None? then Err(CryptoUnavailable)
    else Ok(Body(s) + sha(Body(s)).value)
  }

  method AppendPrologue(s: State, totalSize: nat) returns (bytes: seq<byte>)
    requires totalSize == TotalSize(s)
    ensures bytes == Prologue(s)
  {
    bytes := MAGIC;
    bytes := AppendLe(bytes, 2, 1);
    bytes := AppendLe(bytes, 2, HEADER_SIZE);
    bytes := AppendLe(bytes, 4, totalSize);
  }

  method AppendCounters(s: State) returns (bytes: seq<byte>)
    ensures bytes == Counters(s)
  {
    bytes := AppendLe([], 8, s.generation);
    bytes := AppendLe(bytes, 8, s.current);
    bytes := AppendLe(bytes, 8, s.previous);
    bytes := AppendLe(bytes, 8, s.high);
    bytes := AppendLe(bytes, 8, s.quarantined);
  }

  method AppendLengths(s: State) returns (bytes: seq<byte>)
    ensures bytes == Lengths(s)
  {
    bytes := AppendLe([], 4, s.highEpoch);
    bytes := AppendLe(bytes, 2, s.failures);
    bytes := bytes + [|s.appId| % 256];
    bytes := bytes + [|s.keyId| % 256];
  }

  /** Builds the record by appending field after field. */
  method EncodeReleaseState(s: State, sha: Sha256) returns (r: Result<seq<byte>>)
    ensures r == Encode(s, sha)
  {
    if !ValidState(s) {
      return Err(InvalidValue);
    }
    var totalSize := HEADER_SIZE + DIGEST_BLOCK_SIZE + |s.appId| + |s.keyId| + CHECKSUM_SIZE;
    if totalSize > MAXIMUM_STATE_SIZE {
      return Err(InvalidLayout);
    }
    var bytes := AppendPrologue(s, totalSize);
    var counters := AppendCounters(s);
    var lengths := AppendLengths(s);
    bytes := bytes + counters + lengths;
    bytes := bytes + s.currentDigest;
    bytes := bytes + s.previousDigest;
    bytes := bytes + s.highDigest;
    bytes := bytes + s.appId;
    bytes := bytes + s.keyId;
    var checksum := sha(bytes);
    if checksum.None? {
      return Err(CryptoUnavailable);
    }
    r := Ok(bytes + checksum.value);
  }

  predicate LayoutOk(b: seq<byte>) {
    && HEADER_SIZE + DIGEST_BLOCK_SIZE + CHECKSUM_SIZE <= |b| <= MAXIMUM_STATE_SIZE
    && b[0..8] == MAGIC && FromLe(b[8..10]) == 1
    && FromLe(b[10..12]) == HEADER_SIZE && FromLe(b[12..16]) == |b|
  }

  predicate LengthOk(b: seq<byte>)
    requires |b| >= HEADER_SIZE
  {
    && 0 < b[62] <= 96 && b[63] == 32
    && HEADER_SIZE + DIGEST_BLOCK_SIZE + b[62] + b[63] + CHECKSUM_SIZE == |b|
  }

  function Fields(b: seq<byte>): (s: State)
    requires LayoutOk(b) && LengthOk(b)
  {
    FromLeBound(b[16..24]); FromLeBound(b[24..32]); FromLeBound(b[32..40]);
    FromLeBound(b[40..48]); FromLeBound(b[48..56]); FromLeBound(b[56..60]);
    FromLeBound(b[60..62]); Widths();
    var appSize: nat := b[62];
    State(
      b[256..256 + appSize], b[256 + appSize..288 + appSize], FromLe(b[16..24]),
      FromLe(b[24..32]), FromLe(b[32..40]), FromLe(b[40..48]), FromLe(b[48..56]),
      FromLe(b[56..60]), FromLe(b[60..62]),
      b[64..128], b[128..192], b[192..256])
  }

  function Decode(b: seq<byte>, sha: Sha256): Result<State> {
    if !LayoutOk(b) then Err(InvalidLayout)
    else if !LengthOk(b) then Err(InvalidLayout)
    else if sha(b[..|b| - CHECKSUM_SIZE]).None? then Err(CryptoUnavailable)
    else if sha(b[..|b| - CHECKSUM_SIZE]).value != b[|b| - CHECKSUM_SIZE..] then Err(ChecksumMismatch)
    else if !ValidState(Fields(b)) then Err(InvalidValue)
    else Ok(Fields(b))
  }

  /** Every valid state fits: the size error of the encoder cannot occur. */
  lemma SizeAlwaysFits(s: State, sha: Sha256)
    requires ValidState(s) && Available(sha)
    ensures Encode(s, sha).Ok? && |Encode(s, sha).value| == TotalSize(s) <= 416
  {
    assert |Body(s)| == TotalSize(s) - CHECKSUM_SIZE;
    assert sha(Body(s)).Some? && |sha(Body(s)).value| == CHECKSUM_SIZE;
  }

  /** `b` starts with the header of `s`, field by field. */
  ghost predicate HasHeader(b: seq<byte>, s: State)
    requires |b| >= HEADER_SIZE
  {
    && b[0..8] == MAGIC && b[8..10] == Le(2, 1)
    && b[10..12] == Le(2, HEADER_SIZE) && b[12..16] == Le(4, TotalSize(s))
    && b[16..24] == Le(8, s.generation) && b[24..32] == Le(8, s.current)
    && b[32..40] == Le(8, s.previous) && b[40..48] == Le(8, s.high)
    && b[48..56] == Le(8, s.quarantined) && b[56..60] == Le(4, s.highEpoch)
    && b[60..62] == Le(2, s.failures)
    && b[62] == |s.appId| % 256 && b[63] == |s.keyId| % 256
  }

  /** The same, as the numbers the decoder reads. */
  ghost predicate ReadsHeader(b: seq<byte>, s: State)
    requires |b| >= HEADER_SIZE
  {
    && b[0..8] == MAGIC && FromLe(b[8..10]) == 1
    && FromLe(b[10..12]) == HEADER_SIZE && FromLe(b[12..16]) == TotalSize(s)
    && FromLe(b[16..24]) == s.generation && FromLe(b[24..32]) == s.current
    && FromLe(b[32..40]) == s.previous && FromLe(b[40..48]) == s.high
    && FromLe(b[48..56]) == s.quarantined && FromLe(b[56..60]) == s.highEpoch
    && FromLe(b[60..62]) == s.failures
    && b[62] == |s.appId| % 256 && b[63] == |s.keyId| % 256
  }

  lemma HeaderIsRead(b: seq<byte>, s: State)
    requires |b| >= HEADER_SIZE && TotalSize(s) < 0x1_0000_0000
    ensures HasHeader(b, s) <==> ReadsHeader(b, s)
  {
    Widths();
    if HasHeader(b, s) {
      LeInverse(2, 1); LeInverse(2, HEADER_SIZE); LeInverse(4, TotalSize(s));
      LeInverse(8, s.generation); LeInverse(8, s.current); LeInverse(8, s.previous);
      LeInverse(8, s.high); LeInverse(8, s.quarantined); LeInverse(4, s.highEpoch);
      LeInverse(2, s.failures);
    }
    if ReadsHeader(b, s) {
      LeOfFromLe(b[8..10]); LeOfFromLe(b[10..12]); LeOfFromLe(b[12..16]);
      LeOfFromLe(b[16..24]); LeOfFromLe(b[24..32]); LeOfFromLe(b[32..40]); LeOfFromLe(b[40..48]);
      LeOfFromLe(b[48..56]); LeOfFromLe(b[56..60]); LeOfFromLe(b[60..62]);
    }
  }

  lemma PrologueSlices(s: State)
    ensures var p := Prologue(s);
      && |p| == 16 && p[0..8] == MAGIC && p[8..10] == Le(2, 1)
      && p[10..12] == Le(2, HEADER_SIZE) && p[12..16] == Le(4, TotalSize(s))
  {
  }

  lemma CountersSlices(s: State)
    ensures var c := Counters(s);
      && |c| == 40 && c[0..8] == Le(8, s.generation) && c[8..16] == Le(8, s.current)
      && c[16..24] == Le(8, s.previous) && c[24..32] == Le(8, s.high)
      && c[32..40] == Le(8, s.quarantined)
  {
  }

  lemma LengthsSlices(s: State)
    ensures var l := Lengths(s);
      && |l| == 8 && l[0..4] == Le(4, s.highEpoch) && l[4..6] == Le(2, s.failures)
      && l[6] == |s.appId| % 256 && l[7] == |s.keyId| % 256
  {
  }

  lemma HeaderHasHeader(s: State)
    ensures |Header(s)| == HEADER_SIZE && HasHeader(Header(s), s)
  {
    PrologueSlices(s);
    CountersSlices(s);
    LengthsSlices(s);
    HeaderParts(Prologue(s), Counters(s), Lengths(s));
  }

  lemma HeaderParts(p: seq<byte>, c: seq<byte>, l: seq<byte>)
    requires |p| == 16 && |c| == 40 && |l| == 8
    ensures var h := p + c + l;
      && h[0..8] == p[0..8] && h[8..10] == p[8..10] && h[10..12] == p[10..12] && h[12..16] == p[12..16]
      && h[16..24] == c[0..8] && h[24..32] == c[8..16] && h[32..40] == c[16..24]
      && h[40..48] == c[24..32] && h[48..56] == c[32..40]
      && h[56..60] == l[0..4] && h[60..62] == l[4..6] && h[62] == l[6] && h[63] == l[7]
  {
  }

  lemma HeaderPrefix(b: seq<byte>, s: State)
    requires |b| >= HEADER_SIZE
    ensures HasHeader(b, s) <==> b[..HEADER_SIZE] == Header(s)
  {
    var h := Header(s);
    HeaderHasHeader(s);
    if HasHeader(b, s) {
      Glue(b, h, 8, 10); Glue(b, h, 10, 12); Glue(b, h, 12, 16); Glue(b, h, 16, 24);
      Glue(b, h, 24, 32); Glue(b, h, 32, 40); Glue(b, h, 40, 48); Glue(b, h, 48, 56);
      Glue(b, h, 56, 60); Glue(b, h, 60, 62);
      assert b[62..64] == [b[62], b[63]] && h[62..64] == [h[62], h[63]];
      Glue(b, h, 62, 64);
    }
    if b[..HEADER_SIZE] == h {
      assert b == h + b[HEADER_SIZE..];
    }
  }

  /** `b` holds every field of `s` at its offset. */
  ghost predicate Laid(b: seq<byte>, s: State) {
    && |b| == TotalSize(s) && |s.appId| <= 96 && |s.keyId| == 32
    && HasHeader(b, s)
    && b[64..128] == s.currentDigest && b[128..192] == s.previousDigest && b[192..256] == s.highDigest
    && b[256..256 + |s.appId|] == s.appId
    && b[256 + |s.appId|..288 + |s.appId|] == s.keyId
  }

  lemma BodySlices(s: State, a: seq<byte>)
    requires |s.keyId| == 32 && |a| == TotalSize(s) - CHECKSUM_SIZE
    ensures a == Body(s) <==>
      && a[..HEADER_SIZE] == Header(s)
      && a[64..128] == s.currentDigest && a[128..192] == s.previousDigest && a[192..256] == s.highDigest
      && a[256..256 + |s.appId|] == s.appId
      && a[256 + |s.appId|..288 + |s.appId|] == s.keyId
  {
    var n := |s.appId|;
    HeaderHasHeader(s);
    var body := Body(s);
    assert body[..HEADER_SIZE] == Header(s) && body[64..128] == s.currentDigest
      && body[128..192] == s.previousDigest && body[192..256] == s.highDigest
      && body[256..256 + n] == s.appId && body[256 + n..288 + n] == s.keyId;
    assert a == a[..64] + a[64..128] + a[128..192] + a[192..256] + a[256..256 + n] + a[256 + n..288 + n];
  }

  lemma LaidIsBody(s: State, b: seq<byte>)
    requires |s.appId| <= 96 && |s.keyId| == 32 && |b| == TotalSize(s)
    ensures Laid(b, s) <==> b[..|b| - CHECKSUM_SIZE] == Body(s)
  {
    var a, n := b[..|b| - CHECKSUM_SIZE], |s.appId|;
    BodySlices(s, a);
    HeaderPrefix(b, s);
    assert a == b[0..288 + n] && b[0..64] == b[..64];
    SubSlice(b, 0, 288 + n, 0, 64); SubSlice(b, 0, 288 + n, 64, 128); SubSlice(b, 0, 288 + n, 128, 192);
    SubSlice(b, 0, 288 + n, 192, 256); SubSlice(b, 0, 288 + n, 256, 256 + n);
    SubSlice(b, 0, 288 + n, 256 + n, 288 + n);
  }

  lemma LaidIsRead(s: State, b: seq<byte>)
    requires 0 < |s.appId|
    ensures Laid(b, s) <==> LayoutOk(b) && LengthOk(b) && Fields(b) == s
  {
    hide FromLe, Le, HasHeader;
    if Laid(b, s) {
      HeaderIsRead(b, s);
      assert LayoutOk(b) && LengthOk(b);
      assert Fields(b) == s;
    }
    if LayoutOk(b) && LengthOk(b) && Fields(b) == s {
      assert ReadsHeader(b, s);
      HeaderIsRead(b, s);
    }
  }

  /** What is written is read back: decoding the encoding of a valid state gives that state. */
  lemma DecodeInvertsEncode(s: State, sha: Sha256)
    requires ValidState(s) && Available(sha)
    ensures Encode(s, sha).Ok? && Decode(Encode(s, sha).value, sha) == Ok(s)
  {
    SizeAlwaysFits(s, sha);
    var b := Encode(s, sha).value;
    assert b[..|b| - CHECKSUM_SIZE] == Body(s) && b[|b| - CHECKSUM_SIZE..] == sha(Body(s)).value;
    LaidIsBody(s, b);
    LaidIsRead(s, b);
  }

  /** The encoding is canonical: every byte string the decoder accepts is the encoding of the
      state it decodes to. */
  lemma EncodeInvertsDecode(b: seq<byte>, sha: Sha256)
    requires Decode(b, sha).Ok?
    ensures Encode(Decode(b, sha).value, sha) == Ok(b)
  {
    var s := Decode(b, sha).value;
    LaidIsRead(s, b);
    LaidIsBody(s, b);
    assert b == b[..|b| - CHECKSUM_SIZE] + b[|b| - CHECKSUM_SIZE..];
  }

  datatype Selected = Selected(result: Result<State>, slot: nat, degraded: bool)

  /** Picks the state to trust from the two slots, newest complete generation first. */
  function Select(slotA: seq<byte>, slotB: seq<byte>, sha: Sha256): Selected {
    var a := Decode(slotA, sha);
    var b := Decode(slotB, sha);
    if a.Err? && b.Err? then Selected(Err(NoValidSlot), 0, true)
    else if a.Ok? && b.Ok? && a.value.generation == b.value.generation && slotA != slotB then
      Selected(Err(SplitBrain), 0, false)
    else if a.Ok? && (b.Err? || a.value.generation >= b.value.generation) then
      Selected(a, 1, b.Err?)
    else Selected(b, 2, a.Err?)
  }

  /** Selection rejects two slots exactly when neither decodes, or both decode to different
      states of one generation; otherwise no decodable slot is newer than the one selected. */
  lemma SelectIsNewest(slotA: seq<byte>, slotB: seq<byte>, sha: Sha256)
    requires Available(sha)
    ensures
      var a, b, r := Decode(slotA, sha), Decode(slotB, sha), Select(slotA, slotB, sha).result;
      && (r == Err(NoValidSlot) <==> a.Err? && b.Err?)
      && (r == Err(SplitBrain) <==>
            a.Ok? && b.Ok? && a.value.generation == b.value.generation && a.value != b.value)
      && (r.Ok? ==>
            && (r == a || r == b)
            && (a.Ok? ==> a.value.generation <= r.value.generation)
            && (b.Ok? ==> b.value.generation <= r.value.generation))
      && (r.Err? ==> r.status == NoValidSlot || r.status == SplitBrain)
  {
    if Decode(slotA, sha).Ok? {
      EncodeInvertsDecode(slotA, sha);
    }
    if Decode(slotB, sha).Ok? {
      EncodeInvertsDecode(slotB, sha);
    }
  }

  /** What each refusal of the decoder means. */
  lemma DecodeErrorMeans(b: seq<byte>, sha: Sha256)
    ensures
      var r, n := Decode(b, sha), |b| - 32;
      var layout := LayoutOk(b) && LengthOk(b);
      && (r == Err(InvalidLayout) <==> !layout)
      && (r == Err(CryptoUnavailable) <==> layout && sha(b[..n]) == None)
      && (r == Err(ChecksumMismatch) <==> layout && sha(b[..n]).Some? && sha(b[..n]).value != b[n..])
      && (r == Err(InvalidValue) <==> layout && sha(b[..n]) == Some(b[n..]) && !ValidState(Fields(b)))
  {
    hide Fields, ValidState;
  }
}
