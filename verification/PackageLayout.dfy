/** The structure of a package: header arithmetic, and the walk over the file table. */
module PackageLayout {
  import opened Bytes
  import opened Text
  import opened Paths
  import opened Package
  import Json = CanonicalJson
  import JsonReader

  const HEADER_SIZE: nat := 64
  const SIGNATURE_SIZE: nat := 96
  const RECORD_SIZE: nat := 56
  const MAXIMUM_PACKAGE_SIZE: nat := 0x1000_0000
  const MAXIMUM_MANIFEST_SIZE: nat := 0x1_0000
  const MAXIMUM_FILES: nat := 256
  const MAGIC: seq<byte> := [0x4c, 0x56, 0x41, 0x50, 0x50, 0x30, 0x30, 0x31]
  const MODE_FILE: nat := 0x1a4        // 0644
  const MODE_EXECUTABLE: nat := 0x1ed  // 0755
  const TWO_64: int := 0x1_0000_0000_0000_0000

  type Sha256 = seq<byte> -> Option<seq<byte>>

  datatype Header = Header(
    manifestSize: u32, entryCount: u32, tableSize: u64, payloadSize: u64,
    unsignedSize: u64, totalSize: u64, suite: u32, reserved: u32)

  function ReadHeader(b: seq<byte>): Header
    requires |b| >= HEADER_SIZE
  {
    Widths();
    FromLeBound(b[16..20]); FromLeBound(b[20..24]); FromLeBound(b[24..32]); FromLeBound(b[32..40]);
    FromLeBound(b[40..48]); FromLeBound(b[48..56]); FromLeBound(b[56..60]); FromLeBound(b[60..64]);
    Header(
      FromLe(b[16..20]), FromLe(b[20..24]), FromLe(b[24..32]), FromLe(b[32..40]),
      FromLe(b[40..48]), FromLe(b[48..56]), FromLe(b[56..60]), FromLe(b[60..64]))
  }

  predicate PreludeOk(b: seq<byte>) {
    && HEADER_SIZE <= |b| <= MAXIMUM_PACKAGE_SIZE + SIGNATURE_SIZE
    && b[0..8] == MAGIC && FromLe(b[8..10]) == 1 && FromLe(b[10..12]) == HEADER_SIZE
    && FromLe(b[12..16]) <= 1
  }

  predicate Development(b: seq<byte>)
    requires |b| >= HEADER_SIZE
  {
    FromLe(b[12..16]) == 1
  }

  function CheckedAdd(left: u64, right: u64): Option<u64> {
    if right > U64_MAX - left then None else Some(left + right)
  }

  function Envelope(development: bool): nat { if development then 0 else SIGNATURE_SIZE }

  /** The layout check, with the 64-bit sums of the source: the three checked ones and the last,
      which may wrap. */
  predicate LayoutOk(h: Header, size: nat, development: bool) {
    && 0 < h.manifestSize <= MAXIMUM_MANIFEST_SIZE && 0 < h.entryCount <= MAXIMUM_FILES
    && h.suite == 1 && h.reserved == 0
    && var one := CheckedAdd(HEADER_SIZE, h.manifestSize);
    && one.Some?
    && var two := CheckedAdd(one.value, h.tableSize);
    && two.Some?
    && var three := CheckedAdd(two.value, h.payloadSize);
    && three == Some(h.unsignedSize) && h.totalSize == size
    && h.totalSize == (h.unsignedSize + Envelope(development)) % TWO_64
  }

  function TableStart(h: Header): nat { HEADER_SIZE + h.manifestSize }
  function PayloadStart(h: Header): nat { TableStart(h) + h.tableSize }

  /** The layout check bounds every region by the package exactly when the package is at least as
      long as its envelope; the three inner sums never overflow. */
  lemma LayoutFits(h: Header, size: nat, development: bool)
    requires LayoutOk(h, size, development) && size <= MAXIMUM_PACKAGE_SIZE + SIGNATURE_SIZE
    ensures PayloadStart(h) + h.payloadSize == h.unsignedSize
    ensures PayloadStart(h) + h.payloadSize + Envelope(development) == size <==>
      development || size >= SIGNATURE_SIZE
    ensures PayloadStart(h) + h.payloadSize <= size <==> development || size >= SIGNATURE_SIZE
  {
  }

  /** Below that length the last sum can wrap: this header passes the layout check for a package
      of 95 bytes. */
  lemma LayoutCanWrap()
    ensures
      var h := Header(1, 1, 0, 0xffff_ffff_ffff_ffbe, 0xffff_ffff_ffff_ffff, 95, 1, 0);
      LayoutOk(h, 95, false) && PayloadStart(h) + h.payloadSize > 95
  {
  }

  datatype Status =
    | InvalidHeader | InvalidLayout | InvalidManifest | InvalidEntry | InvalidPath
    | HashMismatch | CryptoUnavailable | DevelopmentRejected

  /** `PastEnd` marks a read outside the buffer, of which the source says nothing. */
  datatype Outcome = Verified(payloadStart: nat, files: seq<File>) | Refused(status: Status) | PastEnd

  /** Total size of the first `n` files. */
  function SizeUpTo(files: seq<File>, n: nat): nat
    requires n <= |files|
  {
    if n == 0 then 0 else SizeUpTo(files, n - 1) + files[n - 1].size
  }

  /** The table record of a file whose content starts at `offset` of the payload. */
  function Record(f: File, offset: nat): (r: seq<byte>)
    ensures |r| == RECORD_SIZE + |f.path|
  {
    RecordHead(f, offset) + f.sha256 + f.path
  }

  function RecordHead(f: File, offset: nat): (r: seq<byte>)
    ensures |r| == 24
  {
    Le(2, |f.path|) + Le(2, f.mode) + Le(4, 0) + Le(8, f.size) + Le(8, offset)
  }

  /** The records of the first `n` files, their contents laid end to end. */
  function Table(files: seq<File>, n: nat): seq<byte>
    requires n <= |files|
  {
    if n == 0 then [] else Table(files, n - 1) + Record(files[n - 1], SizeUpTo(files, n - 1))
  }

  predicate EntryOk(b: seq<byte>, h: Header, files: seq<File>, i: nat, sha: Sha256)
    requires PayloadStart(h) + h.payloadSize <= |b| && i < |files|
  {
    var f, offset := files[i], SizeUpTo(files, i);
    && 0 < |f.path| <= MAXIMUM_PATH_SIZE && ValidPath(f.path)
    && (f.mode == MODE_FILE || f.mode == MODE_EXECUTABLE)
    && (i > 0 ==> LexLess(files[i - 1].path, f.path))
    && offset + f.size <= h.payloadSize
    && sha(b[PayloadStart(h) + offset..PayloadStart(h) + offset + f.size]) == Some(f.sha256)
  }

  /** The table is the canonical listing of the manifest's files, laid end to end over the whole
      payload. */
  ghost predicate TableOk(b: seq<byte>, h: Header, files: seq<File>, sha: Sha256) {
    && PayloadStart(h) + h.payloadSize <= |b|
    && (forall i :: 0 <= i < |files| ==> EntryOk(b, h, files, i, sha))
    && b[TableStart(h)..PayloadStart(h)] == Table(files, |files|)
    && SizeUpTo(files, |files|) == h.payloadSize
  }

  /** Whether the record at `cursor` is the one of `f`, as the loop reads it. */
  predicate RecordReads(b: seq<byte>, cursor: nat, f: File, offset: nat)
    requires cursor + RECORD_SIZE <= |b|
  {
    && FromLe(b[cursor..cursor + 2]) == |f.path| && FromLe(b[cursor + 2..cursor + 4]) == f.mode
    && FromLe(b[cursor + 4..cursor + 8]) == 0 && FromLe(b[cursor + 8..cursor + 16]) == f.size
    && FromLe(b[cursor + 16..cursor + 24]) == offset && b[cursor + 24..cursor + 56] == f.sha256
    && cursor + RECORD_SIZE + |f.path| <= |b|
    && b[cursor + RECORD_SIZE..cursor + RECORD_SIZE + |f.path|] == f.path
  }

  lemma RecordSlices(f: File, offset: nat)
    ensures
      var r := Record(f, offset);
      && r[0..2] == Le(2, |f.path|) && r[2..4] == Le(2, f.mode) && r[4..8] == Le(4, 0)
      && r[8..16] == Le(8, f.size) && r[16..24] == Le(8, offset) && r[24..56] == f.sha256
      && r[56..] == f.path
  {
    var head := RecordHead(f, offset);
    assert head[0..2] == Le(2, |f.path|) && head[2..4] == Le(2, f.mode) && head[4..8] == Le(4, 0)
      && head[8..16] == Le(8, f.size) && head[16..24] == Le(8, offset);
    HeadThenRest(head, f.sha256, f.path);
  }

  lemma HeadThenRest(head: seq<byte>, digest: seq<byte>, path: seq<byte>)
    requires |head| == 24 && |digest| == 32
    ensures
      var r := head + digest + path;
      && r[0..2] == head[0..2] && r[2..4] == head[2..4] && r[4..8] == head[4..8]
      && r[8..16] == head[8..16] && r[16..24] == head[16..24] && r[24..56] == digest && r[56..] == path
  {
  }

  lemma RecordIsRead(r: seq<byte>, f: File, offset: nat)
    requires |f.path| < 0x1_0000 && offset < TWO_64 && |r| == RECORD_SIZE + |f.path|
    ensures RecordReads(r, 0, f, offset) <==> r == Record(f, offset)
  {
    Widths();
    RecordSlices(f, offset);
    assert r[56..56 + |f.path|] == r[56..];
    if r == Record(f, offset) {
      LeInverse(2, |f.path|); LeInverse(2, f.mode); LeInverse(4, 0);
      LeInverse(8, f.size); LeInverse(8, offset);
    }
    if RecordReads(r, 0, f, offset) {
      var s := Record(f, offset);
      LeOfFromLe(r[0..2]); LeOfFromLe(r[2..4]); LeOfFromLe(r[4..8]);
      LeOfFromLe(r[8..16]); LeOfFromLe(r[16..24]);
      assert r[..2] == r[0..2] && s[..2] == s[0..2];
      Glue(r, s, 2, 4); Glue(r, s, 4, 8); Glue(r, s, 8, 16); Glue(r, s, 16, 24); Glue(r, s, 24, 56);
      assert r == r[..56] + r[56..] && s == s[..56] + s[56..];
    }
  }

  lemma RecordAt(b: seq<byte>, cursor: nat, f: File, offset: nat)
    requires |f.path| < 0x1_0000 && offset < TWO_64 && cursor + RECORD_SIZE + |f.path| <= |b|
    ensures RecordReads(b, cursor, f, offset)
      <==> b[cursor..cursor + RECORD_SIZE + |f.path|] == Record(f, offset)
  {
    var end := cursor + RECORD_SIZE + |f.path|;
    var r := b[cursor..end];
    RecordIsRead(r, f, offset);
    SubSlice(b, cursor, end, 0, 2); SubSlice(b, cursor, end, 2, 4); SubSlice(b, cursor, end, 4, 8);
    SubSlice(b, cursor, end, 8, 16); SubSlice(b, cursor, end, 16, 24); SubSlice(b, cursor, end, 24, 56);
    SubSlice(b, cursor, end, 56, 56 + |f.path|);
  }

  lemma {:induction false} TableGrows(files: seq<File>, i: nat, n: nat)
    requires i <= n <= |files|
    ensures Table(files, i) <= Table(files, n) && SizeUpTo(files, i) <= SizeUpTo(files, n)
  {
    if i < n {
      TableGrows(files, i, n - 1);
    }
  }

  /** Where the record of file `i` stands in a table. */
  lemma TableHolds(t: seq<byte>, files: seq<File>, i: nat)
    requires i < |files| && t == Table(files, |files|)
    ensures
      var at := |Table(files, i)|;
      && at + RECORD_SIZE + |files[i].path| <= |t|
      && t[at..at + RECORD_SIZE + |files[i].path|] == Record(files[i], SizeUpTo(files, i))
  {
    hide Table, SizeUpTo, Record;
    TableGrows(files, i + 1, |files|);
    TableStep(files, i);
    PrefixSlice(Table(files, i + 1), Table(files, i), Record(files[i], SizeUpTo(files, i)), t);
  }

  lemma TableStep(files: seq<File>, i: nat)
    requires i < |files|
    ensures Table(files, i + 1) == Table(files, i) + Record(files[i], SizeUpTo(files, i))
  {
    hide Record;
  }

  function WithOffsets(files: seq<File>): (r: seq<File>)
    ensures |r| == |files|
    ensures forall i :: 0 <= i < |files| ==> r[i] == files[i].(offset := AsU64(SizeUpTo(files, i)))
  {
    seq(|files|, i requires 0 <= i < |files| => files[i].(offset := AsU64(SizeUpTo(files, i))))
  }

  function AsU64(x: nat): u64 { if x < TWO_64 then x else x % TWO_64 }

  /** If the table is in order then so is the entry the walk has reached. */
  lemma EntryReached(b: seq<byte>, h: Header, files: seq<File>, i: nat, cursor: nat, sha: Sha256)
    requires PayloadStart(h) + h.payloadSize <= |b| <= MAXIMUM_PACKAGE_SIZE + SIGNATURE_SIZE
    requires i < |files| && cursor == TableStart(h) + |Table(files, i)|
    requires TableOk(b, h, files, sha)
    ensures cursor + RECORD_SIZE + |files[i].path| <= PayloadStart(h)
    ensures EntryOk(b, h, files, i, sha) && RecordReads(b, cursor, files[i], SizeUpTo(files, i))
  {
    hide Record, Table, ValidPath, RecordReads;
    assert EntryOk(b, h, files, i, sha);
    var t := b[TableStart(h)..PayloadStart(h)];
    TableHolds(t, files, i);
    var at, end := |Table(files, i)|, |Table(files, i)| + RECORD_SIZE + |files[i].path|;
    SubSlice(b, TableStart(h), PayloadStart(h), at, end);
    RecordAt(b, cursor, files[i], SizeUpTo(files, i));
  }

  /** The first check that an entry fails, in the order in which they are made. A record outside the
      buffer is never looked at further. */
  function EntryProblem(b: seq<byte>, h: Header, files: seq<File>, i: nat, at: nat, expected: nat, sha: Sha256)
    : Option<Outcome>
    requires i < |files| && at <= PayloadStart(h)
    requires PayloadStart(h) + h.payloadSize <= |b| || |b| < at + RECORD_SIZE
  {
    var file, cursor := files[i], at + RECORD_SIZE;
    if PayloadStart(h) - at < RECORD_SIZE then Some(Refused(InvalidEntry))
    else if cursor > |b| then Some(PastEnd)
    else
      var pathSize, mode, size := FromLe(b[at..at + 2]), FromLe(b[at + 2..at + 4]), FromLe(b[at + 8..at + 16]);
      if pathSize == 0 || pathSize > MAXIMUM_PATH_SIZE || pathSize > PayloadStart(h) - cursor
        || FromLe(b[at + 4..at + 8]) != 0 || (mode != MODE_FILE && mode != MODE_EXECUTABLE)
        || FromLe(b[at + 16..at + 24]) != expected || expected > h.payloadSize || size > h.payloadSize - expected
      then Some(Refused(InvalidEntry))
      else
        var path := b[cursor..cursor + pathSize];
        var content := b[PayloadStart(h) + expected..PayloadStart(h) + expected + size];
        if !ValidPath(path) then Some(Refused(InvalidPath))
        else if (i > 0 && !LexLess(files[i - 1].path, path))
          || file.path != path || file.mode != mode || file.size != size || file.sha256 != b[at + 24..at + 56]
        then Some(Refused(InvalidEntry))
        else if sha(content).None? then Some(Refused(CryptoUnavailable))
        else if sha(content).value != file.sha256 then Some(Refused(HashMismatch))
        else None
  }

  /** An entry has no problem exactly when the record is the one of the file that is expected there. */
  lemma EntryAccepted(b: seq<byte>, h: Header, files: seq<File>, i: nat, at: nat, sha: Sha256)
    requires i < |files| && at <= PayloadStart(h)
    requires PayloadStart(h) + h.payloadSize <= |b| || |b| < at + RECORD_SIZE
    ensures EntryProblem(b, h, files, i, at, SizeUpTo(files, i), sha).None? <==>
      && PayloadStart(h) + h.payloadSize <= |b|
      && at + RECORD_SIZE + |files[i].path| <= PayloadStart(h)
      && EntryOk(b, h, files, i, sha) && RecordReads(b, at, files[i], SizeUpTo(files, i))
    ensures EntryProblem(b, h, files, i, at, SizeUpTo(files, i), sha).None? ==>
      |files[i].path| <= MAXIMUM_PATH_SIZE && SizeUpTo(files, i) + files[i].size <= h.payloadSize
  {
    hide ValidPath, LexLess, SizeUpTo;
  }

  /** Reads and checks one entry. */
  method ReadEntry(b: seq<byte>, h: Header, files: seq<File>, index: nat, at: nat, expected: nat, sha: Sha256)
    returns (problem: Option<Outcome>)
    requires index < |files| && at <= PayloadStart(h)
    requires PayloadStart(h) + h.payloadSize <= |b| || |b| < at + RECORD_SIZE
    ensures problem == EntryProblem(b, h, files, index, at, expected, sha)
  {
    hide ValidPath, LexLess;
    var payloadStart := PayloadStart(h);
    var file := files[index];
    if payloadStart - at < RECORD_SIZE {
      return Some(Refused(InvalidEntry));
    }
    if at + RECORD_SIZE > |b| {
      return Some(PastEnd);
    }
    var pathSize := GetLe(b, at, 2);
    var mode := GetLe(b, at + 2, 2);
    var flags := GetLe(b, at + 4, 4);
    var fileSize := GetLe(b, at + 8, 8);
    var offset := GetLe(b, at + 16, 8);
    var cursor := at + RECORD_SIZE;
    if pathSize == 0 || pathSize > MAXIMUM_PATH_SIZE || pathSize > payloadStart - cursor || flags != 0
      || (mode != MODE_FILE && mode != MODE_EXECUTABLE) || offset != expected
      || offset > h.payloadSize || fileSize > h.payloadSize - offset
    {
      return Some(Refused(InvalidEntry));
    }
    var path := b[cursor..cursor + pathSize];
    var pathOk := CheckPath(path);
    if !pathOk {
      return Some(Refused(InvalidPath));
    }
    if index > 0 && !LexLess(files[index - 1].path, path) {
      return Some(Refused(InvalidEntry));
    }
    if file.path != path || file.mode != mode || file.size != fileSize || file.sha256 != b[at + 24..at + 56] {
      return Some(Refused(InvalidEntry));
    }
    var actual := sha(b[payloadStart + offset..payloadStart + offset + fileSize]);
    if actual.None? {
      return Some(Refused(CryptoUnavailable));
    }
    if actual.value != file.sha256 {
      return Some(Refused(HashMismatch));
    }
    problem := None;
  }

  /** The regions lie within the buffer, or not even the first record does. */
  predicate Readable(b: seq<byte>, h: Header) {
    PayloadStart(h) + h.payloadSize <= |b| || |b| < TableStart(h) + RECORD_SIZE
  }

  /** The first problem from entry `i` on, or where every file lies. */
  function WalkFrom(b: seq<byte>, h: Header, files: seq<File>, i: nat, cursor: nat, sha: Sha256): Outcome
    requires i <= |files| && TableStart(h) <= cursor <= PayloadStart(h)
    requires PayloadStart(h) + h.payloadSize <= |b| || (i == 0 && |b| < cursor + RECORD_SIZE)
    decreases |files| - i
  {
    if i == |files| then
      if cursor == PayloadStart(h) && SizeUpTo(files, i) == h.payloadSize
      then Verified(PayloadStart(h), WithOffsets(files)) else Refused(InvalidEntry)
    else
      var problem := EntryProblem(b, h, files, i, cursor, SizeUpTo(files, i), sha);
      EntryAccepted(b, h, files, i, cursor, sha);
      if problem.Some? then problem.value
      else WalkFrom(b, h, files, i + 1, cursor + RECORD_SIZE + |files[i].path|, sha)
  }

  /** Within the buffer, the walk from an entry on succeeds exactly when the table is in order. */
  lemma {:induction false} WalkMeans(b: seq<byte>, h: Header, files: seq<File>, i: nat, cursor: nat, sha: Sha256)
    requires PayloadStart(h) + h.payloadSize <= |b| <= MAXIMUM_PACKAGE_SIZE + SIGNATURE_SIZE && i <= |files|
    requires cursor == TableStart(h) + |Table(files, i)| && cursor <= PayloadStart(h)
    requires b[TableStart(h)..cursor] == Table(files, i) && SizeUpTo(files, i) <= h.payloadSize
    requires forall k :: 0 <= k < i ==> EntryOk(b, h, files, k, sha)
    ensures
      var r := WalkFrom(b, h, files, i, cursor, sha);
      !r.PastEnd? && (r.Verified? <==> TableOk(b, h, files, sha))
    decreases |files| - i
  {
    hide Record, TableOk, RecordReads, EntryOk, Table, SizeUpTo, WithOffsets, EntryProblem;
    if i == |files| {
      TableOkIs(b, h, files, sha, cursor, SizeUpTo(files, i));
    } else {
      EntryAccepted(b, h, files, i, cursor, sha);
      NeverPastEnd(b, h, files, i, cursor, SizeUpTo(files, i), sha);
      if TableOk(b, h, files, sha) {
        EntryReached(b, h, files, i, cursor, sha);
      }
      if EntryProblem(b, h, files, i, cursor, SizeUpTo(files, i), sha).None? {
        WalkAdvances(b, h, files, i, cursor);
        WalkMeans(b, h, files, i + 1, cursor + RECORD_SIZE + |files[i].path|, sha);
      }
    }
  }

  /** The walk from the start of the table: it succeeds exactly when the table is in order, and reads outside the
      buffer exactly when the regions do not fit it and there is room for a record before the payload. */
  lemma WalkStarted(b: seq<byte>, h: Header, files: seq<File>, sha: Sha256)
    requires files != [] && |b| <= MAXIMUM_PACKAGE_SIZE + SIGNATURE_SIZE && Readable(b, h)
    ensures
      var r := WalkFrom(b, h, files, 0, TableStart(h), sha);
      && (r.Verified? <==> TableOk(b, h, files, sha))
      && (r.PastEnd? <==> PayloadStart(h) + h.payloadSize > |b| && h.tableSize >= RECORD_SIZE)
  {
    hide TableOk, EntryOk, Table, SizeUpTo, WithOffsets, EntryProblem;
    WalkStarts(h, files);
    if PayloadStart(h) + h.payloadSize <= |b| {
      WalkMeans(b, h, files, 0, TableStart(h), sha);
    } else {
      OutsideIsNotOk(b, h, files, sha);
      FirstRecordDecides(b, h, files, sha);
    }
  }

  /** The walk over the table: it returns the first problem there is, or every file with the offset at which its
      content lies. */
  method WalkTable(b: seq<byte>, h: Header, files: seq<File>, sha: Sha256) returns (r: Outcome)
    requires files != [] && |b| <= MAXIMUM_PACKAGE_SIZE + SIGNATURE_SIZE && Readable(b, h)
    ensures r == WalkFrom(b, h, files, 0, TableStart(h), sha)
    ensures r.Verified? <==> TableOk(b, h, files, sha)
    ensures r.Verified? ==> r == Verified(PayloadStart(h), WithOffsets(files))
    ensures r.PastEnd? <==> PayloadStart(h) + h.payloadSize > |b| && h.tableSize >= RECORD_SIZE
  {
    hide TableOk, RecordReads, EntryOk, Table, SizeUpTo, WithOffsets, EntryProblem;
    WalkStarts(h, files);
    WalkStarted(b, h, files, sha);
    var payloadStart := PayloadStart(h);
    var cursor := TableStart(h);
    var expected := 0;
    var placed: seq<File> := [];
    ghost var inside := payloadStart + h.payloadSize <= |b|;
    if !inside {
      FirstRecordDecides(b, h, files, sha);
    }
    for index := 0 to |files|
      invariant inside || index == 0
      invariant TableStart(h) <= cursor <= payloadStart && (index == 0 ==> cursor == TableStart(h))
      invariant expected == SizeUpTo(files, index)
      invariant placed == WithOffsets(files)[..index]
      invariant WalkFrom(b, h, files, index, cursor, sha) == WalkFrom(b, h, files, 0, TableStart(h), sha)
    {
      var file := files[index];
      EntryAccepted(b, h, files, index, cursor, sha);
      SizeStep(files, index);
      ProblemIsNoSuccess(b, h, files, index, cursor, expected, sha);
      var problem := ReadEntry(b, h, files, index, cursor, expected, sha);
      if problem.Some? {
        return problem.value;
      }
      assert WithOffsets(files)[..index + 1] == WithOffsets(files)[..index] + [WithOffsets(files)[index]];
      placed := placed + [file.(offset := AsU64(expected))];
      cursor := cursor + RECORD_SIZE + |file.path|;
      expected := expected + file.size;
    }
    if cursor != payloadStart || expected != h.payloadSize {
      return Refused(InvalidEntry);
    }
    assert WithOffsets(files)[..|files|] == WithOffsets(files);
    r := Verified(payloadStart, placed);
  }

  lemma ProblemIsNoSuccess(b: seq<byte>, h: Header, files: seq<File>, i: nat, at: nat, expected: nat, sha: Sha256)
    requires i < |files| && at <= PayloadStart(h)
    requires PayloadStart(h) + h.payloadSize <= |b| || |b| < at + RECORD_SIZE
    ensures
      var problem := EntryProblem(b, h, files, i, at, expected, sha);
      problem.Some? ==> !problem.value.Verified?
  {
    hide ValidPath, LexLess;
  }

  lemma SizeStep(files: seq<File>, i: nat)
    requires i < |files|
    ensures SizeUpTo(files, i + 1) == SizeUpTo(files, i) + files[i].size
  {
  }

  lemma OutsideIsNotOk(b: seq<byte>, h: Header, files: seq<File>, sha: Sha256)
    requires PayloadStart(h) + h.payloadSize > |b|
    ensures !TableOk(b, h, files, sha)
  {
    hide EntryOk, Table, SizeUpTo;
  }

  lemma FirstRecordDecides(b: seq<byte>, h: Header, files: seq<File>, sha: Sha256)
    requires files != [] && |b| < TableStart(h) + RECORD_SIZE
    ensures EntryProblem(b, h, files, 0, TableStart(h), 0, sha) ==
      Some(if h.tableSize < RECORD_SIZE then Refused(InvalidEntry) else PastEnd)
  {
    hide ValidPath, LexLess;
  }

  lemma NeverPastEnd(b: seq<byte>, h: Header, files: seq<File>, i: nat, at: nat, expected: nat, sha: Sha256)
    requires PayloadStart(h) + h.payloadSize <= |b| && i < |files| && at <= PayloadStart(h)
    ensures EntryProblem(b, h, files, i, at, expected, sha) != Some(PastEnd)
    ensures EntryProblem(b, h, files, i, at, expected, sha).Some? ==>
      EntryProblem(b, h, files, i, at, expected, sha).value.Refused?
  {
    hide ValidPath, LexLess;
  }

  lemma WalkStarts(h: Header, files: seq<File>)
    ensures Table(files, 0) == [] && SizeUpTo(files, 0) == 0
  {
  }

  lemma WalkAdvances(b: seq<byte>, h: Header, files: seq<File>, i: nat, cursor: nat)
    requires i < |files| && |files[i].path| <= MAXIMUM_PATH_SIZE && SizeUpTo(files, i) < TWO_64
    requires TableStart(h) <= cursor && cursor + RECORD_SIZE + |files[i].path| <= |b|
    requires b[TableStart(h)..cursor] == Table(files, i)
    requires RecordReads(b, cursor, files[i], SizeUpTo(files, i))
    ensures b[TableStart(h)..cursor + RECORD_SIZE + |files[i].path|] == Table(files, i + 1)
    ensures SizeUpTo(files, i + 1) == SizeUpTo(files, i) + files[i].size
  {
    hide Record, RecordReads, Table;
    RecordAt(b, cursor, files[i], SizeUpTo(files, i));
    TableStep(files, i);
    var next := cursor + RECORD_SIZE + |files[i].path|;
    assert b[TableStart(h)..next] == b[TableStart(h)..cursor] + b[cursor..next];
  }

  lemma TableOkIs(b: seq<byte>, h: Header, files: seq<File>, sha: Sha256, cursor: nat, expected: nat)
    requires PayloadStart(h) + h.payloadSize <= |b|
    requires forall i :: 0 <= i < |files| ==> EntryOk(b, h, files, i, sha)
    requires TableStart(h) <= cursor <= PayloadStart(h)
    requires cursor == TableStart(h) + |Table(files, |files|)| && b[TableStart(h)..cursor] == Table(files, |files|)
    requires expected == SizeUpTo(files, |files|)
    ensures TableOk(b, h, files, sha) <==> cursor == PayloadStart(h) && expected == h.payloadSize
  {
    hide EntryOk, Table;
  }

  /** What the source leaves to a JSON library, and to the checks on the fields of a manifest: the value a
      text denotes, and the files that a value lists for a development package or another. */
  datatype ManifestReader = ManifestReader(
    document: seq<byte> -> Option<Json.Json>, files: (bool, Json.Json) -> Option<seq<File>>)

  /** The manifest must be an object and its text the canonical one. */
  predicate ManifestIs(reader: ManifestReader, text: seq<byte>, v: Json.Json) {
    reader.document(text) == Some(v) && v.Object? && Json.Accepted(v) && Json.JsonText(v) == text
  }

  function ManifestFiles(reader: ManifestReader, text: seq<byte>, development: bool): Option<seq<File>> {
    var document := reader.document(text);
    if document.None? || !ManifestIs(reader, text, document.value) then None
    else reader.files(development, document.value)
  }

  method ReadManifest(reader: ManifestReader, text: seq<byte>, development: bool) returns (files: Option<seq<File>>)
    ensures files == ManifestFiles(reader, text, development)
  {
    hide Json.Accepted, Json.JsonText;
    var document := reader.document(text);
    if document.None? || !document.value.Object? {
      return None;
    }
    var accepted, canonical := Json.Canonical(document.value, []);
    if !accepted || canonical != text {
      return None;
    }
    files := reader.files(development, document.value);
  }

  /** The checks before the manifest is read. */
  predicate HeaderOk(b: seq<byte>, allowDevelopment: bool) {
    && PreludeOk(b) && (Development(b) ==> allowDevelopment)
    && LayoutOk(ReadHeader(b), |b|, Development(b))
  }

  function ManifestText(b: seq<byte>): seq<byte>
    requires |b| >= HEADER_SIZE && TableStart(ReadHeader(b)) <= |b|
  {
    b[HEADER_SIZE..TableStart(ReadHeader(b))]
  }

  /** The manifest is read, and lists as many files as the header says. */
  predicate ManifestOk(b: seq<byte>, reader: ManifestReader)
    requires |b| >= HEADER_SIZE && TableStart(ReadHeader(b)) <= |b|
  {
    var files := ManifestFiles(reader, ManifestText(b), Development(b));
    files.Some? && |files.value| == ReadHeader(b).entryCount
  }

  /** A package whose structure is in order. */
  ghost predicate Structured(b: seq<byte>, allowDevelopment: bool, reader: ManifestReader, sha: Sha256) {
    && HeaderOk(b, allowDevelopment)
    && var h := ReadHeader(b);
    && TableStart(h) <= |b| && ManifestOk(b, reader)
    && TableOk(b, h, ManifestFiles(reader, ManifestText(b), Development(b)).value, sha)
  }

  /** A layout that passes can be walked. */
  lemma LayoutIsReadable(b: seq<byte>)
    requires PreludeOk(b) && LayoutOk(ReadHeader(b), |b|, Development(b))
    ensures Readable(b, ReadHeader(b))
    ensures PayloadStart(ReadHeader(b)) + ReadHeader(b).payloadSize > |b| ==> !Development(b) && |b| < SIGNATURE_SIZE
  {
    hide ReadHeader;
    PreludeHasSize(b);
    LayoutFits(ReadHeader(b), |b|, Development(b));
    LayoutCounts(ReadHeader(b), |b|, Development(b));
  }

  /** The first check that a package fails, or where its files lie. */
  function StructureOf(b: seq<byte>, allowDevelopment: bool, reader: ManifestReader, sha: Sha256): Outcome {
    if !PreludeOk(b) then Refused(InvalidHeader)
    else if Development(b) && !allowDevelopment then Refused(DevelopmentRejected)
    else if !LayoutOk(ReadHeader(b), |b|, Development(b)) then Refused(InvalidLayout)
    else if TableStart(ReadHeader(b)) > |b| then PastEnd
    else if !ManifestOk(b, reader) then Refused(InvalidManifest)
    else
      LayoutIsReadable(b);
      WalkFrom(b, ReadHeader(b), ManifestFiles(reader, ManifestText(b), Development(b)).value, 0,
        TableStart(ReadHeader(b)), sha)
  }

  /** The structural part of verification, up to the signature. It succeeds exactly on the packages whose
      structure is in order, and otherwise names the first check that fails. It reads past the end exactly
      when the layout passes although the package is shorter than its signature envelope, and the manifest
      does not fit or the table has room for a record. */
  method VerifyStructure(b: seq<byte>, allowDevelopment: bool, reader: ManifestReader, sha: Sha256)
    returns (r: Outcome)
    ensures r.Verified? <==> Structured(b, allowDevelopment, reader, sha)
    ensures r.Verified? ==>
      r == Verified(
        PayloadStart(ReadHeader(b)), WithOffsets(ManifestFiles(reader, ManifestText(b), Development(b)).value))
    ensures r == Refused(InvalidHeader) <==> !PreludeOk(b)
    ensures r == Refused(DevelopmentRejected) <==> PreludeOk(b) && Development(b) && !allowDevelopment
    ensures r == Refused(InvalidLayout) <==>
      PreludeOk(b) && (Development(b) ==> allowDevelopment) && !HeaderOk(b, allowDevelopment)
    ensures r == Refused(InvalidManifest) <==>
      HeaderOk(b, allowDevelopment) && TableStart(ReadHeader(b)) <= |b| && !ManifestOk(b, reader)
    ensures r.PastEnd? <==>
      && HeaderOk(b, allowDevelopment) && !Development(b) && |b| < SIGNATURE_SIZE
      && (TableStart(ReadHeader(b)) > |b| || (ManifestOk(b, reader) && ReadHeader(b).tableSize >= RECORD_SIZE))
    ensures r == StructureOf(b, allowDevelopment, reader, sha)
  {
    hide TableOk, WithOffsets, WalkFrom, ManifestFiles, LayoutOk, PreludeOk, ReadHeader;
    if !PreludeOk(b) {
      return Refused(InvalidHeader);
    }
    PreludeHasSize(b);
    var development := Development(b);
    if development && !allowDevelopment {
      return Refused(DevelopmentRejected);
    }
    var h := ReadHeader(b);
    if !LayoutOk(h, |b|, development) {
      return Refused(InvalidLayout);
    }
    LayoutFits(h, |b|, development);
    LayoutCounts(h, |b|, development);
    if TableStart(h) > |b| {
      return PastEnd;
    }
    var files := ReadManifest(reader, b[HEADER_SIZE..TableStart(h)], development);
    if files.None? || |files.value| != h.entryCount {
      return Refused(InvalidManifest);
    }
    r := WalkTable(b, h, files.value, sha);
    WalkRefusals(b, h, files.value, 0, TableStart(h), sha);
  }

  lemma PreludeHasSize(b: seq<byte>)
    requires PreludeOk(b)
    ensures HEADER_SIZE <= |b| <= MAXIMUM_PACKAGE_SIZE + SIGNATURE_SIZE
  {
  }

  lemma LayoutCounts(h: Header, size: nat, development: bool)
    requires LayoutOk(h, size, development)
    ensures h.manifestSize > 0 && h.entryCount > 0
  {
  }

  lemma {:induction false} WalkRefusals(b: seq<byte>, h: Header, files: seq<File>, i: nat, cursor: nat, sha: Sha256)
    requires i <= |files| && TableStart(h) <= cursor <= PayloadStart(h)
    requires PayloadStart(h) + h.payloadSize <= |b| || (i == 0 && |b| < cursor + RECORD_SIZE)
    ensures
      var r := WalkFrom(b, h, files, i, cursor, sha);
      r.Refused? ==> r.status in {InvalidEntry, InvalidPath, HashMismatch, CryptoUnavailable}
    decreases |files| - i
  {
    hide ValidPath, LexLess, SizeUpTo, WithOffsets;
    if i < |files| {
      EntryAccepted(b, h, files, i, cursor, sha);
      if EntryProblem(b, h, files, i, cursor, SizeUpTo(files, i), sha).None? {
        WalkRefusals(b, h, files, i + 1, cursor + RECORD_SIZE + |files[i].path|, sha);
      }
    }
  }

  lemma {:induction false} SizesGrow(files: seq<File>, i: nat, j: nat)
    requires i < j <= |files|
    ensures SizeUpTo(files, i) + files[i].size <= SizeUpTo(files, j)
  {
    if i + 1 < j {
      SizesGrow(files, i, j - 1);
    }
  }

  /** Byte `p` of the payload belongs to file `i`. */
  predicate Covers(files: seq<File>, i: nat, p: nat)
    requires i < |files|
  {
    SizeUpTo(files, i) <= p < SizeUpTo(files, i) + files[i].size
  }

  lemma {:induction false} FileCovering(files: seq<File>, n: nat, p: nat) returns (i: nat)
    requires n <= |files| && p < SizeUpTo(files, n)
    ensures i < n && Covers(files, i, p)
  {
    if p < SizeUpTo(files, n - 1) {
      i := FileCovering(files, n - 1, p);
    } else {
      i := n - 1;
    }
  }

  /** The files tile the payload: every payload byte belongs to a file, no file reaches outside,
      and no two files share a byte. */
  lemma FilesTilePayload(b: seq<byte>, h: Header, files: seq<File>, sha: Sha256, p: nat)
    requires TableOk(b, h, files, sha)
    ensures p < h.payloadSize <==> exists i :: 0 <= i < |files| && Covers(files, i, p)
    ensures forall i, j | 0 <= i < j < |files| :: !(Covers(files, i, p) && Covers(files, j, p))
  {
    hide EntryOk, Table, SizeUpTo;
    if p < h.payloadSize {
      var i := FileCovering(files, |files|, p);
      assert Covers(files, i, p);
    }
    if i :| 0 <= i < |files| && Covers(files, i, p) {
      SizesGrow(files, i, |files|);
    }
    forall i, j | 0 <= i < j < |files|
      ensures !(Covers(files, i, p) && Covers(files, j, p))
    {
      SizesGrow(files, i, j);
    }
  }

  lemma {:induction false} PathsAscend(b: seq<byte>, h: Header, files: seq<File>, sha: Sha256, i: nat, j: nat)
    requires TableOk(b, h, files, sha) && i < j < |files|
    ensures LexLess(files[i].path, files[j].path) && files[i].path != files[j].path
  {
    hide Table, ValidPath, SizeUpTo;
    assert EntryOk(b, h, files, j, sha);
    if i + 1 < j {
      PathsAscend(b, h, files, sha, i, j - 1);
      LexTransitive(files[i].path, files[j - 1].path, files[j].path);
    }
    LexTotal(files[i].path, files[j].path);
  }

  lemma EntryBounds(b: seq<byte>, h: Header, files: seq<File>, sha: Sha256, i: nat)
    requires TableOk(b, h, files, sha) && i < |files|
    ensures SizeUpTo(files, i) + files[i].size <= h.payloadSize <= |b| - PayloadStart(h)
  {
    hide Table, ValidPath, LexLess, SizeUpTo;
    assert EntryOk(b, h, files, i, sha);
  }

  lemma OffsetAt(files: seq<File>, i: nat)
    requires i < |files| && SizeUpTo(files, i) < TWO_64
    ensures WithOffsets(files)[i] == files[i].(offset := SizeUpTo(files, i))
  {
  }

  /** Every file of a verified package lies within it, at the place the table gives it. */
  lemma EntryInRange(b: seq<byte>, h: Header, files: seq<File>, sha: Sha256, i: nat)
    requires PayloadStart(h) + h.payloadSize <= |b|
    requires |b| <= MAXIMUM_PACKAGE_SIZE + SIGNATURE_SIZE && TableOk(b, h, files, sha) && i < |files|
    ensures WithOffsets(files)[i].offset == SizeUpTo(files, i)
    ensures WithOffsets(files)[i].path == files[i].path && WithOffsets(files)[i].size == files[i].size
    ensures RangeOk(WithOffsets(files)[i], b, PayloadStart(h))
  {
    hide TableOk, SizeUpTo, WithOffsets;
    EntryBounds(b, h, files, sha, i);
    OffsetAt(files, i);
  }

  /** After a successful walk the checks made later cannot fail: in staging, and in matching an
      installed release, every file lies within the package, and no two share a path. */
  lemma VerifiedIsStageable(b: seq<byte>, h: Header, files: seq<File>, sha: Sha256, v: Verification)
    requires |b| <= MAXIMUM_PACKAGE_SIZE + SIGNATURE_SIZE && TableOk(b, h, files, sha)
    requires v.payloadStart == PayloadStart(h) && v.manifest.files == WithOffsets(files)
    ensures Stageable(v, b)
  {
    hide TableOk, SizeUpTo, WithOffsets, LexLess;
    TableFits(b, h, files, sha);
    forall i | 0 <= i < |files|
      ensures RangeOk(v.manifest.files[i], b, v.payloadStart)
    {
      EntryInRange(b, h, files, sha, i);
    }
    forall i, j | 0 <= i < j < |files|
      ensures v.manifest.files[i].path != v.manifest.files[j].path
    {
      PathsAscend(b, h, files, sha, i, j);
    }
  }

  lemma TableFits(b: seq<byte>, h: Header, files: seq<File>, sha: Sha256)
    requires TableOk(b, h, files, sha)
    ensures PayloadStart(h) + h.payloadSize <= |b|
  {
    hide EntryOk, Table;
  }

  /** And every path is one that staging accepts. Of two files that clash, the earlier one is a directory
      of the later: that is the one thing about paths that verification does not exclude, besides the names
      of the package copy and the marker. */
  lemma VerifiedPaths(b: seq<byte>, h: Header, files: seq<File>, sha: Sha256)
    requires TableOk(b, h, files, sha)
    ensures ValidPaths(WithOffsets(files))
    ensures forall i, j :: 0 <= i < j < |files| && Clash(files[i].path, files[j].path) ==>
      Above(files[i].path, files[j].path)
  {
    hide Table, SizeUpTo, LexLess, ValidPath;
    forall i | 0 <= i < |files|
      ensures ValidPath(files[i].path)
    {
      assert EntryOk(b, h, files, i, sha);
    }
    forall i, j | 0 <= i < j < |files| && Clash(files[i].path, files[j].path)
      ensures Above(files[i].path, files[j].path)
    {
      PathsAscend(b, h, files, sha, i, j);
      if Above(files[j].path, files[i].path) {
        AboveIsLess(files[j].path, files[i].path);
      }
    }
  }

  lemma {:induction false} AboveIsLess(p: seq<byte>, q: seq<byte>)
    requires Above(p, q)
    ensures LexLess(p, q) && !LexLess(q, p)
  {
    assert p + [SLASH] <= q;
    PrefixIsLess(p, q);
    LexTotal(p, q);
  }

  lemma {:induction false} PrefixIsLess(p: seq<byte>, q: seq<byte>)
    requires p < q
    ensures LexLess(p, q)
  {
    if p != [] {
      assert q[0] == p[0];
      assert forall i :: 0 <= i < |p| - 1 ==> p[1..][i] == p[i + 1] == q[i + 1] == q[1..][i];
      PrefixIsLess(p[1..], q[1..]);
    }
  }

  lemma FromLeInjective(a: seq<byte>, b: seq<byte>)
    requires |a| == |b| && FromLe(a) == FromLe(b)
    ensures a == b
  {
    LeOfFromLe(a);
    LeOfFromLe(b);
  }

  /** The header is determined by what is read from it. */
  lemma HeaderIsDetermined(a: seq<byte>, b: seq<byte>)
    requires PreludeOk(a) && PreludeOk(b) && ReadHeader(a) == ReadHeader(b) && Development(a) == Development(b)
    ensures a[..HEADER_SIZE] == b[..HEADER_SIZE]
  {
    FromLeInjective(a[8..10], b[8..10]); FromLeInjective(a[10..12], b[10..12]);
    FromLeInjective(a[12..16], b[12..16]); FromLeInjective(a[16..20], b[16..20]);
    FromLeInjective(a[20..24], b[20..24]); FromLeInjective(a[24..32], b[24..32]);
    FromLeInjective(a[32..40], b[32..40]); FromLeInjective(a[40..48], b[40..48]);
    FromLeInjective(a[48..56], b[48..56]); FromLeInjective(a[56..60], b[56..60]);
    FromLeInjective(a[60..64], b[60..64]);
    hide FromLe;
    assert a[..8] == a[0..8] == b[0..8] == b[..8];
    Glue(a, b, 8, 10); Glue(a, b, 10, 12); Glue(a, b, 12, 16); Glue(a, b, 16, 20); Glue(a, b, 20, 24);
    Glue(a, b, 24, 32); Glue(a, b, 32, 40); Glue(a, b, 40, 48); Glue(a, b, 48, 56); Glue(a, b, 56, 60);
    Glue(a, b, 60, 64);
  }

  /** The part of a package that is signed. */
  function Unsigned(b: seq<byte>): seq<byte>
    requires |b| >= HEADER_SIZE && PayloadStart(ReadHeader(b)) + ReadHeader(b).payloadSize <= |b|
  {
    b[..PayloadStart(ReadHeader(b)) + ReadHeader(b).payloadSize]
  }

  function Payload(b: seq<byte>): seq<byte>
    requires |b| >= HEADER_SIZE && PayloadStart(ReadHeader(b)) + ReadHeader(b).payloadSize <= |b|
  {
    b[PayloadStart(ReadHeader(b))..PayloadStart(ReadHeader(b)) + ReadHeader(b).payloadSize]
  }

  /** A structured package whose manifest denotes `v`. */
  ghost predicate StructuredAs(
    b: seq<byte>, allowDevelopment: bool, reader: ManifestReader, sha: Sha256, v: Json.Json)
  {
    Structured(b, allowDevelopment, reader, sha) && ManifestIs(reader, ManifestText(b), v)
  }

  /** What the structure of a package says about its parts. */
  lemma StructuredParts(
    b: seq<byte>, allowDevelopment: bool, reader: ManifestReader, sha: Sha256, v: Json.Json, files: seq<File>)
    requires StructuredAs(b, allowDevelopment, reader, sha, v) && reader.files(Development(b), v) == Some(files)
    ensures
      var h := ReadHeader(b);
      && PreludeOk(b) && Json.Accepted(v) && PayloadStart(h) + h.payloadSize <= |b|
      && b[HEADER_SIZE..TableStart(h)] == Json.JsonText(v)
      && b[TableStart(h)..PayloadStart(h)] == Table(files, |files|)
      && h == Header(
           |Json.JsonText(v)|, |files|, |Table(files, |files|)|, SizeUpTo(files, |files|),
           h.unsignedSize, h.totalSize, 1, 0)
      && PayloadStart(h) + h.payloadSize == h.unsignedSize
      && h.totalSize == h.unsignedSize + Envelope(Development(b)) == |b|
  {
    hide EntryOk, Table, SizeUpTo, Json.Accepted, Json.JsonText, ReadHeader;
    LayoutFits(ReadHeader(b), |b|, Development(b));
  }

  /** Canonicity of packages: two packages with structures in order agree on everything that is signed if
      and only if they are of the same kind, their manifests denote the same value, and their payloads are
      equal. Neither the table nor the header nor the text of the manifest leaves any freedom. */
  lemma SignedPartIsCanonical(
    a: seq<byte>, b: seq<byte>, allowDevelopment: bool, reader: ManifestReader, other: ManifestReader,
    sha: Sha256, v: Json.Json, w: Json.Json)
    requires StructuredAs(a, allowDevelopment, reader, sha, v) && StructuredAs(b, allowDevelopment, other, sha, w)
    requires reader.files == other.files
    ensures |a| >= HEADER_SIZE && PayloadStart(ReadHeader(a)) + ReadHeader(a).payloadSize <= |a|
    ensures |b| >= HEADER_SIZE && PayloadStart(ReadHeader(b)) + ReadHeader(b).payloadSize <= |b|
    ensures Unsigned(a) == Unsigned(b) <==>
      Development(a) == Development(b) && v == w && Payload(a) == Payload(b)
  {
    FilesAreRead(a, allowDevelopment, reader, sha, v);
    FilesAreRead(b, allowDevelopment, other, sha, w);
    var files, list := reader.files(Development(a), v).value, other.files(Development(b), w).value;
    StructuredParts(a, allowDevelopment, reader, sha, v, files);
    StructuredParts(b, allowDevelopment, other, sha, w, list);
    hide StructuredAs, Json.Accepted, Json.JsonText, Table, SizeUpTo, ReadHeader, PreludeOk;
    if Development(a) == Development(b) && v == w && Payload(a) == Payload(b) {
      SamePartsSameBytes(a, b);
    }
    if Unsigned(a) == Unsigned(b) {
      SameBytesSameParts(a, b);
      JsonReader.CanonicalIsInjective(v, w);
    }
  }

  lemma FilesAreRead(b: seq<byte>, allowDevelopment: bool, reader: ManifestReader, sha: Sha256, v: Json.Json)
    requires StructuredAs(b, allowDevelopment, reader, sha, v)
    ensures |b| >= HEADER_SIZE && reader.files(Development(b), v).Some?
  {
    hide TableOk, LayoutOk, ReadHeader, Json.Accepted, Json.JsonText;
    PreludeHasSize(b);
  }

  lemma SamePartsSameBytes(a: seq<byte>, b: seq<byte>)
    requires PreludeOk(a) && PreludeOk(b) && ReadHeader(a) == ReadHeader(b) && Development(a) == Development(b)
    requires PayloadStart(ReadHeader(a)) + ReadHeader(a).payloadSize <= |a|
    requires PayloadStart(ReadHeader(b)) + ReadHeader(b).payloadSize <= |b|
    requires
      var h := ReadHeader(a);
      a[HEADER_SIZE..TableStart(h)] == b[HEADER_SIZE..TableStart(h)]
        && a[TableStart(h)..PayloadStart(h)] == b[TableStart(h)..PayloadStart(h)]
    requires Payload(a) == Payload(b)
    ensures Unsigned(a) == Unsigned(b)
  {
    HeaderIsDetermined(a, b);
    var h := ReadHeader(a);
    hide ReadHeader, PreludeOk;
    Glue(a, b, HEADER_SIZE, TableStart(h));
    Glue(a, b, TableStart(h), PayloadStart(h));
    Glue(a, b, PayloadStart(h), PayloadStart(h) + h.payloadSize);
  }

  lemma SameBytesSameParts(a: seq<byte>, b: seq<byte>)
    requires |a| >= HEADER_SIZE && PayloadStart(ReadHeader(a)) + ReadHeader(a).payloadSize <= |a|
    requires |b| >= HEADER_SIZE && PayloadStart(ReadHeader(b)) + ReadHeader(b).payloadSize <= |b|
    requires Unsigned(a) == Unsigned(b)
    ensures ReadHeader(a) == ReadHeader(b) && Development(a) == Development(b) && Payload(a) == Payload(b)
    ensures ManifestText(a) == ManifestText(b)
  {
    var n := |Unsigned(a)|;
    HeaderSlices(a, n);
    HeaderSlices(b, n);
    var h := ReadHeader(a);
    hide ReadHeader, FromLe;
    PrefixSame(a, n, HEADER_SIZE, TableStart(h));
    PrefixSame(b, n, HEADER_SIZE, TableStart(h));
    PrefixSame(a, n, PayloadStart(h), n);
    PrefixSame(b, n, PayloadStart(h), n);
  }

  lemma PrefixSame(b: seq<byte>, n: nat, i: nat, j: nat)
    requires i <= j <= n <= |b|
    ensures b[..n][i..j] == b[i..j]
  {
  }

  lemma HeaderSlices(b: seq<byte>, n: nat)
    requires HEADER_SIZE <= n <= |b|
    ensures ReadHeader(b[..n]) == ReadHeader(b) && Development(b[..n]) == Development(b)
  {
    PrefixSame(b, n, 12, 16); PrefixSame(b, n, 16, 20); PrefixSame(b, n, 20, 24); PrefixSame(b, n, 24, 32);
    PrefixSame(b, n, 32, 40); PrefixSame(b, n, 40, 48); PrefixSame(b, n, 48, 56); PrefixSame(b, n, 56, 60);
    PrefixSame(b, n, 60, 64);
  }
}
