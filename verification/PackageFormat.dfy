/** The package format, byte for byte: what a package is made of, and that exactly such packages verify. */
module PackageFormat {
  import opened Bytes
  import opened Text
  import opened Paths
  import opened Package
  import opened PackageLayout
  import Json = CanonicalJson

  /** What goes into a package. */
  datatype Parts = Parts(
    development: bool, manifest: Json.Json, files: seq<File>, contents: seq<seq<byte>>, envelope: seq<byte>)

  /** The first `n` contents, end to end. */
  function Joined(contents: seq<seq<byte>>, n: nat): seq<byte>
    requires n <= |contents|
  {
    if n == 0 then [] else Joined(contents, n - 1) + contents[n - 1]
  }

  function RecordBytes(f: File, offset: nat): seq<byte> {
    (Le(2, |f.path|) + Le(2, f.mode) + [0, 0, 0, 0] + Le(8, f.size) + Le(8, offset)) + f.sha256 + f.path
  }

  function TableBytes(files: seq<File>, contents: seq<seq<byte>>, n: nat): seq<byte>
    requires n <= |files| && n <= |contents|
  {
    if n == 0 then []
    else TableBytes(files, contents, n - 1) + RecordBytes(files[n - 1], |Joined(contents, n - 1)|)
  }

  /** "LVAPP001", version 1, header size 64, and the flags: bit 0 for a development package. */
  function FirstBytes(development: bool): (r: seq<byte>)
    ensures |r| == 16
  {
    [0x4c, 0x56, 0x41, 0x50, 0x50, 0x30, 0x30, 0x31, 1, 0, 64, 0, if development then 1 else 0, 0, 0, 0]
  }

  function SizeBytes(h: Header): (r: seq<byte>)
    ensures |r| == 48
  {
    (Le(4, h.manifestSize) + Le(4, h.entryCount) + Le(8, h.tableSize))
    + (Le(8, h.payloadSize) + Le(8, h.unsignedSize)) + (Le(8, h.totalSize) + [1, 0, 0, 0] + [0, 0, 0, 0])
  }

  /** The sizes of the regions of a package; the signed part is all but the envelope. */
  function Sizes(p: Parts): (nat, nat, nat)
    requires |p.files| == |p.contents|
  {
    (|Json.JsonText(p.manifest)|, |TableBytes(p.files, p.contents, |p.files|)|, |Joined(p.contents, |p.contents|)|)
  }

  function SignedSize(p: Parts): nat
    requires |p.files| == |p.contents|
  {
    64 + Sizes(p).0 + Sizes(p).1 + Sizes(p).2
  }

  /** The parts are within the limits of the format. */
  predicate Fits(p: Parts) {
    && |p.files| == |p.contents| && 1 <= |p.files| <= 256
    && 1 <= |Json.JsonText(p.manifest)| <= 65536
    && |p.envelope| == (if p.development then 0 else 96)
    && SignedSize(p) + |p.envelope| <= 268435456 + 96
  }

  function HeaderOf(p: Parts): Header
    requires Fits(p)
  {
    Header(Sizes(p).0, |p.files|, Sizes(p).1, Sizes(p).2, SignedSize(p), SignedSize(p) + |p.envelope|, 1, 0)
  }

  /** The package. */
  function Assembled(p: Parts): seq<byte>
    requires Fits(p)
  {
    (FirstBytes(p.development) + SizeBytes(HeaderOf(p))) + Json.JsonText(p.manifest)
    + TableBytes(p.files, p.contents, |p.files|) + Joined(p.contents, |p.contents|) + p.envelope
  }

  /** The manifest is one, and lists these files. */
  predicate Lists(p: Parts, reader: ManifestReader) {
    && Json.Accepted(p.manifest) && p.manifest.Object?
    && reader.document(Json.JsonText(p.manifest)) == Some(p.manifest)
    && reader.files(p.development, p.manifest) == Some(p.files)
  }

  /** A plain path after the one before, one of the two modes there are, and the size of the content. */
  predicate FileOk(p: Parts, i: nat)
    requires |p.files| == |p.contents| && i < |p.files|
  {
    var f := p.files[i];
    && 1 <= |f.path| <= 240 && ValidPath(f.path) && (f.mode == 420 || f.mode == 493)
    && f.size == |p.contents[i]| && (i > 0 ==> LexLess(p.files[i - 1].path, f.path))
  }

  predicate InOrder(p: Parts)
    requires |p.files| == |p.contents|
  {
    forall i :: 0 <= i < |p.files| ==> FileOk(p, i)
  }

  predicate Shaped(p: Parts, reader: ManifestReader) { Fits(p) && Lists(p, reader) && InOrder(p) }

  /** From file `i` on, the first content that does not have its hash. */
  function Damage(p: Parts, sha: Sha256, i: nat): Option<Status>
    requires |p.files| == |p.contents| && i <= |p.files|
    decreases |p.files| - i
  {
    if i == |p.files| then None
    else if sha(p.contents[i]).None? then Some(CryptoUnavailable)
    else if sha(p.contents[i]).value != p.files[i].sha256 then Some(HashMismatch)
    else Damage(p, sha, i + 1)
  }

  /** Every file where its content lies. */
  function Placed(p: Parts): (r: seq<File>)
    requires Fits(p)
    ensures |r| == |p.files|
  {
    seq(|p.files|, i requires 0 <= i < |p.files| => p.files[i].(offset := AsU64(|Joined(p.contents, i)|)))
  }

  lemma {:induction false} SameTable(p: Parts, n: nat)
    requires |p.files| == |p.contents| && n <= |p.files|
    requires forall i :: 0 <= i < |p.files| ==> p.files[i].size == |p.contents[i]|
    ensures |Joined(p.contents, n)| == SizeUpTo(p.files, n)
    ensures TableBytes(p.files, p.contents, n) == Table(p.files, n)
  {
    if n > 0 {
      SameTable(p, n - 1);
      SameRecord(p.files[n - 1], SizeUpTo(p.files, n - 1));
    }
  }

  lemma SameRecord(f: File, offset: nat)
    ensures RecordBytes(f, offset) == Record(f, offset)
  {
    Widths();
    assert Le(4, 0) == [0, 0, 0, 0];
  }

  /** What is read from the first 64 bytes of a package. */
  lemma HeaderIsRead(development: bool, h: Header, rest: seq<byte>)
    requires 64 + |rest| <= 268435456 + 96 && h.suite == 1 && h.reserved == 0
    ensures
      var b := (FirstBytes(development) + SizeBytes(h)) + rest;
      PreludeOk(b) && Development(b) == development && ReadHeader(b) == h
  {
    hide Le, FromLe;
    var b := (FirstBytes(development) + SizeBytes(h)) + rest;
    FirstIsRead(development, SizeBytes(h) + rest);
    assert b == FirstBytes(development) + (SizeBytes(h) + rest);
    SizesAreSlices(FirstBytes(development), h, rest);
    Widths();
    LeInverse(4, h.manifestSize); LeInverse(4, h.entryCount); LeInverse(8, h.tableSize); LeInverse(8, h.payloadSize);
    LeInverse(8, h.unsignedSize); LeInverse(8, h.totalSize);
    FromLeOfFour(1, [1, 0, 0, 0]);
    FromLeOfFour(0, [0, 0, 0, 0]);
  }

  lemma FromLeOfFour(n: byte, s: seq<byte>)
    requires s == [n, 0, 0, 0]
    ensures FromLe(s) == n
  {
    FromLeOfTwo(0, s[2..]);
    assert s[1..][1..] == s[2..] && FromLe(s[1..]) == s[1] + 256 * FromLe(s[2..]);
  }

  lemma FirstIsRead(development: bool, rest: seq<byte>)
    requires 48 <= |rest| && 16 + |rest| <= 268435456 + 96
    ensures
      var b := FirstBytes(development) + rest;
      PreludeOk(b) && Development(b) == development
  {
    hide FromLe;
    var b, f := FirstBytes(development) + rest, FirstBytes(development);
    var flag: byte := if development then 1 else 0;
    assert b[0..8] == f[0..8] == MAGIC && b[8..10] == [1, 0] && b[10..12] == [64, 0] && b[12..16] == [flag, 0, 0, 0];
    FromLeOfTwo(1, b[8..10]);
    FromLeOfTwo(64, b[10..12]);
    FromLeOfFour(flag, b[12..16]);
  }

  lemma FromLeOfTwo(n: byte, s: seq<byte>)
    requires s == [n, 0]
    ensures FromLe(s) == n
  {
    assert s[1..][1..] == [] && FromLe(s[1..]) == s[1] + 256 * FromLe(s[1..][1..]);
  }

  lemma SizesAreSlices(first: seq<byte>, h: Header, rest: seq<byte>)
    requires |first| == 16
    ensures
      var b := (first + SizeBytes(h)) + rest;
      && b[16..20] == Le(4, h.manifestSize) && b[20..24] == Le(4, h.entryCount) && b[24..32] == Le(8, h.tableSize)
      && b[32..40] == Le(8, h.payloadSize) && b[40..48] == Le(8, h.unsignedSize)
      && b[48..56] == Le(8, h.totalSize) && b[56..60] == [1, 0, 0, 0] && b[60..64] == [0, 0, 0, 0]
  {
    hide Le;
    var b := (first + SizeBytes(h)) + rest;
    var a, c := Le(4, h.manifestSize) + Le(4, h.entryCount) + Le(8, h.tableSize), Le(8, h.payloadSize) + Le(8, h.unsignedSize);
    var d := Le(8, h.totalSize) + [1, 0, 0, 0] + [0, 0, 0, 0];
    assert b[16..32] == a && b[32..48] == c && b[48..64] == d;
    assert b[16..20] == a[0..4] && b[20..24] == a[4..8] && b[24..32] == a[8..16];
    assert b[32..40] == c[0..8] && b[40..48] == c[8..16];
    assert b[48..56] == d[0..8] && b[56..60] == d[8..12] && b[60..64] == d[12..16];
  }

  lemma FivePieces(a: seq<byte>, b: seq<byte>, c: seq<byte>, d: seq<byte>, e: seq<byte>)
    ensures
      var s := a + b + c + d + e;
      && s == a + (b + c + d + e) && |s| == |a| + |b| + |c| + |d| + |e|
      && s[|a|..|a| + |b|] == b && s[|a| + |b|..|a| + |b| + |c|] == c
      && s[|a| + |b| + |c|..|a| + |b| + |c| + |d|] == d
  {
  }

  /** Where the regions of an assembled package are found. */
  lemma RegionsAreFound(p: Parts)
    requires Fits(p)
    ensures
      var b, h := Assembled(p), HeaderOf(p);
      && PreludeOk(b) && Development(b) == p.development && ReadHeader(b) == h
      && |b| == h.totalSize && PayloadStart(h) + h.payloadSize == h.unsignedSize <= |b|
      && b[HEADER_SIZE..TableStart(h)] == Json.JsonText(p.manifest)
      && b[TableStart(h)..PayloadStart(h)] == TableBytes(p.files, p.contents, |p.files|)
      && b[PayloadStart(h)..PayloadStart(h) + h.payloadSize] == Joined(p.contents, |p.contents|)
      && LayoutOk(h, |b|, p.development)
  {
    hide Json.JsonText, TableBytes, Joined, FirstBytes, SizeBytes, PreludeOk, ReadHeader, FromLe;
    var head := FirstBytes(p.development) + SizeBytes(HeaderOf(p));
    var text, table := Json.JsonText(p.manifest), TableBytes(p.files, p.contents, |p.files|);
    var payload := Joined(p.contents, |p.contents|);
    FivePieces(head, text, table, payload, p.envelope);
    HeaderIsRead(p.development, HeaderOf(p), text + table + payload + p.envelope);
  }

  lemma {:induction false} JoinedSlice(contents: seq<seq<byte>>, i: nat, n: nat)
    requires i < n <= |contents|
    ensures |Joined(contents, i)| + |contents[i]| <= |Joined(contents, n)|
    ensures Joined(contents, n)[|Joined(contents, i)|..|Joined(contents, i)| + |contents[i]|] == contents[i]
  {
    var j, k := |Joined(contents, i)|, |Joined(contents, i)| + |contents[i]|;
    if i + 1 < n {
      JoinedSlice(contents, i, n - 1);
      assert Joined(contents, n)[j..k] == Joined(contents, n - 1)[j..k];
    } else {
      assert Joined(contents, n)[j..k] == contents[i];
    }
  }

  /** The content of a file is found in the package. */
  lemma ContentIsFound(p: Parts, i: nat)
    requires Fits(p) && i < |p.files|
    ensures
      var b, h, at := Assembled(p), HeaderOf(p), |Joined(p.contents, i)|;
      && at + |p.contents[i]| <= h.payloadSize
      && PayloadStart(h) + h.payloadSize <= |b|
      && b[PayloadStart(h) + at..PayloadStart(h) + at + |p.contents[i]|] == p.contents[i]
  {
    hide Json.JsonText, TableBytes, Joined, PreludeOk, ReadHeader, LayoutOk, Assembled;
    RegionsAreFound(p);
    JoinedSlice(p.contents, i, |p.contents|);
    var b, h, at := Assembled(p), HeaderOf(p), |Joined(p.contents, i)|;
    SubSlice(b, PayloadStart(h), PayloadStart(h) + h.payloadSize, at, at + |p.contents[i]|);
  }

  lemma FileInOrder(p: Parts, i: nat)
    requires |p.files| == |p.contents| && InOrder(p) && i < |p.files|
    ensures p.files[i].size == |p.contents[i]| && 1 <= |p.files[i].path| <= 240 && ValidPath(p.files[i].path)
    ensures p.files[i].mode == 420 || p.files[i].mode == 493
    ensures i > 0 ==> LexLess(p.files[i - 1].path, p.files[i].path)
  {
    assert FileOk(p, i);
    hide ValidPath, LexLess;
  }

  lemma TableIsSame(p: Parts, n: nat)
    requires |p.files| == |p.contents| && InOrder(p) && n <= |p.files|
    ensures |Joined(p.contents, n)| == SizeUpTo(p.files, n) && TableBytes(p.files, p.contents, n) == Table(p.files, n)
  {
    hide InOrder, ValidPath, LexLess, Joined, TableBytes, Table, SizeUpTo;
    forall i | 0 <= i < |p.files|
      ensures p.files[i].size == |p.contents[i]|
    {
      FileInOrder(p, i);
    }
    SameTable(p, n);
  }

  /** The record of a file is found in the table. */
  lemma RecordIsFound(p: Parts, i: nat)
    requires Fits(p) && InOrder(p) && i < |p.files|
    ensures
      var b, h := Assembled(p), HeaderOf(p);
      var at := TableStart(h) + |Table(p.files, i)|;
      && at + RECORD_SIZE + |p.files[i].path| <= PayloadStart(h) <= |b|
      && RecordReads(b, at, p.files[i], SizeUpTo(p.files, i))
      && SizeUpTo(p.files, i) == |Joined(p.contents, i)|
  {
    hide Json.JsonText, TableBytes, Joined, PreludeOk, ReadHeader, LayoutOk, Assembled, Table, Record, RecordReads;
    hide ValidPath, LexLess, SizeUpTo;
    RegionsAreFound(p);
    TableIsSame(p, |p.files|);
    TableIsSame(p, i);
    FileInOrder(p, i);
    ContentIsFound(p, i);
    var b, h := Assembled(p), HeaderOf(p);
    var t := b[TableStart(h)..PayloadStart(h)];
    TableHolds(t, p.files, i);
    var at, end := |Table(p.files, i)|, |Table(p.files, i)| + RECORD_SIZE + |p.files[i].path|;
    SubSlice(b, TableStart(h), PayloadStart(h), at, end);
    RecordAt(b, TableStart(h) + at, p.files[i], SizeUpTo(p.files, i));
  }

  /** The walk finds nothing wrong with an entry but the hash of its content. */
  lemma EntryShaped(p: Parts, sha: Sha256, i: nat)
    requires Fits(p) && InOrder(p) && i < |p.files|
    ensures
      var b, h, f := Assembled(p), HeaderOf(p), p.files[i];
      var at := TableStart(h) + |Table(p.files, i)|;
      && at <= PayloadStart(h) && PayloadStart(h) + h.payloadSize <= |b|
      && EntryProblem(b, h, p.files, i, at, SizeUpTo(p.files, i), sha) ==
           if sha(p.contents[i]).None? then Some(Refused(CryptoUnavailable))
           else if sha(p.contents[i]).value != f.sha256 then Some(Refused(HashMismatch)) else None
  {
    hide Assembled, Joined, Table, SizeUpTo, ValidPath, LexLess, Json.JsonText, HeaderOf, TableBytes;
    RecordIsFound(p, i);
    ContentIsFound(p, i);
    FileInOrder(p, i);
  }

  /** From file `i` on. */
  lemma {:induction false} WalkShaped(p: Parts, sha: Sha256, i: nat)
    requires Fits(p) && InOrder(p) && i <= |p.files|
    ensures
      var b, h := Assembled(p), HeaderOf(p);
      var at := TableStart(h) + |Table(p.files, i)|;
      && at <= PayloadStart(h) && PayloadStart(h) + h.payloadSize <= |b|
      && WalkFrom(b, h, p.files, i, at, sha) ==
           match Damage(p, sha, i)
           case Some(status) => Refused(status)
           case None => Verified(PayloadStart(h), WithOffsets(p.files))
    decreases |p.files| - i
  {
    hide Assembled, Joined, Table, SizeUpTo, ValidPath, LexLess, Json.JsonText, TableBytes, EntryProblem, WithOffsets;
    RegionsAreFound(p);
    TableIsSame(p, |p.files|);
    if i < |p.files| {
      EntryShaped(p, sha, i);
      TableStep(p.files, i);
      if Damage(p, sha, i) == Damage(p, sha, i + 1) {
        WalkShaped(p, sha, i + 1);
      }
    }
  }

  lemma OffsetsArePlaces(p: Parts)
    requires Fits(p) && InOrder(p)
    ensures WithOffsets(p.files) == Placed(p)
  {
    hide Joined, SizeUpTo, ValidPath, LexLess;
    forall i | 0 <= i < |p.files|
      ensures SizeUpTo(p.files, i) == |Joined(p.contents, i)|
    {
      TableIsSame(p, i);
    }
  }

  /** What verification makes of an assembled package, for all parts in order. A development package is refused unless
      it is allowed. Otherwise the first content that does not have its hash is reported; and if there is none the
      package verifies, with exactly its files, each where its content lies. */
  lemma AssembledIsVerified(p: Parts, allowDevelopment: bool, reader: ManifestReader, sha: Sha256)
    requires Shaped(p, reader)
    ensures StructureOf(Assembled(p), allowDevelopment, reader, sha) ==
      if p.development && !allowDevelopment then Refused(DevelopmentRejected)
      else match Damage(p, sha, 0)
        case Some(status) => Refused(status)
        case None => Verified(64 + Sizes(p).0 + Sizes(p).1, Placed(p))
  {
    hide Assembled, Joined, ValidPath, LexLess, Json.JsonText, TableBytes, WithOffsets, Placed, PreludeOk, ReadHeader;
    hide LayoutOk, Json.Accepted, Damage, WalkFrom;
    RegionsAreFound(p);
    WalkShaped(p, sha, 0);
    OffsetsArePlaces(p);
    NothingInTable(p.files);
  }

  lemma NothingInTable(files: seq<File>)
    ensures Table(files, 0) == []
  {
  }

  /** No file reaches beyond the payload. */
  predicate Inside(h: Header, files: seq<File>) {
    forall i :: 0 <= i < |files| ==> SizeUpTo(files, i) + files[i].size <= h.payloadSize
  }

  /** The contents of the files of a verified package. */
  function ContentsOf(b: seq<byte>, h: Header, files: seq<File>): (r: seq<seq<byte>>)
    requires PayloadStart(h) + h.payloadSize <= |b| && Inside(h, files)
    ensures |r| == |files|
  {
    seq(|files|, i requires 0 <= i < |files| =>
      b[PayloadStart(h) + SizeUpTo(files, i)..PayloadStart(h) + SizeUpTo(files, i) + files[i].size])
  }

  lemma ContentAt(b: seq<byte>, h: Header, files: seq<File>, i: nat)
    requires PayloadStart(h) + h.payloadSize <= |b| && Inside(h, files) && i < |files|
    ensures SizeUpTo(files, i) + files[i].size <= h.payloadSize
    ensures ContentsOf(b, h, files)[i]
      == b[PayloadStart(h) + SizeUpTo(files, i)..PayloadStart(h) + SizeUpTo(files, i) + files[i].size]
  {
    hide SizeUpTo;
  }

  lemma {:induction false} ContentsJoin(b: seq<byte>, h: Header, files: seq<File>, n: nat)
    requires PayloadStart(h) + h.payloadSize <= |b| && n <= |files| && Inside(h, files)
    ensures PayloadStart(h) + SizeUpTo(files, n) <= |b|
    ensures Joined(ContentsOf(b, h, files), n) == b[PayloadStart(h)..PayloadStart(h) + SizeUpTo(files, n)]
  {
    hide ContentsOf, Inside, PayloadStart;
    if n > 0 {
      ContentsJoin(b, h, files, n - 1);
      ContentAt(b, h, files, n - 1);
      var start, mid := PayloadStart(h), PayloadStart(h) + SizeUpTo(files, n - 1);
      SlicesJoin(b, start, mid, mid + files[n - 1].size);
    }
  }

  lemma SlicesJoin(b: seq<byte>, i: nat, j: nat, k: nat)
    requires i <= j <= k <= |b|
    ensures b[i..j] + b[j..k] == b[i..k]
  {
  }

  ghost predicate EntryIs(b: seq<byte>, h: Header, files: seq<File>, i: nat, sha: Sha256)
    requires PayloadStart(h) + h.payloadSize <= |b| && i < |files|
  {
    && SizeUpTo(files, i) + files[i].size <= h.payloadSize
    && 1 <= |files[i].path| <= 240 && ValidPath(files[i].path) && (files[i].mode == 420 || files[i].mode == 493)
    && (i > 0 ==> LexLess(files[i - 1].path, files[i].path))
    && sha(b[PayloadStart(h) + SizeUpTo(files, i)..PayloadStart(h) + SizeUpTo(files, i) + files[i].size])
         == Some(files[i].sha256)
  }

  lemma EntryParts(b: seq<byte>, h: Header, files: seq<File>, sha: Sha256)
    requires TableOk(b, h, files, sha)
    ensures PayloadStart(h) + h.payloadSize <= |b|
    ensures forall i :: 0 <= i < |files| ==> EntryIs(b, h, files, i, sha)
  {
    hide Table, SizeUpTo, ValidPath, LexLess;
    forall i | 0 <= i < |files|
      ensures EntryIs(b, h, files, i, sha)
    {
      assert EntryOk(b, h, files, i, sha);
    }
  }

  /** The parts that a package was made of. */
  function PartsOf(b: seq<byte>, v: Json.Json, files: seq<File>): Parts
    requires |b| >= HEADER_SIZE && PayloadStart(ReadHeader(b)) + ReadHeader(b).payloadSize <= |b|
    requires Inside(ReadHeader(b), files)
  {
    Parts(Development(b), v, files, ContentsOf(b, ReadHeader(b), files),
      b[PayloadStart(ReadHeader(b)) + ReadHeader(b).payloadSize..])
  }

  /** And only assembled packages verify: every byte string whose structure passes is the assembly of its parts,
      all in order and undamaged. */
  lemma VerifiedIsAssembled(b: seq<byte>, allowDevelopment: bool, reader: ManifestReader, sha: Sha256) returns (p: Parts)
    requires StructureOf(b, allowDevelopment, reader, sha).Verified?
    ensures Shaped(p, reader) && Damage(p, sha, 0).None? && b == Assembled(p)
    ensures p.development ==> allowDevelopment
  {
    hide Joined, FileOk, Json.JsonText, TableBytes, PreludeOk, ReadHeader, Json.Accepted, Table, SizeUpTo, TableOk;
    hide Inside, StructuredAs, InOrder, LayoutOk, ContentsOf, EntryIs, Assembled;
    VerifiedIsStructured(b, allowDevelopment, reader, sha);
    var h := ReadHeader(b);
    var v := reader.document(ManifestText(b)).value;
    var files := reader.files(Development(b), v).value;
    StructuredParts(b, allowDevelopment, reader, sha, v, files);
    EntryParts(b, h, files, sha);
    EntriesAreInside(b, h, files, sha);
    p := PartsOf(b, v, files);
    PartsAreInOrder(b, v, files, sha);
    ContentsJoin(b, h, files, |files|);
    TableIsSame(p, |files|);
    StructuredIsSmall(b, allowDevelopment, reader, sha, v);
    RegionsAreFound(p);
    HeaderIsDetermined(b, Assembled(p));
    EnvelopeIsLast(p);
    SameRegions(b, Assembled(p), h);
  }

  lemma EnvelopeIsLast(p: Parts)
    requires Fits(p)
    ensures SignedSize(p) <= |Assembled(p)| && Assembled(p)[SignedSize(p)..] == p.envelope
  {
    hide Json.JsonText, TableBytes, Joined, FirstBytes, SizeBytes;
  }

  lemma EntriesAreInside(b: seq<byte>, h: Header, files: seq<File>, sha: Sha256)
    requires PayloadStart(h) + h.payloadSize <= |b| && forall i :: 0 <= i < |files| ==> EntryIs(b, h, files, i, sha)
    ensures Inside(h, files)
  {
    hide SizeUpTo, ValidPath, LexLess;
    forall i | 0 <= i < |files|
      ensures SizeUpTo(files, i) + files[i].size <= h.payloadSize
    {
      assert EntryIs(b, h, files, i, sha);
    }
  }

  lemma PartsAreInOrder(b: seq<byte>, v: Json.Json, files: seq<File>, sha: Sha256)
    requires |b| >= HEADER_SIZE && PayloadStart(ReadHeader(b)) + ReadHeader(b).payloadSize <= |b|
    requires Inside(ReadHeader(b), files)
    requires forall i :: 0 <= i < |files| ==> EntryIs(b, ReadHeader(b), files, i, sha)
    ensures InOrder(PartsOf(b, v, files)) && Damage(PartsOf(b, v, files), sha, 0).None?
  {
    hide SizeUpTo, ValidPath, LexLess, ReadHeader, ContentsOf, Inside;
    var p := PartsOf(b, v, files);
    forall i | 0 <= i < |files|
      ensures FileOk(p, i) && sha(p.contents[i]) == Some(files[i].sha256)
    {
      assert EntryIs(b, ReadHeader(b), files, i, sha);
      ContentAt(b, ReadHeader(b), files, i);
    }
    NoDamage(p, sha, 0);
  }

  lemma StructuredIsSmall(b: seq<byte>, allowDevelopment: bool, reader: ManifestReader, sha: Sha256, v: Json.Json)
    requires StructuredAs(b, allowDevelopment, reader, sha, v)
    ensures PreludeOk(b) && LayoutOk(ReadHeader(b), |b|, Development(b)) && |b| <= 268435456 + 96
    ensures 1 <= ReadHeader(b).manifestSize <= 65536 && 1 <= ReadHeader(b).entryCount <= 256
    ensures Json.Accepted(v) && v.Object? && reader.document(Json.JsonText(v)) == Some(v)
  {
    hide TableOk, LayoutOk, ReadHeader, Json.Accepted, Json.JsonText;
    LayoutIsSmall(ReadHeader(b), |b|, Development(b));
  }

  lemma VerifiedIsStructured(b: seq<byte>, allowDevelopment: bool, reader: ManifestReader, sha: Sha256)
    requires StructureOf(b, allowDevelopment, reader, sha).Verified?
    ensures |b| >= HEADER_SIZE && TableStart(ReadHeader(b)) <= |b| && reader.document(ManifestText(b)).Some?
    ensures
      var v := reader.document(ManifestText(b)).value;
      && StructuredAs(b, allowDevelopment, reader, sha, v) && reader.files(Development(b), v).Some?
      && TableOk(b, ReadHeader(b), reader.files(Development(b), v).value, sha)
      && (Development(b) ==> allowDevelopment)
  {
    hide TableOk, LayoutOk, PreludeOk, ReadHeader, Json.Accepted, Json.JsonText, WalkFrom;
    PreludeHasSize(b);
    LayoutIsReadable(b);
    LayoutCounts(ReadHeader(b), |b|, Development(b));
    WalkStarted(b, ReadHeader(b), ManifestFiles(reader, ManifestText(b), Development(b)).value, sha);
  }

  lemma LayoutIsSmall(h: Header, size: nat, development: bool)
    requires LayoutOk(h, size, development)
    ensures 1 <= h.manifestSize <= 65536 && 1 <= h.entryCount <= 256
  {
  }

  lemma {:induction false} NoDamage(p: Parts, sha: Sha256, i: nat)
    requires |p.files| == |p.contents| && i <= |p.files|
    requires forall k :: 0 <= k < |p.files| ==> sha(p.contents[k]) == Some(p.files[k].sha256)
    ensures Damage(p, sha, i).None?
    decreases |p.files| - i
  {
    if i < |p.files| {
      NoDamage(p, sha, i + 1);
    }
  }

  lemma SameRegions(a: seq<byte>, b: seq<byte>, h: Header)
    requires |a| == |b| && HEADER_SIZE <= TableStart(h) <= PayloadStart(h) <= PayloadStart(h) + h.payloadSize <= |a|
    requires a[..HEADER_SIZE] == b[..HEADER_SIZE] && a[HEADER_SIZE..TableStart(h)] == b[HEADER_SIZE..TableStart(h)]
    requires a[TableStart(h)..PayloadStart(h)] == b[TableStart(h)..PayloadStart(h)]
    requires a[PayloadStart(h)..PayloadStart(h) + h.payloadSize] == b[PayloadStart(h)..PayloadStart(h) + h.payloadSize]
    requires a[PayloadStart(h) + h.payloadSize..] == b[PayloadStart(h) + h.payloadSize..]
    ensures a == b
  {
    var n := PayloadStart(h) + h.payloadSize;
    Glue(a, b, HEADER_SIZE, TableStart(h));
    Glue(a, b, TableStart(h), PayloadStart(h));
    Glue(a, b, PayloadStart(h), n);
    assert a == a[..n] + a[n..] && b == b[..n] + b[n..];
  }
}
