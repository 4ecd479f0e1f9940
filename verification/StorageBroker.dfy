/** The record storage of one application: a directory of private files under a quota, replaced
    atomically. Power may be lost at every step, and takes with it what was not synced. */
module StorageBroker {
  import opened Bytes
  import opened FileWrite
  import opened Text
  import opened StorageProtocol

  type Name = seq<byte>

  /** A private regular file, or anything else a directory entry can be. */
  datatype Entry = Regular(bytes: seq<byte>) | Foreign

  type Files = map<Name, Entry>

  /** The directory as the running system sees it, and what power loss may leave of it: every content it
      has had since it was last synced, the present one included. */
  datatype Volume = Volume(visible: Files, maybe: set<Files>)

  function Settled(files: Files): Volume { Volume(files, {files}) }

  /** A change that is visible at once, and on the disk some time later. */
  function Put(k: Volume, files: Files): Volume { Volume(files, k.maybe + {files}) }

  function Synced(k: Volume): Volume { Settled(k.visible) }

  /** How far the directory has been read through its descriptor. A session keeps one descriptor for all its
      requests, and every scan goes on reading where the last one stopped. */
  datatype Position = Start | Partway | End

  /** The directory as a session has it open. */
  datatype Handle = Handle(volume: Volume, position: Position)

  datatype Limits = Limits(files: u32, mib: u32)

  function Quota(l: Limits): u64 { l.mib * 1024 * 1024 }

  const BROKER_PREFIX: seq<byte> := [0x2e, 0x62, 0x72, 0x6f, 0x6b, 0x65, 0x72, 0x2d]
  const LEGACY_PREFIX: seq<byte> := [0x2e, 0x77, 0x72, 0x69, 0x74, 0x65, 0x2d]

  /** A leftover of an interrupted write: a prefix and 24 hexadecimal digits. */
  predicate Temporary(name: Name) {
    var prefix := if BROKER_PREFIX <= name then BROKER_PREFIX else LEGACY_PREFIX;
    prefix <= name && LowerHex(name[|prefix|..], 24)
  }

  /** Twelve random bytes as hexadecimal digits. */
  type Random = s: seq<byte> | |s| == 12 witness Zeros(12)

  function Suffix(r: Random): (s: seq<byte>)
    ensures |s| == 24
  {
    seq(24, i requires 0 <= i < 24 => HexDigit(if i % 2 == 0 then r[i / 2] / 16 else r[i / 2] % 16))
  }

  method RandomSuffix(r: Random) returns (s: seq<byte>)
    ensures s == Suffix(r)
  {
    s := [];
    for i := 0 to 12
      invariant |s| == 2 * i && forall k :: 0 <= k < 2 * i ==> s[k] == Suffix(r)[k]
    {
      assert 2 * i / 2 == i && (2 * i + 1) / 2 == i;
      s := s + [HexDigit(r[i] / 16)];
      s := s + [HexDigit(r[i] % 16)];
    }
  }

  function TemporaryName(r: Random): Name { BROKER_PREFIX + Suffix(r) }

  /** The name of a temporary file is recognised as one, and is never the name of a record. */
  lemma TemporariesAreNoRecords(name: Name, r: Random)
    ensures Temporary(name) ==> !ValidName(name)
    ensures Temporary(TemporaryName(r))
  {
    var t := TemporaryName(r);
    assert t[..8] == BROKER_PREFIX && t[8..] == Suffix(r);
    assert BROKER_PREFIX <= t;
    if Temporary(name) {
      assert name[0] == DOT;
    }
  }

  datatype Usage = Usage(files: nat, bytes: nat)

  /** The order in which the entries are read, which files cannot be deleted, whether the directory
      can be synced, and whether power is lost when the entries listed have been handled. */
  datatype ScanEnv = ScanEnv(order: seq<Name>, undeletable: set<Name>, synced: bool, lost: bool)

  /** A scan may fail at an entry, or when all have been read and the directory cannot be synced. */
  datatype Scan = Scanned(usage: Usage) | ScanFailed(atEnd: bool) | ScanLost

  predicate Countable(name: Name, e: Entry, usage: Usage) {
    && e.Regular? && e.bytes != [] && ValidName(name) && |e.bytes| <= MAXIMUM_RECORD
    && usage.files != 0xffff_ffff && usage.bytes <= U64_MAX - |e.bytes|
  }

  /** The scan from some entry on. */
  function ScanFrom(k: Volume, order: seq<Name>, usage: Usage, cleaned: bool, env: ScanEnv): (Volume, Scan)
    decreases |order|
  {
    if order == [] then
      if env.lost then (k, ScanLost)
      else if cleaned then (if env.synced then (Synced(k), Scanned(usage)) else (k, ScanFailed(true)))
      else (k, Scanned(usage))
    else
      var name, files := order[0], k.visible;
      if name !in files || files[name].Foreign? then (k, ScanFailed(false))
      else if Temporary(name) then
        if name in env.undeletable then (k, ScanFailed(false))
        else ScanFrom(Put(k, files - {name}), order[1..], usage, true, env)
      else if !Countable(name, files[name], usage) then (k, ScanFailed(false))
      else
        ScanFrom(k, order[1..], Usage(usage.files + 1, usage.bytes + |files[name].bytes|), cleaned, env)
  }

  function ScanOf(k: Volume, env: ScanEnv): (Volume, Scan) { ScanFrom(k, env.order, Usage(0, 0), false, env) }

  /** Where a scan leaves the descriptor. After a power loss the directory is opened anew. */
  function PositionAfter(result: Scan): Position {
    match result
    case Scanned(_) => End
    case ScanFailed(atEnd) => if atEnd then End else Partway
    case ScanLost => Start
  }

  datatype Rename = Renamed | RenameRefused | LostBefore | LostAfter

  /** What the environment does during one write. */
  datatype WriteEnv = WriteEnv(
    scan: ScanEnv, statOk: bool, random: Option<Random>, created: bool, lostWriting: Option<nat>,
    counts: seq<Count>, fileSynced: bool, rename: Rename, directorySynced: bool, unlinked: bool)

  predicate Corrupt(files: Files, name: Name) {
    name in files && (files[name].Foreign? || files[name].bytes == [])
  }

  function SizeOf(files: Files, name: Name): nat {
    if name in files && files[name].Regular? then |files[name].bytes| else 0
  }

  /** The quota test, with the usage the scan counted. */
  predicate Fits(files: Files, usage: Usage, r: Request, l: Limits) {
    && usage.files <= 0xffff_ffff && usage.bytes <= U64_MAX && SizeOf(files, r.record) <= U64_MAX
    && |r.data| <= U64_MAX
    && WithinQuota(usage.files, usage.bytes, r.record in files, SizeOf(files, r.record), |r.data|, l.files, Quota(l))
  }

  /** The directory when the temporary file holds `bytes`. */
  function Left(files: Files, t: Name, bytes: seq<byte>): Files { files[t := Regular(bytes)] }

  /** A write after the scan; no status when power is lost. */
  function Replaced(k: Volume, usage: Usage, r: Request, l: Limits, env: WriteEnv): (Volume, Option<u16>) {
    var files := k.visible;
    if !env.statOk then (k, Some(IO_ERROR))
    else if Corrupt(files, r.record) then (k, Some(STORAGE_CORRUPT))
    else if !Fits(files, usage, r, l) then (k, Some(QUOTA_EXCEEDED))
    else if env.random.None? then (k, Some(IO_ERROR))
    else
      var t := TemporaryName(env.random.value);
      if !env.created || t in files then (if env.unlinked then Put(k, files - {t}) else k, Some(IO_ERROR))
      else Moved(Put(k, Left(files, t, [])), files, t, r, env)
  }

  /** Filling the temporary file and moving it to its place, over the files there were. */
  function Moved(k: Volume, files: Files, t: Name, r: Request, env: WriteEnv): (Volume, Option<u16>) {
    var reached := Reached(|r.data|, env.counts);
    var filled := Put(k, Left(files, t, r.data[..reached]));
    if env.lostWriting.Some? then
      (Put(k, Left(files, t, if env.lostWriting.value <= |r.data| then r.data[..env.lostWriting.value] else r.data)),
       None)
    else if reached < |r.data| || !env.fileSynced || env.rename.RenameRefused? then
      (if env.unlinked then Put(filled, files) else filled, Some(IO_ERROR))
    else if env.rename.LostBefore? then (filled, None)
    else
      var renamed := Put(filled, files[r.record := Regular(r.data)]);
      if env.rename.LostAfter? then (renamed, None)
      else if env.directorySynced then (Synced(renamed), Some(OK)) else (renamed, Some(IO_ERROR))
  }

  function Written(h: Handle, r: Request, l: Limits, env: WriteEnv): (Handle, Option<u16>) {
    var (scanned, result) := ScanOf(h.volume, env.scan);
    var position := PositionAfter(result);
    match result
    case ScanLost => (Handle(scanned, position), None)
    case ScanFailed(_) => (Handle(scanned, position), Some(STORAGE_CORRUPT))
    case Scanned(usage) =>
      var (replaced, status) := Replaced(scanned, usage, r, l, env);
      (Handle(replaced, position), status)
  }

  /** Whether the record can be opened, what the reads return, and whether the file ends where it should. */
  datatype ReadEnv = ReadEnv(scan: ScanEnv, openOk: bool, counts: seq<Count>, ended: bool)

  /** What a read answers after the scan. */
  function Answer(files: Files, usage: Usage, r: Request, l: Limits, env: ReadEnv): (u16, seq<byte>) {
    if usage.files > l.files || usage.bytes > Quota(l) then (STORAGE_CORRUPT, [])
    else if r.record !in files then (NOT_FOUND, [])
    else if !env.openOk then (IO_ERROR, [])
    else if files[r.record].Foreign? || files[r.record].bytes == [] || |files[r.record].bytes| > r.maximum then
      (STORAGE_CORRUPT, [])
    else if Reached(|files[r.record].bytes|, env.counts) < |files[r.record].bytes| then (IO_ERROR, [])
    else if !env.ended then (STORAGE_CORRUPT, [])
    else (OK, files[r.record].bytes)
  }

  function ReadOf(h: Handle, r: Request, l: Limits, env: ReadEnv): (Handle, Option<(u16, seq<byte>)>) {
    var (scanned, result) := ScanOf(h.volume, env.scan);
    (Handle(scanned, PositionAfter(result)),
     match result
     case ScanLost => None
     case ScanFailed(_) => Some((STORAGE_CORRUPT, []))
     case Scanned(usage) => Some(Answer(scanned.visible, usage, r, l, env)))
  }

  /** The broker, working on the directory in place, through one descriptor. */
  class Broker {
    var volume: Volume
    var position: Position
    const limits: Limits

    function Now(): Handle
      reads this
    {
      Handle(volume, position)
    }

    constructor (volume: Volume, limits: Limits)
      ensures Now() == Handle(volume, Start) && this.limits == limits
    {
      this.volume, this.position, this.limits := volume, Start, limits;
    }

    /** Opening the directory again, as every session does. */
    method Open()
      modifies this
      ensures Now() == Handle(old(volume), Start)
    {
      position := Start;
    }

    /** Counts the records and deletes leftovers, in the order the directory lists them. */
    method ScanStorage(env: ScanEnv) returns (result: Scan)
      modifies this
      ensures (volume, result) == ScanOf(old(volume), env) && position == PositionAfter(result)
    {
      hide Temporary, Countable, ValidName;
      var usage, cleaned := Usage(0, 0), false;
      assert env.order[0..] == env.order;
      for i := 0 to |env.order|
        invariant ScanFrom(volume, env.order[i..], usage, cleaned, env) == ScanOf(old(volume), env)
      {
        var name, files := env.order[i], volume.visible;
        assert env.order[i..][1..] == env.order[i + 1..];
        position := Partway;
        if name !in files || files[name].Foreign? {
          return ScanFailed(false);
        }
        if Temporary(name) {
          if name in env.undeletable {
            return ScanFailed(false);
          }
          volume := Put(volume, files - {name});
          cleaned := true;
        } else if !Countable(name, files[name], usage) {
          return ScanFailed(false);
        } else {
          usage := Usage(usage.files + 1, usage.bytes + |files[name].bytes|);
        }
      }
      assert env.order[|env.order|..] == [];
      if env.lost {
        position := Start;
        return ScanLost;
      }
      position := End;
      if cleaned {
        if !env.synced {
          return ScanFailed(true);
        }
        volume := Synced(volume);
      }
      result := Scanned(usage);
    }

    method WriteRecord(r: Request, env: WriteEnv) returns (status: Option<u16>)
      modifies this
      ensures (Now(), status) == Written(old(Now()), r, limits, env)
    {
      hide ScanFrom, Fits, ScanOf, Suffix, Reached;
      var scan := ScanStorage(env.scan);
      if scan.ScanLost? {
        return None;
      }
      if scan.ScanFailed? {
        return Some(STORAGE_CORRUPT);
      }
      status := Replace(r, scan.usage, env);
    }

    method Replace(r: Request, usage: Usage, env: WriteEnv) returns (status: Option<u16>)
      modifies this`volume
      ensures (volume, status) == Replaced(old(volume), usage, r, limits, env)
    {
      hide Fits, Suffix, Reached, Corrupt;
      var files := volume.visible;
      if !env.statOk {
        return Some(IO_ERROR);
      }
      if Corrupt(files, r.record) {
        return Some(STORAGE_CORRUPT);
      }
      if !Fits(files, usage, r, limits) {
        return Some(QUOTA_EXCEEDED);
      }
      if env.random.None? {
        return Some(IO_ERROR);
      }
      var suffix := RandomSuffix(env.random.value);
      var temporary := BROKER_PREFIX + suffix;
      if !env.created || temporary in files {
        volume := if env.unlinked then Put(volume, files - {temporary}) else volume;
        return Some(IO_ERROR);
      }
      volume := Put(volume, files[temporary := Regular([])]);
      if env.lostWriting.Some? {
        var n := env.lostWriting.value;
        var part := if n <= |r.data| then r.data[..n] else r.data;
        volume := Put(volume, volume.visible[temporary := Regular(part)]);
        assert volume.visible == Left(files, temporary, part);
        return None;
      }
      var complete, contents := MoveAll(r.data, env.counts);
      volume := Put(volume, volume.visible[temporary := Regular(contents)]);
      assert volume.visible == Left(files, temporary, contents) && volume.visible - {temporary} == files;
      if !complete || !env.fileSynced || env.rename.RenameRefused? {
        volume := if env.unlinked then Put(volume, volume.visible - {temporary}) else volume;
        return Some(IO_ERROR);
      }
      if env.rename.LostBefore? {
        return None;
      }
      volume := Put(volume, (volume.visible - {temporary})[r.record := volume.visible[temporary]]);
      if env.rename.LostAfter? {
        return None;
      }
      if !env.directorySynced {
        return Some(IO_ERROR);
      }
      volume := Synced(volume);
      status := Some(OK);
    }

    method ReadRecord(r: Request, env: ReadEnv) returns (answer: Option<(u16, seq<byte>)>)
      modifies this
      ensures (Now(), answer) == ReadOf(old(Now()), r, limits, env)
    {
      hide ScanFrom, ScanOf, Reached;
      var scan := ScanStorage(env.scan);
      if scan.ScanLost? {
        return None;
      }
      if scan.ScanFailed? {
        return Some((STORAGE_CORRUPT, []));
      }
      if scan.usage.files > limits.files || scan.usage.bytes > Quota(limits) {
        return Some((STORAGE_CORRUPT, []));
      }
      if r.record !in volume.visible {
        return Some((NOT_FOUND, []));
      }
      if !env.openOk {
        return Some((IO_ERROR, []));
      }
      var entry := volume.visible[r.record];
      if entry.Foreign? || entry.bytes == [] || |entry.bytes| > r.maximum {
        return Some((STORAGE_CORRUPT, []));
      }
      var complete, data := MoveAll(entry.bytes, env.counts);
      if !complete {
        return Some((IO_ERROR, []));
      }
      answer := Some(if env.ended then (OK, data) else (STORAGE_CORRUPT, []));
    }
  }

  /** The records: everything that is not a leftover. */
  function Records(files: Files): Files { map n | n in files && !Temporary(n) :: files[n] }

  function Size(e: Entry): nat { if e.Regular? then |e.bytes| else 0 }

  /** The sizes of all files added up. */
  ghost function Total(m: Files): nat {
    if m == map[] then 0
    else
      var n :| n in m;
      Size(m[n]) + Total(m - {n})
  }

  /** The sum does not depend on the order. */
  lemma {:induction false} TotalWithout(m: Files, n: Name)
    requires n in m
    ensures Total(m) == Size(m[n]) + Total(m - {n})
    decreases |m|
  {
    var k :| k in m && Total(m) == Size(m[k]) + Total(m - {k});
    if k != n {
      TotalWithout(m - {k}, n);
      TotalWithout(m - {n}, k);
      assert m - {k} - {n} == m - {n} - {k};
    }
  }

  lemma TotalWith(m: Files, n: Name, e: Entry)
    ensures Total(m[n := e]) == Size(e) + Total(m - {n})
    ensures |m[n := e]| == |m - {n}| + 1
  {
    hide Total;
    TotalWithout(m[n := e], n);
    assert m[n := e] - {n} == m - {n};
    KeysWith(m, n, e);
  }

  lemma KeysWith(m: Files, n: Name, e: Entry)
    ensures |m[n := e]| == |m - {n}| + 1
  {
    var rest := m - {n};
    assert m[n := e].Keys == rest.Keys + {n};
    assert |rest.Keys + {n}| == |rest.Keys| + 1;
  }

  /** A record the scan accepts. */
  predicate Proper(name: Name, e: Entry) { e.Regular? && 0 < |e.bytes| <= MAXIMUM_RECORD && ValidName(name) }

  lemma RecordsWithout(files: Files, n: Name)
    requires Temporary(n)
    ensures Records(files - {n}) == Records(files)
  {
    hide Temporary;
  }

  lemma RecordsBeside(files: Files, n: Name, e: Entry)
    requires Temporary(n)
    ensures Records(files[n := e]) == Records(files)
  {
    hide Temporary;
  }

  /** Scanning deletes leftovers and nothing else, however it ends: everything that power loss may leave
      was possible before, or is part of what was visible and has all its records. */
  lemma {:induction false} ScanKeepsRecords(k: Volume, order: seq<Name>, usage: Usage, cleaned: bool, env: ScanEnv)
    ensures
      var after := ScanFrom(k, order, usage, cleaned, env).0;
      && Remains(after.visible, k.visible)
      && (k.visible in k.maybe ==> after.visible in after.maybe)
      && forall d :: d in after.maybe ==> d in k.maybe || Remains(d, k.visible)
    decreases |order|
  {
    hide Temporary, Countable, Records;
    if order != [] && order[0] in k.visible && k.visible[order[0]].Regular? {
      var name := order[0];
      if Temporary(name) {
        RecordsWithout(k.visible, name);
        ScanKeepsRecords(Put(k, k.visible - {name}), order[1..], usage, true, env);
      } else {
        ScanKeepsRecords(k, order[1..], Usage(usage.files + 1, usage.bytes + |k.visible[name].bytes|), cleaned, env);
      }
    }
  }

  /** Part of the files, with all their records. */
  ghost predicate Remains(part: Files, files: Files) {
    Records(part) == Records(files) && forall n :: n in part ==> n in files && part[n] == files[n]
  }

  /** Every entry is listed at most once. */
  ghost predicate Lists(order: seq<Name>, files: Files) {
    && (forall i :: 0 <= i < |order| ==> order[i] in files)
    && (forall i, j :: 0 <= i < j < |order| ==> order[i] != order[j])
  }

  /** What a scan can list: the whole directory from the start, unless power is lost; some of it when an
      earlier scan stopped on the way; and nothing once the end was reached. */
  ghost predicate Listed(env: ScanEnv, h: Handle) {
    && Lists(env.order, h.volume.visible)
    && (h.position.Start? && !env.lost ==> forall n :: n in h.volume.visible ==> n in env.order)
    && (h.position.End? ==> env.order == [])
  }

  /** The records among the names listed. */
  function Found(files: Files, order: seq<Name>): Files {
    map n | n in order && n in files && !Temporary(n) :: files[n]
  }

  /** With those seen before. */
  function Counts(files: Files, order: seq<Name>, seen: Files): Files { seen + Found(files, order) }

  ghost function UsageOf(m: Files): Usage { Usage(|m|, Total(m)) }

  /** None of the names still to be listed was seen before. */
  ghost predicate Unseen(order: seq<Name>, seen: Files) { forall i :: 0 <= i < |order| ==> order[i] !in seen }

  lemma MembersStep(order: seq<Name>)
    requires order != []
    ensures forall n :: n in order <==> n == order[0] || n in order[1..]
  {
  }

  lemma ListStep(files: Files, order: seq<Name>, seen: Files)
    requires order != [] && Lists(order, files) && Unseen(order, seen)
    ensures order[0] !in order[1..] && Lists(order[1..], files) && Lists(order[1..], files - {order[0]})
    ensures Unseen(order[1..], seen) && Unseen(order[1..], seen[order[0] := files[order[0]]])
  {
    var rest := order[1..];
    assert forall i :: 0 <= i < |rest| ==> rest[i] == order[i + 1] && rest[i] != order[0];
  }

  lemma FoundStep(files: Files, order: seq<Name>)
    requires order != [] && order[0] in files && order[0] !in order[1..]
    ensures
      var name, rest := order[0], order[1..];
      Found(files, order) ==
        if Temporary(name) then Found(files - {name}, rest) else Found(files, rest)[name := files[name]]
    ensures order[0] !in Found(files, order[1..])
  {
    hide Temporary;
    MembersStep(order);
  }

  lemma CountStep(files: Files, order: seq<Name>, seen: Files)
    requires order != [] && order[0] in files && order[0] !in order[1..]
    ensures
      var name, rest := order[0], order[1..];
      Counts(files, order, seen) ==
        if Temporary(name) then Counts(files - {name}, rest, seen)
        else Counts(files, rest, seen[name := files[name]])
  {
    hide Temporary, Found;
    FoundStep(files, order);
  }

  lemma SeenGrows(seen: Files, n: Name, e: Entry)
    requires AllProper(seen) && n !in seen && !Temporary(n) && Proper(n, e)
    ensures AllProper(seen[n := e])
    ensures UsageOf(seen[n := e]) == Usage(|seen| + 1, Total(seen) + |e.bytes|)
  {
    hide Temporary, ValidName, Total;
    TotalWith(seen, n, e);
    assert seen - {n} == seen;
  }

  ghost predicate AllProper(files: Files) {
    forall n :: n in files ==> !Temporary(n) && Proper(n, files[n])
  }

  lemma NothingCounts(files: Files, seen: Files)
    ensures Counts(files, [], seen) == seen
  {
  }

  /** What the scan counts is what it lists: when it succeeds, every record listed is proper, the usage is
      their number and their total size, and no leftover listed remains. */
  lemma {:induction false} ScanCounts(
    k: Volume, order: seq<Name>, seen: Files, usage: Usage, cleaned: bool, env: ScanEnv)
    requires Lists(order, k.visible) && Unseen(order, seen) && AllProper(seen) && usage == UsageOf(seen)
    ensures
      var (after, result) := ScanFrom(k, order, usage, cleaned, env);
      var all := Counts(k.visible, order, seen);
      result.Scanned? ==>
        && AllProper(all) && result.usage == UsageOf(all)
        && forall n :: n in order && Temporary(n) ==> n !in after.visible
    decreases |order|
  {
    hide Temporary, ValidName, Total, AllProper, Counts, Lists, Unseen;
    var files := k.visible;
    if order == [] {
      NothingCounts(files, seen);
      assert Counts(files, order, seen) == seen;
    } else if order[0] in files && files[order[0]].Regular? {
      var name := order[0];
      FirstListed(files, order, seen);
      ListStep(files, order, seen);
      CountStep(files, order, seen);
      MembersStep(order);
      if Temporary(name) {
        ScanCounts(Put(k, files - {name}), order[1..], seen, usage, true, env);
        ScanKeepsRecords(Put(k, files - {name}), order[1..], usage, true, env);
      } else if Countable(name, files[name], usage) {
        SeenGrows(seen, name, files[name]);
        ScanCounts(k, order[1..], seen[name := files[name]],
          Usage(usage.files + 1, usage.bytes + |files[name].bytes|), cleaned, env);
      }
    }
  }

  /** A scan that succeeds has counted the records it listed. From the start of the directory those are all
      there are, and exactly they are left; at its end there are none. */
  lemma ScanMeansRecords(h: Handle, env: ScanEnv)
    requires Listed(env, h)
    ensures
      var files := h.volume.visible;
      var (after, result) := ScanOf(h.volume, env);
      var all := Counts(files, env.order, map[]);
      && Records(after.visible) == Records(files)
      && (result.Scanned? ==>
            && AllProper(all) && result.usage == UsageOf(all)
            && (h.position.Start? ==> all == Records(files) && after.visible == all)
            && (h.position.End? ==> result.usage == Usage(0, 0) && after == h.volume))
  {
    hide Temporary, Proper, Countable, ScanFrom, Total;
    var k := h.volume;
    NothingLost(k, env);
    ScanKeepsRecords(k, env.order, Usage(0, 0), false, env);
    NothingSeen();
    ScanCounts(k, env.order, map[], Usage(0, 0), false, env);
    if h.position.End? {
      NothingListed(k, env);
      assert Counts(k.visible, env.order, map[]) == map[];
    }
  }

  lemma NothingSeen()
    ensures AllProper(map[]) && Total(map[]) == 0
  {
  }

  lemma NothingListed(k: Volume, env: ScanEnv)
    requires env.order == []
    ensures ScanOf(k, env) == (k, if env.lost then ScanLost else Scanned(Usage(0, 0)))
  {
  }

  lemma {:induction false} LostIsNotScanned(k: Volume, order: seq<Name>, usage: Usage, cleaned: bool, env: ScanEnv)
    requires env.lost
    ensures !ScanFrom(k, order, usage, cleaned, env).1.Scanned?
    decreases |order|
  {
    hide Temporary, Countable;
    if order != [] && order[0] in k.visible && k.visible[order[0]].Regular? {
      var name := order[0];
      if Temporary(name) {
        LostIsNotScanned(Put(k, k.visible - {name}), order[1..], usage, true, env);
      } else {
        LostIsNotScanned(k, order[1..], Usage(usage.files + 1, usage.bytes + |k.visible[name].bytes|), cleaned, env);
      }
    }
  }

  lemma NothingLost(k: Volume, env: ScanEnv)
    ensures ScanOf(k, env).1.Scanned? ==> !env.lost
  {
    if env.lost {
      LostIsNotScanned(k, env.order, Usage(0, 0), false, env);
    }
  }

  /** The quota test is exact: on a directory of proper records, whatever its size, it admits a write
      if and only if the directory with the record written is within the limits. */
  lemma QuotaTestIsExact(m: Files, name: Name, data: seq<byte>, l: Limits, r: Request)
    requires AllProper(m) && r.record == name && r.data == data
    requires |m| <= 0xffff_ffff && Total(m) <= U64_MAX && 0 < |data| <= MAXIMUM_RECORD
    ensures Fits(m, Usage(|m|, Total(m)), r, l) <==>
      |m[name := Regular(data)]| <= l.files && Total(m[name := Regular(data)]) <= Quota(l)
  {
    hide Temporary, ValidName, Total;
    TotalWith(m, name, Regular(data));
    if name in m {
      TotalWithout(m, name);
      KeysWith(m, name, m[name]);
      assert m[name := m[name]] == m;
    } else {
      assert m - {name} == m;
    }
  }

  /** The records a write makes of those there were. */
  function Updated(m: Files, r: Request): Files { m[r.record := Regular(r.data)] }

  ghost predicate AllRegular(files: Files) { forall n :: n in files ==> files[n].Regular? }

  /** The scan succeeds and the quota test lets the write through. */
  predicate Admitted(h: Handle, r: Request, l: Limits, env: ScanEnv) {
    var (scanned, result) := ScanOf(h.volume, env);
    result.Scanned? && Fits(scanned.visible, result.usage, r, l)
  }

  /** What a change does to all that power loss may leave: nothing new, the records as they were, or, if the
      write was admitted, the records as it makes them. */
  ghost predicate Atomic(before: Volume, after: Volume, r: Request, admitted: bool) {
    var m := Records(before.visible);
    && (before.visible in before.maybe ==> after.visible in after.maybe)
    && forall d :: d in after.maybe || d == after.visible ==>
      || d in before.maybe
      || ((AllRegular(before.visible) ==> AllRegular(d))
          && (Records(d) == m || (admitted && Records(d) == Updated(m, r))))
  }

  /** One write, at any position, seen from the records: whatever happens, and whatever power loss leaves of
      it, they stay or the one record is replaced as a whole. After `ok` it is replaced for good, and from the
      start of the directory no leftover remains; a refused write leaves the records alone. */
  lemma WriteIsAtomic(h: Handle, r: Request, l: Limits, env: WriteEnv)
    requires Listed(env.scan, h) && ValidRequest(r) && r.command == WRITE
    ensures
      var (after, status) := Written(h, r, l, env);
      var m := Records(h.volume.visible);
      && Atomic(h.volume, after.volume, r, Admitted(h, r, l, env.scan))
      && Records(after.volume.visible) in {m, Updated(m, r)}
      && (status == Some(OK) ==>
            && after.volume == Settled(after.volume.visible) && Records(after.volume.visible) == Updated(m, r)
            && (h.position.Start? ==> after.volume.visible == Updated(m, r)))
      && (status == Some(QUOTA_EXCEEDED) || status == Some(STORAGE_CORRUPT) ==> Records(after.volume.visible) == m)
  {
    hide Temporary, ValidName, Total, ScanOf, Fits, Proper, Suffix, Records, AllProper, Reached, Replaced, Atomic;
    ScanMeansRecords(h, env.scan);
    ScanIsAtomic(h.volume, env.scan, r);
    var (scanned, result) := ScanOf(h.volume, env.scan);
    if result.Scanned? {
      ReplaceIsAtomic(scanned, result.usage, r, l, env);
      AtomicOn(h.volume, scanned, Replaced(scanned, result.usage, r, l, env).0, r,
        Fits(scanned.visible, result.usage, r, l));
    } else {
      AtomicMore(h.volume, scanned, r, Admitted(h, r, l, env.scan));
    }
  }

  lemma ScanIsAtomic(k: Volume, env: ScanEnv, r: Request)
    ensures Atomic(k, ScanOf(k, env).0, r, false)
    ensures AllRegular(k.visible) ==> AllRegular(ScanOf(k, env).0.visible)
  {
    hide ScanFrom, Records;
    ScanKeepsRecords(k, env.order, Usage(0, 0), false, env);
  }

  lemma AtomicMore(k: Volume, after: Volume, r: Request, admitted: bool)
    requires Atomic(k, after, r, false)
    ensures Atomic(k, after, r, admitted)
  {
    hide Records, AllRegular;
  }

  lemma AtomicOn(k: Volume, scanned: Volume, after: Volume, r: Request, admitted: bool)
    requires Atomic(k, scanned, r, false) && Atomic(scanned, after, r, admitted)
    requires Records(scanned.visible) == Records(k.visible)
    requires AllRegular(k.visible) ==> AllRegular(scanned.visible)
    ensures Atomic(k, after, r, admitted)
  {
    hide Records, AllRegular;
  }

  lemma RecordsOfProper(m: Files)
    requires AllProper(m)
    ensures Records(m) == m
  {
    hide Temporary, Proper;
  }

  lemma RecordsWith(m: Files, n: Name, e: Entry)
    requires ValidName(n)
    ensures Records(m[n := e]) == Records(m)[n := e]
  {
    TemporariesAreNoRecords(n, Zeros(12));
    hide Temporary, Proper, ValidName;
  }

  lemma ReplaceIsAtomic(k: Volume, usage: Usage, r: Request, l: Limits, env: WriteEnv)
    requires ValidRequest(r) && r.command == WRITE
    ensures
      var m := Records(k.visible);
      var (after, status) := Replaced(k, usage, r, l, env);
      && Atomic(k, after, r, Fits(k.visible, usage, r, l)) && Records(after.visible) in {m, Updated(m, r)}
      && (status == Some(OK) ==> after == Settled(Updated(k.visible, r)) && Records(after.visible) == Updated(m, r))
      && (status == Some(QUOTA_EXCEEDED) || status == Some(STORAGE_CORRUPT) ==> Records(after.visible) == m)
      && (status != Some(OK) ==> k.maybe <= after.maybe)
  {
    hide Temporary, ValidName, Total, Fits, Proper, Suffix, Records, AllProper, Reached, Moved, AllRegular;
    if Fits(k.visible, usage, r, l) && env.random.Some? {
      var t := TemporaryName(env.random.value);
      TemporariesAreNoRecords(t, env.random.value);
      RecordsWithout(k.visible, t);
      RegularWithout(k.visible, t);
      MoveIsAtomic(k, k.visible, t, r, env);
    }
  }

  lemma RegularWithout(m: Files, n: Name)
    ensures AllRegular(m) ==> AllRegular(m - {n})
  {
  }

  lemma MoveIsAtomic(k: Volume, files: Files, t: Name, r: Request, env: WriteEnv)
    requires k.visible == files && ValidName(r.record) && Temporary(t)
    ensures
      var m := Records(files);
      var (after, status) := Moved(Put(k, Left(files, t, [])), files, t, r, env);
      && Atomic(k, after, r, true) && Records(after.visible) in {m, Updated(m, r)}
      && (status == Some(OK) ==> after == Settled(Updated(files, r)) && Records(after.visible) == Updated(m, r))
      && (status != Some(OK) ==> k.maybe <= after.maybe)
      && status != Some(QUOTA_EXCEEDED) && status != Some(STORAGE_CORRUPT)
  {
    hide Temporary, ValidName, Total, Records, AllProper, Reached, AllRegular, Left;
    RecordsWith(files, r.record, Regular(r.data));
    RegularWith(files, r.record, r.data);
    forall bytes
      ensures Records(Left(files, t, bytes)) == Records(files)
      ensures AllRegular(files) ==> AllRegular(Left(files, t, bytes))
    {
      RecordsBeside(files, t, Regular(bytes));
      RegularWith(files, t, bytes);
      LeftIs(files, t, bytes);
    }
  }

  lemma LeftIs(m: Files, t: Name, bytes: seq<byte>)
    ensures Left(m, t, bytes) == m[t := Regular(bytes)]
  {
  }

  lemma RegularWith(m: Files, n: Name, bytes: seq<byte>)
    ensures AllRegular(m) ==> AllRegular(m[n := Regular(bytes)])
  {
  }

  /** Records within the limits. */
  ghost predicate FitsWithin(m: Files, l: Limits) { |m| <= l.files && Total(m) <= Quota(l) }

  /** Regular files only, and among them only proper records besides leftovers. */
  ghost predicate Sound(files: Files) { AllProper(Records(files)) && AllRegular(files) }

  /** The records are within the limits; leftovers do not count. */
  ghost predicate Within(files: Files, l: Limits) { Sound(files) && FitsWithin(Records(files), l) }

  /** The records with the write made are within the limits. */
  ghost predicate FitsTruly(h: Handle, r: Request, l: Limits) {
    FitsWithin(Updated(Records(h.volume.visible), r), l)
  }

  /** What the quota test lets through when the scan may have listed nothing: the record alone is within the
      limits, and at the end of the directory it must not be there yet. */
  predicate Admissible(h: Handle, r: Request, l: Limits) {
    l.files != 0 && |r.data| <= Quota(l) && (h.position.End? ==> r.record !in h.volume.visible)
  }

  /** What keeps a write within the limits: the directory has just been opened, or the write fits, or it cannot
      be admitted anyway. */
  ghost predicate Guarded(h: Handle, r: Request, l: Limits) {
    h.position.Start? || FitsTruly(h, r, l) || !Admissible(h, r, l)
  }

  /** A count of nothing lets a write through exactly when the record is not there and is within the quota by
      itself. */
  lemma EmptyCountAdmits(files: Files, r: Request, l: Limits)
    requires 0 < |r.data| <= MAXIMUM_RECORD
    ensures Fits(files, Usage(0, 0), r, l) <==> r.record !in files && l.files != 0 && |r.data| <= Quota(l)
  {
  }

  lemma FitsMeans(files: Files, usage: Usage, r: Request, l: Limits)
    requires Fits(files, usage, r, l)
    ensures usage.files <= 0xffff_ffff && usage.bytes <= U64_MAX && l.files != 0 && |r.data| <= Quota(l)
  {
  }

  /** A guarded write that is admitted is within the limits. */
  lemma AdmittedFits(h: Handle, r: Request, l: Limits, env: ScanEnv)
    requires Listed(env, h) && ValidRequest(r) && r.command == WRITE
    requires Admitted(h, r, l, env) && Guarded(h, r, l)
    ensures FitsTruly(h, r, l)
  {
    hide ScanOf, Fits, Records, Total, AllProper, Counts, ValidName, Lists;
    ScanMeansRecords(h, env);
    var (scanned, result) := ScanOf(h.volume, env);
    FitsMeans(scanned.visible, result.usage, r, l);
    if h.position.Start? {
      QuotaTestIsExact(scanned.visible, r.record, r.data, l, r);
    } else if h.position.End? {
      EmptyCountAdmits(scanned.visible, r, l);
    }
  }

  /** Nothing goes wrong outside the directory. */
  ghost predicate Healthy(env: ScanEnv, h: Handle) {
    Listed(env, h) && !env.lost && env.synced && env.undeletable == {}
  }

  lemma {:induction false} PartIsSmaller(part: Files, m: Files)
    requires forall n :: n in part ==> n in m && m[n] == part[n]
    ensures |part| <= |m| && Total(part) <= Total(m)
    decreases |m|
  {
    hide Total;
    if part != m {
      var n :| n in m && n !in part;
      PartIsSmaller(part, m - {n});
      TotalWithout(m, n);
    }
  }

  ghost predicate PartOf(part: Files, m: Files) { forall n :: n in part ==> n in m && m[n] == part[n] }

  lemma {:induction false} ScanSucceeds(
    k: Volume, order: seq<Name>, seen: Files, cleaned: bool, env: ScanEnv, l: Limits)
    requires Within(k.visible, l) && Lists(order, k.visible) && Unseen(order, seen)
    requires PartOf(seen, Records(k.visible)) && !env.lost && env.synced && env.undeletable == {}
    ensures ScanFrom(k, order, UsageOf(seen), cleaned, env).1.Scanned?
    decreases |order|
  {
    hide Total, AllProper, Records, Temporary, Countable, UsageOf, Lists, Unseen, Within;
    if order != [] {
      var name, files := order[0], k.visible;
      FirstListed(files, order, seen);
      ListStep(files, order, seen);
      RegularFile(files, l, name);
      if Temporary(name) {
        RecordsWithout(files, name);
        WithinWithout(files, name, l);
        ScanSucceeds(Put(k, files - {name}), order[1..], seen, true, env, l);
      } else {
        RecordIsCountable(files, seen, name, l);
        ScanSucceeds(k, order[1..], seen[name := files[name]], cleaned, env, l);
      }
    }
  }

  lemma FirstListed(files: Files, order: seq<Name>, seen: Files)
    requires order != [] && Lists(order, files) && Unseen(order, seen)
    ensures order[0] in files && order[0] !in seen
  {
  }

  lemma WithinWithout(files: Files, n: Name, l: Limits)
    requires Within(files, l) && Temporary(n)
    ensures Within(files - {n}, l)
  {
    hide Temporary, Records, Total, AllProper;
    RecordsWithout(files, n);
  }

  lemma RegularFile(files: Files, l: Limits, n: Name)
    requires Within(files, l) && n in files
    ensures files[n].Regular?
  {
    hide Records, AllProper, Total;
  }

  lemma RecordIsCountable(files: Files, seen: Files, name: Name, l: Limits)
    requires Within(files, l) && PartOf(seen, Records(files)) && name in files && name !in seen && !Temporary(name)
    ensures files[name].Regular? && Countable(name, files[name], UsageOf(seen))
    ensures PartOf(seen[name := files[name]], Records(files))
    ensures UsageOf(seen[name := files[name]]) ==
      Usage(UsageOf(seen).files + 1, UsageOf(seen).bytes + |files[name].bytes|)
  {
    hide Total, Temporary, ValidName;
    assert name in Records(files) && Records(files)[name] == files[name];
    var more := seen[name := files[name]];
    assert AllProper(seen);
    SeenGrows(seen, name, files[name]);
    PartIsSmaller(more, Records(files));
  }

  /** On a directory within its limits a scan fails only if something outside does, wherever it starts; what
      it counts is part of the records. */
  lemma HealthyScanSucceeds(h: Handle, env: ScanEnv, l: Limits)
    requires Within(h.volume.visible, l) && Healthy(env, h)
    ensures
      var (after, result) := ScanOf(h.volume, env);
      var m := Records(h.volume.visible);
      && result.Scanned? && result.usage.files <= l.files && result.usage.bytes <= Quota(l)
      && (h.position.Start? ==> after.visible == m && result.usage == UsageOf(m))
  {
    hide ScanFrom, Total, AllProper, Temporary;
    NothingSeen();
    ScanSucceeds(h.volume, env.order, map[], false, env, l);
    ScanMeansRecords(h, env);
    PartIsSmaller(Counts(h.volume.visible, env.order, map[]), Records(h.volume.visible));
  }

  /** Nothing goes wrong in a write. When an earlier scan stopped on the way, the record written is the only one
      that is still listed. */
  ghost predicate Flawless(h: Handle, r: Request, env: WriteEnv) {
    && Healthy(env.scan, h) && env.statOk && env.random.Some? && env.created
    && TemporaryName(env.random.value) !in h.volume.visible
    && env.lostWriting.None? && Reached(|r.data|, env.counts) == |r.data| && env.fileSynced
    && env.rename.Renamed? && env.directorySynced
    && (h.position.Partway? ==> env.scan.order == if r.record in h.volume.visible then [r.record] else [])
  }

  /** What a flawless write answers on a directory within its limits. From the start the test is exact. Later in
      the session everything is admitted that is not there and is within the quota by itself, and everything
      else is refused. */
  lemma FlawlessWrite(h: Handle, r: Request, l: Limits, env: WriteEnv)
    requires Within(h.volume.visible, l) && ValidRequest(r) && r.command == WRITE && Flawless(h, r, env)
    ensures
      var status := Written(h, r, l, env).1;
      && status == Some(if Admitted(h, r, l, env.scan) then OK else QUOTA_EXCEEDED)
      && (Admitted(h, r, l, env.scan) <==> if h.position.Start? then FitsTruly(h, r, l) else Admissible(h, r, l))
  {
    hide ScanFrom, Fits, Total, Records, Suffix, Reached, Counts, Temporary, ValidName, Listed;
    var files := h.volume.visible;
    HealthyScanSucceeds(h, env.scan, l);
    ScanMeansRecords(h, env.scan);
    ScanKeepsRecords(h.volume, env.scan.order, Usage(0, 0), false, env.scan);
    var (scanned, result) := ScanOf(h.volume, env.scan);
    NotCorrupt(files, scanned.visible, r, l);
    if h.position.Start? {
      RecordsOfProper(scanned.visible);
      QuotaTestIsExact(scanned.visible, r.record, r.data, l, r);
    } else {
      LaterCount(h, r, l, env.scan);
    }
  }

  lemma NotCorrupt(files: Files, scanned: Files, r: Request, l: Limits)
    requires Within(files, l) && Remains(scanned, files) && ValidName(r.record)
    ensures !Corrupt(scanned, r.record) && (r.record in scanned <==> r.record in files)
  {
    TemporariesAreNoRecords(r.record, Zeros(12));
    hide Temporary, ValidName;
    if r.record in files {
      assert r.record in Records(files) && r.record in Records(scanned);
    }
  }

  /** What is counted when at most the record itself is listed. */
  lemma LaterCount(h: Handle, r: Request, l: Limits, env: ScanEnv)
    requires Within(h.volume.visible, l) && Healthy(env, h) && ValidRequest(r) && r.command == WRITE
    requires !h.position.Start?
    requires h.position.Partway? ==> env.order == if r.record in h.volume.visible then [r.record] else []
    ensures Admitted(h, r, l, env) <==> Admissible(h, r, l)
  {
    hide Temporary, ValidName, Records, Total, Fits;
    if h.position.Partway? && r.record in h.volume.visible {
      CountOfOne(h.volume, r, l, env);
    } else {
      NothingListed(h.volume, env);
      EmptyCountAdmits(h.volume.visible, r, l);
    }
  }

  lemma CountOfOne(k: Volume, r: Request, l: Limits, env: ScanEnv)
    requires Within(k.visible, l) && ValidRequest(r) && r.command == WRITE && r.record in k.visible
    requires env.order == [r.record] && !env.lost
    ensures
      var (scanned, result) := ScanOf(k, env);
      && result.Scanned? && scanned == k
      && (Fits(k.visible, result.usage, r, l) <==> l.files != 0 && |r.data| <= Quota(l))
  {
    TemporariesAreNoRecords(r.record, Zeros(12));
    NothingSeen();
    hide Temporary, ValidName, Records, Total;
    assert env.order[1..] == [];
    RegularFile(k.visible, l, r.record);
    RecordIsCountable(k.visible, map[], r.record, l);
    OneScanned(k, r.record, env);
    OneFits(k.visible, r, l);
  }

  lemma OneScanned(k: Volume, n: Name, env: ScanEnv)
    requires n in k.visible && k.visible[n].Regular? && !Temporary(n) && Countable(n, k.visible[n], Usage(0, 0))
    requires env.order == [n] && !env.lost
    ensures ScanOf(k, env) == (k, Scanned(Usage(1, |k.visible[n].bytes|)))
  {
    hide Temporary, Countable;
    var usage := Usage(1, |k.visible[n].bytes|);
    assert ScanFrom(k, [], usage, false, env) == (k, Scanned(usage));
    assert env.order[0] == n && env.order[1..] == [];
  }

  lemma OneFits(files: Files, r: Request, l: Limits)
    requires r.record in files && files[r.record].Regular? && 0 < |files[r.record].bytes| <= MAXIMUM_RECORD
    requires 0 < |r.data| <= MAXIMUM_RECORD
    ensures Fits(files, Usage(1, |files[r.record].bytes|), r, l) <==> l.files != 0 && |r.data| <= Quota(l)
  {
  }

  /** The guard is exact: on a directory within its limits, a write in which nothing goes wrong leaves it within
      them if and only if it was guarded. */
  lemma GuardExactly(h: Handle, r: Request, l: Limits, env: WriteEnv)
    requires Within(h.volume.visible, l) && ValidRequest(r) && r.command == WRITE && Flawless(h, r, env)
    ensures Within(Written(h, r, l, env).0.volume.visible, l) <==> Guarded(h, r, l)
  {
    hide ScanOf, Total, Records, Suffix, Reached, Temporary, ValidName, Listed, Written, Admitted, AllProper, AllRegular;
    FlawlessWrite(h, r, l, env);
    WriteIsAtomic(h, r, l, env);
    ProperWith(Records(h.volume.visible), r);
    var after := Written(h, r, l, env).0.volume.visible;
    if Admitted(h, r, l, env.scan) && !h.position.Start? {
      assert Records(after) == Updated(Records(h.volume.visible), r);
    }
    WrittenIsRegular(h, r, l, env);
  }

  lemma WrittenIsRegular(h: Handle, r: Request, l: Limits, env: WriteEnv)
    requires AllRegular(h.volume.visible)
    ensures AllRegular(Written(h, r, l, env).0.volume.visible)
  {
    hide ScanFrom, Fits, Reached, Suffix, Temporary;
    ScanKeepsRecords(h.volume, env.scan.order, Usage(0, 0), false, env.scan);
  }

  lemma ProperWith(m: Files, r: Request)
    requires AllProper(m) && ValidRequest(r) && r.command == WRITE
    ensures AllProper(m[r.record := Regular(r.data)])
  {
    TemporariesAreNoRecords(r.record, Zeros(12));
    hide Temporary, ValidName;
  }
}
