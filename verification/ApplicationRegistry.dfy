/** The registry of installed applications: a variable number of variable-length records. */
module ApplicationRegistry {
  import opened Bytes
  import opened Text

  const MAGIC: seq<byte> := [0x4c, 0x56, 0x52, 0x45, 0x47, 0x30, 0x31, 0x00]
  const HEADER_SIZE: nat := 16
  const RECORD_SIZE: nat := 24
  const MAXIMUM_APPLICATIONS: nat := 64
  const MAXIMUM_SIZE: nat := 64 * 1024

  datatype Application = Application(
    id: seq<byte>, name: seq<byte>, version: seq<byte>, counter: u64, epoch: u32, capabilities: u32)

  datatype Detail =
    | LayoutInvalid | CountInvalid | RecordTruncated | RecordInvalid | ApplicationInvalid
    | OrderInvalid | SizeInvalid | TrailingData

  datatype Result<+T> = Ok(value: T) | Err(detail: Detail)

  predicate Digits(s: seq<byte>, lo: nat, hi: nat) {
    lo < hi <= |s| && forall i :: lo <= i < hi ==> Digit(s[i])
  }

  /** Three groups of digits, two dots between them. */
  predicate ValidVersion(s: seq<byte>) {
    |s| <= 32 && exists i, j ::
      && 0 <= i < j < |s| && s[i] == DOT && s[j] == DOT
      && Digits(s, 0, i) && Digits(s, i + 1, j) && Digits(s, j + 1, |s|)
  }

  predicate ValidApplication(a: Application) {
    && SessionAppId(a.id) && ValidText(a.name, 64) && ValidVersion(a.version)
    && a.counter != 0 && a.capabilities <= 64
  }

  /** The dots seen so far: none, one at `i`, or two at `i` and `j`, with digits around them. */
  ghost predicate Groups(s: seq<byte>, end: nat, dots: nat, i: nat, j: nat)
    requires end <= |s|
  {
    && dots <= 2
    && (forall k :: 0 <= k < end ==> Digit(s[k]) || s[k] == DOT)
    && (forall k :: 0 <= k < end && s[k] == DOT ==> (dots >= 1 && k == i) || (dots == 2 && k == j))
    && (dots >= 1 ==> 0 < i < end && s[i] == DOT)
    && (dots == 2 ==> i + 1 < j < end && s[j] == DOT)
  }

  method CheckVersion(s: seq<byte>) returns (ok: bool)
    ensures ok == ValidVersion(s)
  {
    var textOk := CheckText(s, 32);
    if !textOk {
      VersionIsText(s);
      return false;
    }
    var dots, digit := 0, false;
    ghost var i: nat, j: nat := 0, 0;
    for index := 0 to |s|
      invariant 0 <= dots <= 2 && Groups(s, index, dots, i, j)
      invariant digit == (index > 0 && s[index - 1] != DOT)
    {
      if s[index] == DOT {
        if !digit || dots + 1 > 2 {
          VersionHasTwoDots(s, index, dots, i, j);
          return false;
        }
        if dots == 0 {
          i := index;
        } else {
          j := index;
        }
        dots, digit := dots + 1, false;
      } else if Digit(s[index]) {
        digit := true;
      } else {
        VersionCharacters(s, index);
        return false;
      }
    }
    VersionAtEnd(s, dots, i, j);
    ok := dots == 2 && digit;
  }

  lemma VersionIsText(s: seq<byte>)
    requires !ValidText(s, 32)
    ensures !ValidVersion(s)
  {
    if ValidVersion(s) {
      var i, j :|
        && 0 <= i < j < |s| && s[i] == DOT && s[j] == DOT
        && Digits(s, 0, i) && Digits(s, i + 1, j) && Digits(s, j + 1, |s|);
      forall k | 0 <= k < |s|
        ensures s[k] >= 0x20 && s[k] != 0x7f
      {
        assert k == i || k == j || Digit(s[k]);
      }
    }
  }

  lemma VersionCharacters(s: seq<byte>, k: nat)
    requires k < |s| && s[k] != DOT && !Digit(s[k])
    ensures !ValidVersion(s)
  {
  }

  lemma VersionHasTwoDots(s: seq<byte>, end: nat, dots: nat, i: nat, j: nat)
    requires end < |s| && Groups(s, end, dots, i, j) && s[end] == DOT
    requires end == 0 || s[end - 1] == DOT || dots == 2
    ensures !ValidVersion(s)
  {
  }

  lemma VersionAtEnd(s: seq<byte>, dots: nat, i: nat, j: nat)
    requires 0 < |s| <= 32 && Groups(s, |s|, dots, i, j)
    ensures ValidVersion(s) <==> dots == 2 && s[|s| - 1] != DOT
  {
    if dots == 2 && s[|s| - 1] != DOT {
      assert Digits(s, 0, i) && Digits(s, i + 1, j) && Digits(s, j + 1, |s|);
    }
  }

  function Size(a: Application): nat { RECORD_SIZE + |a.id| + |a.name| + |a.version| }

  /** The fixed part of a record: three lengths, flags, counter, epoch, capability count. */
  function RecordHead(a: Application): (r: seq<byte>)
    ensures |r| == RECORD_SIZE
  {
    Le(2, |a.id|) + Le(2, |a.name|) + Le(2, |a.version|) + Le(2, 1)
    + Le(8, a.counter) + Le(4, a.epoch) + Le(4, a.capabilities)
  }

  function Record(a: Application): (r: seq<byte>)
    ensures |r| == Size(a)
  {
    RecordHead(a) + a.id + a.name + a.version
  }

  function Records(apps: seq<Application>): seq<byte> {
    if apps == [] then [] else Record(apps[0]) + Records(apps[1..])
  }

  function Total(apps: seq<Application>): nat {
    if apps == [] then 0 else Size(apps[0]) + Total(apps[1..])
  }

  function Header(count: nat, total: nat): (r: seq<byte>)
    ensures |r| == HEADER_SIZE
  {
    MAGIC + Le(2, 1) + Le(2, count) + Le(4, total)
  }

  /** The bytes of a registry. */
  function Encoded(apps: seq<Application>): seq<byte> {
    Header(|apps|, HEADER_SIZE + Total(apps)) + Records(apps)
  }

  predicate Ordered(apps: seq<Application>) {
    forall i :: 0 < i < |apps| ==> LexLess(apps[i - 1].id, apps[i].id)
  }

  predicate ValidApplications(apps: seq<Application>) {
    forall i :: 0 <= i < |apps| ==> ValidApplication(apps[i])
  }

  /** A registry: one to 64 valid applications, strictly ascending by identifier. */
  predicate ValidRegistry(apps: seq<Application>) {
    0 < |apps| <= MAXIMUM_APPLICATIONS && ValidApplications(apps) && Ordered(apps)
  }

  /** The first reason to refuse the applications from `i` on, if there is one. */
  function Fault(apps: seq<Application>, i: nat, previous: seq<byte>, total: int): Option<Detail>
    requires i <= |apps|
    decreases |apps| - i
  {
    if i == |apps| then None
    else if !ValidApplication(apps[i]) then Some(ApplicationInvalid)
    else if previous != [] && !LexLess(previous, apps[i].id) then Some(OrderInvalid)
    else if Size(apps[i]) - RECORD_SIZE > MAXIMUM_SIZE - total - RECORD_SIZE then Some(SizeInvalid)
    else Fault(apps, i + 1, apps[i].id, total + Size(apps[i]))
  }

  function Encode(apps: seq<Application>): Result<seq<byte>> {
    if apps == [] || |apps| > MAXIMUM_APPLICATIONS then Err(CountInvalid)
    else
      match Fault(apps, 0, [], HEADER_SIZE)
      case Some(detail) => Err(detail)
      case None => Ok(Encoded(apps))
  }

  method CheckApplication(a: Application) returns (ok: bool)
    ensures ok == ValidApplication(a)
  {
    var idOk := CheckSessionAppId(a.id);
    var nameOk := CheckText(a.name, 64);
    var versionOk := CheckVersion(a.version);
    ok := idOk && nameOk && versionOk && a.counter != 0 && a.capabilities <= 64;
  }

  method AppendRecord(output: seq<byte>, a: Application) returns (r: seq<byte>)
    ensures r == output + Record(a)
  {
    var head := AppendLe([], 2, |a.id|);
    head := AppendLe(head, 2, |a.name|);
    head := AppendLe(head, 2, |a.version|);
    head := AppendLe(head, 2, 1);
    head := AppendLe(head, 8, a.counter);
    head := AppendLe(head, 4, a.epoch);
    head := AppendLe(head, 4, a.capabilities);
    r := output + (head + a.id + a.name + a.version);
  }

  method AppendHeader(count: nat, total: nat) returns (r: seq<byte>)
    ensures r == Header(count, total)
  {
    r := MAGIC;
    r := AppendLe(r, 2, 1);
    r := AppendLe(r, 2, count);
    r := AppendLe(r, 4, total);
  }

  /** Checks every application, then appends header and records. */
  method EncodeApplicationRegistry(apps: seq<Application>) returns (r: Result<seq<byte>>)
    ensures r == Encode(apps)
  {
    hide ValidApplication, LexLess, Record, Size;
    if apps == [] || |apps| > MAXIMUM_APPLICATIONS {
      return Err(CountInvalid);
    }
    var previous: seq<byte> := [];
    var total := HEADER_SIZE;
    assert apps[0..] == apps;
    for index := 0 to |apps|
      invariant Fault(apps, index, previous, total) == Fault(apps, 0, [], HEADER_SIZE)
      invariant total + Total(apps[index..]) == HEADER_SIZE + Total(apps)
    {
      var app := apps[index];
      assert apps[index..][1..] == apps[index + 1..];
      var ok := CheckApplication(app);
      if !ok {
        return Err(ApplicationInvalid);
      }
      if previous != [] && !LexLess(previous, app.id) {
        return Err(OrderInvalid);
      }
      previous := app.id;
      if Size(app) - RECORD_SIZE > MAXIMUM_SIZE - total - RECORD_SIZE {
        return Err(SizeInvalid);
      }
      total := total + Size(app);
    }
    assert apps[|apps|..] == [];
    assert total == HEADER_SIZE + Total(apps);
    var bytes := AppendHeader(|apps|, total);
    ghost var header := bytes;
    for index := 0 to |apps|
      invariant bytes + Records(apps[index..]) == header + Records(apps)
    {
      assert apps[index..][1..] == apps[index + 1..];
      bytes := AppendRecord(bytes, apps[index]);
    }
    assert bytes == Encoded(apps);
    r := Ok(bytes);
  }

  /** One record off the front of what is left of the input. */
  function ReadRecord(input: seq<byte>): (r: Result<Application>)
    ensures r.Ok? ==> Size(r.value) <= |input|
  {
    if |input| < RECORD_SIZE then Err(RecordTruncated)
    else
      var (n, m, k) := (FromLe(input[0..2]), FromLe(input[2..4]), FromLe(input[4..6]));
      if FromLe(input[6..8]) != 1 || n + m + k > |input| - RECORD_SIZE then Err(RecordInvalid)
      else
        var a := FieldsOf(input, n, m, k);
        if !ValidApplication(a) then Err(ApplicationInvalid) else Ok(a)
  }

  function FieldsOf(input: seq<byte>, n: nat, m: nat, k: nat): Application
    requires RECORD_SIZE + n + m + k <= |input|
  {
    FromLeBound(input[8..16]); FromLeBound(input[16..20]); FromLeBound(input[20..24]);
    Widths();
    Application(input[24..24 + n], input[24 + n..24 + n + m], input[24 + n + m..24 + n + m + k],
      FromLe(input[8..16]), FromLe(input[16..20]), FromLe(input[20..24]))
  }

  function ReadRecords(input: seq<byte>, count: nat, previous: seq<byte>): Result<seq<Application>>
    decreases count
  {
    if count == 0 then if input == [] then Ok([]) else Err(TrailingData)
    else
      match ReadRecord(input)
      case Err(detail) => Err(detail)
      case Ok(a) =>
        if previous != [] && !LexLess(previous, a.id) then Err(OrderInvalid)
        else Prepend([a], ReadRecords(input[Size(a)..], count - 1, a.id))
  }

  function Prepend(apps: seq<Application>, r: Result<seq<Application>>): Result<seq<Application>> {
    match r
    case Ok(rest) => Ok(apps + rest)
    case Err(detail) => Err(detail)
  }

  function Decode(b: seq<byte>): Result<seq<Application>> {
    if |b| < HEADER_SIZE || |b| > MAXIMUM_SIZE || b[0..8] != MAGIC || FromLe(b[8..10]) != 1 || FromLe(b[12..16]) != |b|
    then Err(LayoutInvalid)
    else if FromLe(b[10..12]) == 0 || FromLe(b[10..12]) > MAXIMUM_APPLICATIONS then Err(CountInvalid)
    else ReadRecords(b[16..], FromLe(b[10..12]), [])
  }

  method ParseRecord(input: seq<byte>) returns (r: Result<Application>)
    ensures r == ReadRecord(input)
  {
    if |input| < RECORD_SIZE {
      return Err(RecordTruncated);
    }
    var n := GetLe(input, 0, 2);
    var m := GetLe(input, 2, 2);
    var k := GetLe(input, 4, 2);
    var flags := GetLe(input, 6, 2);
    if flags != 1 || n + m + k > |input| - RECORD_SIZE {
      return Err(RecordInvalid);
    }
    var a := FieldsOf(input, n, m, k);
    var ok := CheckApplication(a);
    return if ok then Ok(a) else Err(ApplicationInvalid);
  }

  /** Reads record after record with a cursor, then insists that nothing is left. */
  method DecodeApplicationRegistry(b: seq<byte>) returns (r: Result<seq<Application>>)
    ensures r == Decode(b)
  {
    hide ReadRecord, ReadRecords, Prepend, LexLess, Size;
    if |b| < HEADER_SIZE || |b| > MAXIMUM_SIZE || b[0..8] != MAGIC {
      return Err(LayoutInvalid);
    }
    var version := GetLe(b, 8, 2);
    var size := GetLe(b, 12, 4);
    if version != 1 || size != |b| {
      return Err(LayoutInvalid);
    }
    var count := GetLe(b, 10, 2);
    if count == 0 || count > MAXIMUM_APPLICATIONS {
      return Err(CountInvalid);
    }
    var cursor := HEADER_SIZE;
    var apps: seq<Application> := [];
    PrependNothing(ReadRecords(b[16..], count, []));
    for index := 0 to count
      invariant HEADER_SIZE <= cursor <= |b| && |apps| == index
      invariant Prepend(apps, ReadRecords(b[cursor..], count - index, LastId(apps))) == ReadRecords(b[16..], count, [])
    {
      var parsed := ParseRecord(b[cursor..]);
      ReadingStops(b[cursor..], apps, count - index);
      if parsed.Err? {
        return Err(parsed.detail);
      }
      var app := parsed.value;
      if LastId(apps) != [] && !LexLess(LastId(apps), app.id) {
        return Err(OrderInvalid);
      }
      PrependStep(b, cursor, apps, app, count - index);
      cursor := cursor + Size(app);
      apps := apps + [app];
    }
    ReadingEnds(b[cursor..], apps);
    if cursor != |b| {
      return Err(TrailingData);
    }
    r := Ok(apps);
  }

  /** The identifier of the last application read, empty at the start. */
  function LastId(apps: seq<Application>): seq<byte> {
    if apps == [] then [] else apps[|apps| - 1].id
  }

  lemma PrependNothing(r: Result<seq<Application>>)
    ensures Prepend([], r) == r
  {
    if r.Ok? {
      assert [] + r.value == r.value;
    }
  }

  lemma ReadingStops(input: seq<byte>, apps: seq<Application>, count: nat)
    requires count > 0
    ensures
      var all, r := Prepend(apps, ReadRecords(input, count, LastId(apps))), ReadRecord(input);
      && (r.Err? ==> all == Err(r.detail))
      && (r.Ok? && LastId(apps) != [] && !LexLess(LastId(apps), r.value.id) ==> all == Err(OrderInvalid))
  {
    hide ReadRecord, LexLess;
  }

  lemma ReadingEnds(input: seq<byte>, apps: seq<Application>)
    ensures Prepend(apps, ReadRecords(input, 0, LastId(apps))) == if input == [] then Ok(apps) else Err(TrailingData)
  {
    assert apps + [] == apps;
  }

  lemma PrependStep(b: seq<byte>, cursor: nat, apps: seq<Application>, app: Application, count: nat)
    requires cursor <= |b| && count > 0 && ReadRecord(b[cursor..]) == Ok(app)
    requires LastId(apps) != [] ==> LexLess(LastId(apps), app.id)
    ensures cursor + Size(app) <= |b|
    ensures Prepend(apps, ReadRecords(b[cursor..], count, LastId(apps)))
      == Prepend(apps + [app], ReadRecords(b[cursor + Size(app)..], count - 1, app.id))
  {
    hide ReadRecord, LexLess, Size;
    assert b[cursor..][Size(app)..] == b[cursor + Size(app)..];
    var rest := ReadRecords(b[cursor + Size(app)..], count - 1, app.id);
    if rest.Ok? {
      assert (apps + [app]) + rest.value == apps + ([app] + rest.value);
    }
  }

  ghost predicate HasHead(input: seq<byte>, a: Application)
    requires |input| >= RECORD_SIZE
  {
    && input[0..2] == Le(2, |a.id|) && input[2..4] == Le(2, |a.name|) && input[4..6] == Le(2, |a.version|)
    && input[6..8] == Le(2, 1) && input[8..16] == Le(8, a.counter) && input[16..20] == Le(4, a.epoch)
    && input[20..24] == Le(4, a.capabilities)
  }

  lemma HeadIsRead(input: seq<byte>, a: Application)
    requires |input| >= RECORD_SIZE && ValidApplication(a)
    ensures HasHead(input, a) <==>
      && FromLe(input[0..2]) == |a.id| && FromLe(input[2..4]) == |a.name| && FromLe(input[4..6]) == |a.version|
      && FromLe(input[6..8]) == 1 && FromLe(input[8..16]) == a.counter && FromLe(input[16..20]) == a.epoch
      && FromLe(input[20..24]) == a.capabilities
  {
    ApplicationSizes(a);
    hide ValidApplication;
    Widths();
    LeInverse(2, |a.id|); LeInverse(2, |a.name|); LeInverse(2, |a.version|); LeInverse(2, 1);
    LeInverse(8, a.counter); LeInverse(4, a.epoch); LeInverse(4, a.capabilities);
    LeOfFromLe(input[0..2]); LeOfFromLe(input[2..4]); LeOfFromLe(input[4..6]); LeOfFromLe(input[6..8]);
    LeOfFromLe(input[8..16]); LeOfFromLe(input[16..20]); LeOfFromLe(input[20..24]);
  }

  lemma ApplicationSizes(a: Application)
    requires ValidApplication(a)
    ensures 0 < |a.id| <= 95 && 0 < |a.name| <= 64 && 0 < |a.version| <= 32 && Size(a) <= 215
  {
  }

  lemma HeadIsPrefix(input: seq<byte>, a: Application)
    requires |input| >= RECORD_SIZE
    ensures HasHead(input, a) <==> input[..RECORD_SIZE] == RecordHead(a)
  {
    var h := RecordHead(a);
    HeadHasHead(a);
    if HasHead(input, a) {
      assert input[..2] == input[0..2] && h[..2] == h[0..2];
      Glue(input, h, 2, 4); Glue(input, h, 4, 6); Glue(input, h, 6, 8);
      Glue(input, h, 8, 16); Glue(input, h, 16, 20); Glue(input, h, 20, 24);
    }
    if input[..RECORD_SIZE] == h {
      HeadOfPrefix(input, a);
    }
  }

  lemma HeadHasHead(a: Application)
    ensures HasHead(RecordHead(a), a)
  {
  }

  lemma HeadOfPrefix(input: seq<byte>, a: Application)
    requires |input| >= RECORD_SIZE && input[..RECORD_SIZE] == RecordHead(a)
    ensures HasHead(input, a)
  {
    HeadHasHead(a);
    SubSlice(input, 0, 24, 0, 2); SubSlice(input, 0, 24, 2, 4); SubSlice(input, 0, 24, 4, 6);
    SubSlice(input, 0, 24, 6, 8); SubSlice(input, 0, 24, 8, 16); SubSlice(input, 0, 24, 16, 20);
    SubSlice(input, 0, 24, 20, 24);
    assert input[0..24] == RecordHead(a);
  }

  lemma RecordParts(input: seq<byte>, a: Application)
    requires |input| >= Size(a)
    ensures Record(a) <= input <==>
      var (n, m, k) := (|a.id|, |a.name|, |a.version|);
      && input[..24] == RecordHead(a) && input[24..24 + n] == a.id
      && input[24 + n..24 + n + m] == a.name && input[24 + n + m..24 + n + m + k] == a.version
  {
    hide RecordHead;
    var (n, m, k) := (|a.id|, |a.name|, |a.version|);
    assert input[..Size(a)] == input[..24] + input[24..24 + n] + input[24 + n..24 + n + m]
      + input[24 + n + m..24 + n + m + k];
    if Record(a) <= input {
      assert input[..Size(a)] == Record(a);
      var r := Record(a);
      assert r[..24] == RecordHead(a) && r[24..24 + n] == a.id && r[24 + n..24 + n + m] == a.name
        && r[24 + n + m..24 + n + m + k] == a.version;
    }
  }

  /** The input starts with the fields of `a`, as the decoder reads them. */
  ghost predicate Shows(input: seq<byte>, a: Application) {
    && |input| >= Size(a)
    && FromLe(input[0..2]) == |a.id| && FromLe(input[2..4]) == |a.name| && FromLe(input[4..6]) == |a.version|
    && FromLe(input[6..8]) == 1 && FieldsOf(input, |a.id|, |a.name|, |a.version|) == a
  }

  lemma ShowsIsRead(input: seq<byte>, a: Application)
    ensures ReadRecord(input) == Ok(a) <==> ValidApplication(a) && Shows(input, a)
  {
    hide ValidApplication, FromLe;
  }

  lemma ShowsIsPrefix(input: seq<byte>, a: Application)
    requires ValidApplication(a) && |input| >= Size(a)
    ensures Shows(input, a) <==> Record(a) <= input
  {
    hide ValidApplication, RecordHead, FromLe, Record, HasHead, Shows;
    ShowsMeans(input, a);
    HeadIsRead(input, a);
    HeadIsPrefix(input, a);
    RecordParts(input, a);
  }

  lemma ShowsMeans(input: seq<byte>, a: Application)
    requires |input| >= Size(a)
    ensures Shows(input, a) <==>
      var (n, m, k) := (|a.id|, |a.name|, |a.version|);
      && FromLe(input[0..2]) == n && FromLe(input[2..4]) == m && FromLe(input[4..6]) == k
      && FromLe(input[6..8]) == 1 && FromLe(input[8..16]) == a.counter && FromLe(input[16..20]) == a.epoch
      && FromLe(input[20..24]) == a.capabilities
      && input[24..24 + n] == a.id && input[24 + n..24 + n + m] == a.name && input[24 + n + m..24 + n + m + k] == a.version
  {
    hide FromLe;
  }

  /** A record is read off the input exactly when the input starts with its bytes. */
  lemma RecordIsRead(input: seq<byte>, a: Application)
    ensures ReadRecord(input) == Ok(a) <==> ValidApplication(a) && Record(a) <= input
  {
    hide ValidApplication, Shows, ReadRecord, Record;
    ShowsIsRead(input, a);
    if ValidApplication(a) {
      if |input| >= Size(a) {
        ShowsIsPrefix(input, a);
      } else {
        assert !Shows(input, a) by { ShowsNeedsRoom(input, a); }
        assert |Record(a)| == Size(a);
      }
    }
  }

  lemma ShowsNeedsRoom(input: seq<byte>, a: Application)
    ensures Shows(input, a) ==> |input| >= Size(a)
  {
  }

  /** `previous` is empty or comes before the first application. */
  predicate Follows(previous: seq<byte>, apps: seq<Application>) {
    previous == [] || apps == [] || LexLess(previous, apps[0].id)
  }

  lemma OrderedStep(a: Application, rest: seq<Application>)
    requires ValidApplication(a)
    ensures ValidApplications([a] + rest) && Ordered([a] + rest)
      <==> ValidApplications(rest) && Ordered(rest) && Follows(a.id, rest)
  {
    ApplicationSizes(a);
    hide ValidApplication, LexLess;
    var all := [a] + rest;
    assert forall i :: 0 <= i < |rest| ==> all[i + 1] == rest[i];
    if ValidApplications(all) && Ordered(all) {
      forall i | 0 <= i < |rest|
        ensures ValidApplication(rest[i])
      {
        assert all[i + 1] == rest[i];
      }
      forall i | 0 < i < |rest|
        ensures LexLess(rest[i - 1].id, rest[i].id)
      {
        assert all[i] == rest[i - 1] && all[i + 1] == rest[i];
      }
      assert rest != [] ==> LexLess(all[0].id, all[1].id);
    }
    if ValidApplications(rest) && Ordered(rest) && Follows(a.id, rest) {
      forall i | 0 < i < |all|
        ensures LexLess(all[i - 1].id, all[i].id)
      {
        assert all[i] == rest[i - 1] && (i > 1 ==> all[i - 1] == rest[i - 2]);
      }
    }
  }

  lemma {:induction false} RecordsAreRead(input: seq<byte>, count: nat, previous: seq<byte>, apps: seq<Application>)
    ensures ReadRecords(input, count, previous) == Ok(apps) <==>
      && |apps| == count && ValidApplications(apps) && Ordered(apps) && Follows(previous, apps)
      && input == Records(apps)
    decreases count
  {
    hide ReadRecord, Record, ValidApplication, LexLess, Size;
    if count > 0 {
      if ReadRecords(input, count, previous) == Ok(apps) {
        var a := ReadRecord(input).value;
        var rest := ReadRecords(input[Size(a)..], count - 1, a.id).value;
        assert apps == [a] + rest;
        assert apps[1..] == rest;
        RecordsAreRead(input[Size(a)..], count - 1, a.id, rest);
        RecordIsRead(input, a);
        OrderedStep(a, rest);
        assert input == Record(a) + input[Size(a)..];
      }
      if |apps| == count && ValidApplications(apps) && Ordered(apps) && Follows(previous, apps) && input == Records(apps) {
        var a, rest := apps[0], apps[1..];
        assert apps == [a] + rest;
        RecordIsRead(input, a);
        OrderedStep(a, rest);
        assert input[Size(a)..] == Records(rest);
        RecordsAreRead(input[Size(a)..], count - 1, a.id, rest);
      }
    }
  }

  lemma {:induction false} FaultFree(apps: seq<Application>, i: nat, previous: seq<byte>, total: nat)
    requires i <= |apps| <= MAXIMUM_APPLICATIONS && total <= HEADER_SIZE + 215 * i
    ensures Fault(apps, i, previous, total) == None <==>
      ValidApplications(apps[i..]) && Ordered(apps[i..]) && Follows(previous, apps[i..])
    ensures Fault(apps, i, previous, total) != Some(SizeInvalid)
    decreases |apps| - i
  {
    hide ValidApplication, LexLess;
    if i < |apps| {
      var a, rest := apps[i], apps[i + 1..];
      assert apps[i..] == [a] + rest;
      if ValidApplication(a) {
        ApplicationSizes(a);
        FaultFree(apps, i + 1, a.id, total + Size(a));
        OrderedStep(a, rest);
      } else {
        assert !ValidApplication(apps[i..][0]);
      }
    }
  }

  /** The encoder accepts exactly the registries, and its size error cannot occur. */
  lemma EncodesExactlyRegistries(apps: seq<Application>)
    ensures Encode(apps).Ok? <==> ValidRegistry(apps)
    ensures Encode(apps).Ok? ==> Encode(apps).value == Encoded(apps)
    ensures Encode(apps) != Err(SizeInvalid)
  {
    if 0 < |apps| <= MAXIMUM_APPLICATIONS {
      assert apps[0..] == apps;
      FaultFree(apps, 0, [], HEADER_SIZE);
    }
  }

  lemma {:induction false} RecordsSize(apps: seq<Application>)
    requires ValidApplications(apps)
    ensures |Records(apps)| == Total(apps) <= 215 * |apps|
  {
    hide ValidApplication, Size;
    if apps != [] {
      ApplicationSizes(apps[0]);
      RecordsSize(apps[1..]);
    }
  }

  /** Every registry is far below the 64 KiB limit. */
  lemma RegistryIsSmall(apps: seq<Application>)
    requires ValidRegistry(apps)
    ensures |Encoded(apps)| == HEADER_SIZE + Total(apps) <= 13776 < MAXIMUM_SIZE
  {
    hide ValidApplications, Records, Total;
    RecordsSize(apps);
  }

  ghost predicate HasHeader(b: seq<byte>, count: nat, total: nat)
    requires |b| >= HEADER_SIZE
  {
    b[0..8] == MAGIC && b[8..10] == Le(2, 1) && b[10..12] == Le(2, count) && b[12..16] == Le(4, total)
  }

  lemma HeaderIsRead(b: seq<byte>, count: nat, total: nat)
    requires |b| >= HEADER_SIZE && count < 0x1_0000 && total < 0x1_0000_0000
    ensures HasHeader(b, count, total) <==>
      b[0..8] == MAGIC && FromLe(b[8..10]) == 1 && FromLe(b[10..12]) == count && FromLe(b[12..16]) == total
  {
    Widths();
    LeInverse(2, 1); LeInverse(2, count); LeInverse(4, total);
    LeOfFromLe(b[8..10]); LeOfFromLe(b[10..12]); LeOfFromLe(b[12..16]);
  }

  lemma HeaderIsPrefix(b: seq<byte>, count: nat, total: nat)
    requires |b| >= HEADER_SIZE
    ensures HasHeader(b, count, total) <==> b[..HEADER_SIZE] == Header(count, total)
  {
    var h := Header(count, total);
    assert h[0..8] == MAGIC && h[8..10] == Le(2, 1) && h[10..12] == Le(2, count) && h[12..16] == Le(4, total);
    if HasHeader(b, count, total) {
      assert b[..8] == b[0..8] && h[..8] == h[0..8];
      Glue(b, h, 8, 10); Glue(b, h, 10, 12); Glue(b, h, 12, 16);
      assert h[..16] == h;
    }
    if b[..HEADER_SIZE] == h {
      assert b[0..16] == h;
      SubSlice(b, 0, 16, 0, 8); SubSlice(b, 0, 16, 8, 10); SubSlice(b, 0, 16, 10, 12); SubSlice(b, 0, 16, 12, 16);
    }
  }

  /** The registry codec is a bijection between registries and accepted byte strings: a byte string
      decodes to a list of applications exactly when the list is a registry and the string is its
      encoding. */
  lemma RegistryIsBijection(b: seq<byte>, apps: seq<Application>)
    ensures Decode(b) == Ok(apps) <==> ValidRegistry(apps) && b == Encoded(apps)
    ensures Decode(b) == Ok(apps) <==> Encode(apps) == Ok(b)
  {
    hide ReadRecords, Records, Total, Header, ValidApplications, Ordered, Encode, Fault;
    EncodesExactlyRegistries(apps);
    if ValidRegistry(apps) && b == Encoded(apps) {
      RegistryIsSmall(apps);
      HeaderIsPrefix(b, |apps|, |b|);
      HeaderIsRead(b, |apps|, |b|);
      assert b[..16] == Header(|apps|, |b|) && b[16..] == Records(apps);
      RecordsAreRead(b[16..], |apps|, [], apps);
    }
    if Decode(b) == Ok(apps) {
      RecordsAreRead(b[16..], FromLe(b[10..12]), [], apps);
      RecordsSize(apps);
      HeaderIsRead(b, |apps|, |b|);
      HeaderIsPrefix(b, |apps|, |b|);
      assert b == b[..16] + b[16..];
    }
  }

  lemma {:induction false} FaultAt(apps: seq<Application>, i: nat, k: nat, previous: seq<byte>, total: nat)
    requires i <= k < |apps| <= MAXIMUM_APPLICATIONS && total <= HEADER_SIZE + 215 * i
    requires ValidApplications(apps[i..k]) && Ordered(apps[i..k]) && Follows(previous, apps[i..k])
    requires previous == if i == 0 then [] else apps[i - 1].id
    requires i == 0 || previous != []
    requires !ValidApplication(apps[k]) || (k > 0 && !LexLess(apps[k - 1].id, apps[k].id))
    ensures Fault(apps, i, previous, total) == Some(if ValidApplication(apps[k]) then OrderInvalid else ApplicationInvalid)
    decreases k - i
  {
    hide ValidApplication, LexLess;
    if i < k {
      var a := apps[i];
      assert apps[i..k] == [a] + apps[i + 1..k];
      assert apps[i..k][0] == a;
      ApplicationSizes(a);
      OrderedStep(a, apps[i + 1..k]);
      FaultAt(apps, i + 1, k, a.id, total + Size(a));
    }
  }

  /** What the encoder says of a list that is none: too short or too long, or the first application that is not
      valid or does not come after the one before. */
  lemma EncodeErrorMeans(apps: seq<Application>, k: nat)
    ensures Encode(apps) == Err(CountInvalid) <==> |apps| == 0 || |apps| > 64
    ensures
      && k < |apps| <= 64 && ValidApplications(apps[..k]) && Ordered(apps[..k])
      && (!ValidApplication(apps[k]) || (k > 0 && !LexLess(apps[k - 1].id, apps[k].id)))
      ==> Encode(apps) == Err(if ValidApplication(apps[k]) then OrderInvalid else ApplicationInvalid)
  {
    hide ValidApplication, LexLess;
    if 0 < |apps| <= 64 {
      FaultDetails(apps, 0, [], HEADER_SIZE);
      if && k < |apps| && ValidApplications(apps[..k]) && Ordered(apps[..k])
         && (!ValidApplication(apps[k]) || (k > 0 && !LexLess(apps[k - 1].id, apps[k].id))) {
        assert apps[0..k] == apps[..k];
        FaultAt(apps, 0, k, [], HEADER_SIZE);
      }
    }
  }

  lemma {:induction false} FaultDetails(apps: seq<Application>, i: nat, previous: seq<byte>, total: int)
    requires i <= |apps|
    ensures Fault(apps, i, previous, total) != Some(CountInvalid)
    decreases |apps| - i
  {
    hide ValidApplication, LexLess, Size;
    if i < |apps| {
      FaultDetails(apps, i + 1, apps[i].id, total + Size(apps[i]));
    }
  }

  lemma {:induction false} ReadAfter(good: seq<Application>, rest: seq<byte>, count: nat, previous: seq<byte>)
    requires ValidApplications(good) && Ordered(good) && Follows(previous, good) && |good| <= count
    ensures ReadRecords(Records(good) + rest, count, previous)
      == Prepend(good, ReadRecords(rest, count - |good|, if good == [] then previous else LastId(good)))
    decreases |good|
  {
    hide ReadRecord, ReadRecords, Prepend, Record, ValidApplication, LexLess, Size;
    if good == [] {
      assert Records(good) + rest == rest;
      PrependNothing(ReadRecords(rest, count, previous));
    } else {
      var a, more := good[0], good[1..];
      assert good == [a] + more && (more != [] ==> LastId(more) == LastId(good)) && LastId([a]) == a.id;
      OrderedStep(a, more);
      var input := Record(a) + (Records(more) + rest);
      assert Records(good) + rest == input;
      ReadOne(a, Records(more) + rest, count, previous);
      ReadAfter(more, rest, count - 1, a.id);
      PrependTwice(a, more, ReadRecords(rest, count - |good|, LastId(good)));
    }
  }

  lemma ReadOne(a: Application, rest: seq<byte>, count: nat, previous: seq<byte>)
    requires ValidApplication(a) && count > 0 && Follows(previous, [a])
    ensures ReadRecords(Record(a) + rest, count, previous) == Prepend([a], ReadRecords(rest, count - 1, a.id))
  {
    hide ReadRecord, Record, ValidApplication, LexLess, Prepend;
    var input := Record(a) + rest;
    RecordIsRead(input, a);
    assert input[Size(a)..] == rest;
  }

  lemma PrependTwice(a: Application, more: seq<Application>, r: Result<seq<Application>>)
    ensures Prepend([a], Prepend(more, r)) == Prepend([a] + more, r)
  {
    if r.Ok? {
      assert [a] + (more + r.value) == ([a] + more) + r.value;
    }
  }

  /** The first thing wrong with a record. */
  lemma RecordErrorMeans(input: seq<byte>)
    ensures ReadRecord(input) == Err(RecordTruncated) <==> |input| < 24
    ensures ReadRecord(input) == Err(RecordInvalid) <==>
      |input| >= 24
      && (Half(input, 6) != 1 || 24 + Half(input, 0) + Half(input, 2) + Half(input, 4) > |input|)
    ensures ReadRecord(input).Err? ==> ReadRecord(input).detail in {RecordTruncated, RecordInvalid, ApplicationInvalid}
  {
    hide ValidApplication;
  }

  /** What the decoder says of a file whose header is wrong. */
  lemma HeaderErrorMeans(b: seq<byte>)
    ensures Decode(b) == Err(LayoutInvalid) <==> !HeaderOk(b)
    ensures Decode(b) == Err(CountInvalid) <==> HeaderOk(b) && (Half(b, 10) == 0 || Half(b, 10) > 64)
    ensures HeaderOk(b) && 0 < Half(b, 10) <= 64 ==> Decode(b) == ReadRecords(b[16..], Half(b, 10), [])
  {
    hide ReadRecords;
    if |b| >= 16 {
      ReadDetails(b[16..], Half(b, 10), []);
    }
  }

  /** "LVREG01", version 1, and the size of the file, of at most 64 kB. */
  predicate HeaderOk(b: seq<byte>) {
    && 16 <= |b| <= 65536 && b[0..8] == [0x4c, 0x56, 0x52, 0x45, 0x47, 0x30, 0x31, 0]
    && Half(b, 8) == 1 && Word(b, 12) == |b|
  }

  /** What the decoder says of the records. After as many good ones as there are the next one decides; and at the
      end nothing may be left. */
  lemma RecordsErrorMeans(b: seq<byte>, good: seq<Application>, rest: seq<byte>)
    requires |b| >= 16 && HeaderOk(b) && 0 < Half(b, 10) <= 64 && b[16..] == Records(good) + rest
    requires ValidApplications(good) && Ordered(good) && |good| <= Half(b, 10)
    ensures |good| == Half(b, 10) ==> Decode(b) == if rest == [] then Ok(good) else Err(TrailingData)
    ensures |good| < Half(b, 10) && ReadRecord(rest).Err? ==> Decode(b) == Err(ReadRecord(rest).detail)
    ensures |good| < Half(b, 10) && ReadRecord(rest).Ok? && !Comes(good, ReadRecord(rest).value) ==>
      Decode(b) == Err(OrderInvalid)
  {
    hide *;
    HeaderErrorMeans(b);
    RecordsStop(good, rest, Half(b, 10));
  }

  /** The next application comes after the last one. */
  predicate Comes(good: seq<Application>, next: Application) {
    good == [] || LexLess(good[|good| - 1].id, next.id)
  }

  lemma RecordsStop(good: seq<Application>, rest: seq<byte>, count: nat)
    requires ValidApplications(good) && Ordered(good) && |good| <= count
    ensures
      var all := ReadRecords(Records(good) + rest, count, []);
      && (|good| == count ==> all == if rest == [] then Ok(good) else Err(TrailingData))
      && (|good| < count && ReadRecord(rest).Err? ==> all == Err(ReadRecord(rest).detail))
      && (|good| < count && ReadRecord(rest).Ok? && !Comes(good, ReadRecord(rest).value) ==> all == Err(OrderInvalid))
  {
    hide ReadRecord, Records, ReadRecords, LexLess, ValidApplications, Ordered, Prepend;
    ReadAfter(good, rest, count, []);
    if good != [] {
      LastIsNamed(good);
    }
    if |good| < count {
      ReadingStops(rest, good, count - |good|);
    } else {
      ReadingEnds(rest, good);
    }
  }

  lemma LastIsNamed(good: seq<Application>)
    requires good != [] && ValidApplications(good)
    ensures LastId(good) != []
  {
    ApplicationSizes(good[|good| - 1]);
    hide ValidApplication;
  }

  lemma {:induction false} ReadDetails(input: seq<byte>, count: nat, previous: seq<byte>)
    ensures ReadRecords(input, count, previous) != Err(LayoutInvalid)
    ensures ReadRecords(input, count, previous) != Err(CountInvalid)
    decreases count
  {
    hide ReadRecord, LexLess, Size;
    if count > 0 {
      RecordErrorMeans(input);
      if ReadRecord(input).Ok? {
        var a := ReadRecord(input).value;
        ReadDetails(input[Size(a)..], count - 1, a.id);
      }
    }
  }
}
