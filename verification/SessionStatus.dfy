/** The status of a session: the text the daemon publishes, and how the launcher reads it. */
module SessionStatus {
  import opened Bytes
  import opened Text

  const NEW_LINE: byte := 10
  const RETURN: byte := 13
  const EQUALS: byte := '=' as int

  function Ascii(s: string): (r: seq<byte>)
    ensures |r| == |s|
  {
    seq(|s|, i requires 0 <= i < |s| => s[i] as int % 256)
  }

  datatype Phase = Starting | Ready | Error | Stopped

  datatype Document = Document(
    pid: i32, nonce: u64, state: Phase, result: i32, hole: bool, input: bool, width: i32, height: i32)

  predicate ValidDocument(d: Document) {
    && d.pid > 1 && d.nonce != 0 && d.result >= 0 && d.width > 0 && d.height > 0
    && (d.state != Ready ==> !d.hole && !d.input) && (d.input ==> d.hole)
  }

  function PhaseName(p: Phase): seq<byte> {
    match p
    case Starting => Ascii("starting")
    case Ready => Ascii("ready")
    case Error => Ascii("error")
    case Stopped => Ascii("stopped")
  }

  datatype Field = Field(key: seq<byte>, value: seq<byte>)

  function FlagText(b: bool): seq<byte> { if b then Ascii("1") else Ascii("0") }

  function Positive(n: int): nat { if n < 0 then 0 else n }

  function Fields(d: Document): seq<Field> {
    [Field(Ascii("SESSION_PID"), Decimal(Positive(d.pid))), Field(Ascii("SESSION_NONCE"), Decimal(d.nonce)),
     Field(Ascii("STATE"), PhaseName(d.state)), Field(Ascii("RESULT"), Decimal(Positive(d.result))),
     Field(Ascii("HOLE_READY"), FlagText(d.hole)), Field(Ascii("INPUT_READY"), FlagText(d.input)),
     Field(Ascii("LOGICAL_WIDTH"), Decimal(Positive(d.width))),
     Field(Ascii("LOGICAL_HEIGHT"), Decimal(Positive(d.height)))]
  }

  function Line(f: Field): seq<byte> { f.key + [EQUALS] + f.value + [NEW_LINE] }

  function TextOf(fields: seq<Field>): seq<byte> {
    if fields == [] then [] else Line(fields[0]) + TextOf(fields[1..])
  }

  /** The text appended line by line; nothing for a document that may not be published. */
  method EncodeSessionStatus(d: Document) returns (output: seq<byte>)
    ensures output == if ValidDocument(d) then TextOf(Fields(d)) else []
  {
    if d.pid <= 1 || d.nonce == 0 || d.result < 0 || d.width <= 0 || d.height <= 0
      || (d.state != Ready && (d.hole || d.input)) || (d.input && !d.hole)
    {
      return [];
    }
    hide Line;
    output := Line(Field(Ascii("SESSION_PID"), Decimal(d.pid)));
    output := output + Line(Field(Ascii("SESSION_NONCE"), Decimal(d.nonce)));
    output := output + Line(Field(Ascii("STATE"), PhaseName(d.state)));
    output := output + Line(Field(Ascii("RESULT"), Decimal(d.result)));
    output := output + Line(Field(Ascii("HOLE_READY"), FlagText(d.hole)));
    output := output + Line(Field(Ascii("INPUT_READY"), FlagText(d.input)));
    output := output + Line(Field(Ascii("LOGICAL_WIDTH"), Decimal(d.width)));
    output := output + Line(Field(Ascii("LOGICAL_HEIGHT"), Decimal(d.height)));
    EightLines(Fields(d));
  }

  lemma {:induction false} TextUpTo(f: seq<Field>, k: nat)
    requires k < |f|
    ensures TextOf(f[..k + 1]) == TextOf(f[..k]) + Line(f[k])
    decreases |f|
  {
    hide Line;
    var all := f[..k + 1];
    if k > 0 {
      TextUpTo(f[1..], k - 1);
      assert all[1..] == f[1..][..k] && f[..k][1..] == f[1..][..k - 1];
    } else {
      assert all[1..] == [] && f[..0] == [];
    }
  }

  lemma FourLines(f: seq<Field>)
    requires |f| >= 4
    ensures TextOf(f[..4]) == Line(f[0]) + Line(f[1]) + Line(f[2]) + Line(f[3])
  {
    hide Line, TextOf;
    NoLines(f[..0]);
    TextUpTo(f, 0); TextUpTo(f, 1); TextUpTo(f, 2); TextUpTo(f, 3);
  }

  lemma EightLines(f: seq<Field>)
    requires |f| == 8
    ensures TextOf(f) == Line(f[0]) + Line(f[1]) + Line(f[2]) + Line(f[3]) + Line(f[4]) + Line(f[5]) + Line(f[6]) + Line(f[7])
  {
    hide Line, TextOf;
    FourLines(f);
    TextUpTo(f, 4); TextUpTo(f, 5); TextUpTo(f, 6); TextUpTo(f, 7);
    assert f[..8] == f;
  }

  lemma NoLines(f: seq<Field>)
    requires f == []
    ensures TextOf(f) == []
  {
  }

  type Values = map<seq<byte>, seq<byte>>

  /** One line of a status: trimmed, split at the first equals sign, kept unless the key was seen before. */
  function AddLine(m: Values, line: seq<byte>): Values {
    var t := if line != [] && line[|line| - 1] == RETURN then line[..|line| - 1] else line;
    var k := IndexOf(t, EQUALS);
    if k == |t| || k == 0 || k > 32 || |t| - k - 1 > 128 || t[..k] in m then m else m[t[..k] := t[k + 1..]]
  }

  function ParsedOnto(m: Values, text: seq<byte>): Values
    decreases |text|
  {
    if text == [] then m
    else
      var k := IndexOf(text, NEW_LINE);
      if k == |text| then AddLine(m, text) else ParsedOnto(AddLine(m, text[..k]), text[k + 1..])
  }

  lemma ParseStep(m: Values, s: seq<byte>, start: nat, end: nat)
    requires start < |s| && First(s, NEW_LINE, start, end)
    ensures ParsedOnto(m, s[start..]) ==
      var next := AddLine(m, s[start..end]);
      if end == |s| then next else ParsedOnto(next, s[end + 1..])
  {
    hide *;
    FindIsIndex(s, NEW_LINE, start, end);
    FoundWithin(s, start, end);
    SplitLine(s, start, end);
    FirstLine(m, s[start..]);
  }

  lemma FoundWithin(s: seq<byte>, start: nat, end: nat)
    requires First(s, NEW_LINE, start, end)
    ensures start <= end <= |s|
  {
  }

  lemma FirstLine(m: Values, text: seq<byte>)
    requires text != []
    ensures
      var k := IndexOf(text, NEW_LINE);
      && k <= |text|
      && ParsedOnto(m, text) ==
           if k == |text| then AddLine(m, text) else ParsedOnto(AddLine(m, text[..k]), text[k + 1..])
  {
    hide AddLine, IndexOf;
  }

  lemma SplitLine(s: seq<byte>, start: nat, end: nat)
    requires start <= end <= |s|
    ensures s[start..][..end - start] == s[start..end] && (end == |s| ==> s[start..] == s[start..end])
    ensures end < |s| ==> s[start..][end - start + 1..] == s[end + 1..]
  {
  }

  /** The line loop of the launcher. */
  method ParseStatus(contents: seq<byte>) returns (values: Values)
    ensures values == ParsedOnto(map[], contents)
  {
    hide AddLine, ParsedOnto;
    values := map[];
    var start := 0;
    assert contents[0..] == contents;
    while start < |contents|
      invariant 0 <= start <= |contents|
      invariant ParsedOnto(values, contents[start..]) == ParsedOnto(map[], contents)
    {
      var end := Find(contents, NEW_LINE, start);
      ParseStep(values, contents, start, end);
      values := AddLine(values, contents[start..end]);
      if end == |contents| {
        return values;
      }
      start := end + 1;
    }
    assert contents[start..] == [];
    NothingParsed(values);
  }

  lemma NothingParsed(m: Values)
    ensures ParsedOnto(m, []) == m
  {
  }

  lemma FirstIsUnique(s: seq<byte>, c: byte, a: nat, b: nat)
    requires First(s, c, 0, a) && First(s, c, 0, b)
    ensures a == b
  {
  }

  lemma FindIsIndex(s: seq<byte>, c: byte, start: nat, end: nat)
    requires start <= |s| && First(s, c, start, end)
    ensures IndexOf(s[start..], c) == end - start
  {
    var rest := s[start..];
    assert forall i :: 0 <= i < |rest| ==> rest[i] == s[start + i];
    FirstIsUnique(rest, c, IndexOf(rest, c), end - start);
  }

  predicate Space(c: byte) { c == 32 || 9 <= c <= 13 }

  function SkipSpaces(s: seq<byte>): seq<byte> { if s != [] && Space(s[0]) then SkipSpaces(s[1..]) else s }

  predicate AllDigits(s: seq<byte>) { forall i :: 0 <= i < |s| ==> Digit(s[i]) }

  /** What `strtoull` makes of a value, when it takes it to its end: spaces, a sign, and digits. */
  function NumberOf(value: seq<byte>): u64 {
    var c := SkipSpaces(value[..IndexOf(value, 0)]);
    var negative := c != [] && c[0] == '-' as int;
    var digits := if c != [] && (c[0] == '-' as int || c[0] == '+' as int) then c[1..] else c;
    var n := DecimalValue(digits);
    if digits == [] || !AllDigits(digits) || n > U64_MAX then 0
    else if negative then (0x1_0000_0000_0000_0000 - n) % 0x1_0000_0000_0000_0000 else n
  }

  function NumberAt(values: Values, key: string): u64 {
    if Ascii(key) in values then NumberOf(values[Ascii(key)]) else 0
  }

  predicate FlagAt(values: Values, key: string) { Ascii(key) in values && values[Ascii(key)] == Ascii("1") }

  /** A running session as its status describes it: whether it is ready, whether its window and its input are,
      and the size of its screen. */
  datatype Session = Session(nonce: u64, ready: bool, hole: bool, input: bool, width: u64, height: u64)

  /** The session that a status names, if its process is the session daemon. */
  function SessionOf(contents: seq<byte>, running: nat -> bool): Option<Session> {
    var values := ParsedOnto(map[], contents);
    var pid, nonce := NumberAt(values, "SESSION_PID"), NumberAt(values, "SESSION_NONCE");
    if pid > 0x7fff_ffff || nonce == 0 || !running(pid) then None
    else
      var ready := Ascii("STATE") in values && values[Ascii("STATE")] == Ascii("ready");
      Some(Session(
        nonce, ready, FlagAt(values, "HOLE_READY"), FlagAt(values, "INPUT_READY"),
        NumberAt(values, "LOGICAL_WIDTH"), NumberAt(values, "LOGICAL_HEIGHT")))
  }

  /** The screen that an installed profile certifies. */
  function ScreenOf(contents: seq<byte>): Option<(i32, i32)> {
    var profile := ParsedOnto(map[], contents);
    var width, height := NumberAt(profile, "LOGICAL_WIDTH"), NumberAt(profile, "LOGICAL_HEIGHT");
    if width < 240 || width > 4096 || height < 80 || height > 2048
      || (!FlagAt(profile, "HOLE_SESSION_CERTIFIED") && !FlagAt(profile, "PERSONAL_UNBOUND"))
    then None else Some((width, height))
  }

  /** A field that one line can carry. */
  predicate Plain(f: Field) {
    && 0 < |f.key| <= 32 && |f.value| <= 128
    && EQUALS !in f.key && NEW_LINE !in f.key && NEW_LINE !in f.value && RETURN !in f.value
  }

  function Added(m: Values, f: Field): Values { if f.key in m then m else m[f.key := f.value] }

  function AddedAll(m: Values, fields: seq<Field>): Values
    decreases |fields|
  {
    if fields == [] then m else AddedAll(Added(m, fields[0]), fields[1..])
  }

  lemma NotIn(s: seq<byte>, c: byte, k: nat)
    requires k < |s| && c !in s[..k] && s[k] == c
    ensures IndexOf(s, c) == k
  {
    assert forall i :: 0 <= i < k ==> s[i] == s[..k][i];
    FirstIsUnique(s, c, IndexOf(s, c), k);
  }

  /** A line is read as the field it was written for. */
  lemma LineIsRead(m: Values, f: Field)
    requires Plain(f)
    ensures AddLine(m, f.key + [EQUALS] + f.value) == Added(m, f)
  {
    var line, k := f.key + [EQUALS] + f.value, |f.key|;
    assert line[..k] == f.key && line[k + 1..] == f.value;
    NotIn(line, EQUALS, k);
    if f.value != [] {
      assert line[|line| - 1] == f.value[|f.value| - 1];
      assert f.value[|f.value| - 1] in f.value;
    }
  }

  /** And a text as the fields it was written for. */
  lemma {:induction false} TextIsRead(m: Values, fields: seq<Field>)
    requires forall i :: 0 <= i < |fields| ==> Plain(fields[i])
    ensures ParsedOnto(m, TextOf(fields)) == AddedAll(m, fields)
    decreases |fields|
  {
    hide Plain, AddLine;
    if fields != [] {
      var f, text := fields[0], TextOf(fields);
      var line := f.key + [EQUALS] + f.value;
      PlainLine(f);
      assert text == line + [NEW_LINE] + TextOf(fields[1..]);
      assert text[..|line|] == line && text[|line| + 1..] == TextOf(fields[1..]);
      NotIn(text, NEW_LINE, |line|);
      LineIsRead(m, f);
      TextIsRead(Added(m, f), fields[1..]);
    }
  }

  lemma PlainLine(f: Field)
    requires Plain(f)
    ensures NEW_LINE !in f.key + [EQUALS] + f.value
  {
  }

  lemma {:induction false} DecimalIsShort(n: nat, k: nat, power: nat)
    requires n < power && power == Pow10(k) && k >= 1
    ensures |Decimal(n)| <= k
  {
    if n >= 10 {
      DecimalIsShort(n / 10, k - 1, power / 10);
    }
  }

  function Pow10(k: nat): nat { if k == 0 then 1 else 10 * Pow10(k - 1) }

  lemma DecimalIsPlain(n: nat)
    requires n <= U64_MAX
    ensures |Decimal(n)| <= 20 && NEW_LINE !in Decimal(n) && RETURN !in Decimal(n)
  {
    assert Pow10(20) == 100000000000000000000 by {
      Pow10Of20();
    }
    DecimalIsShort(n, 20, Pow10(20));
  }

  lemma Pow10Of20()
    ensures Pow10(20) == 100000000000000000000
  {
    assert Pow10(5) == 100000;
    assert Pow10(10) == 10000000000;
    assert Pow10(15) == 1000000000000000;
  }

  /** A number printed is the number read. */
  lemma DecimalIsRead(n: nat)
    requires n <= U64_MAX
    ensures NumberOf(Decimal(n)) == n
  {
    var s := Decimal(n);
    DecimalRoundTrip(n);
    var k := IndexOf(s, 0);
    assert forall i :: 0 <= i < |s| ==> s[i] != 0;
    assert k == |s|;
    assert s[..k] == s && Digit(s[0]);
  }

  predicate PlainKey(key: seq<byte>) { 0 < |key| <= 32 && EQUALS !in key && NEW_LINE !in key }

  lemma UpperCaseIsPlain(s: string)
    requires 0 < |s| <= 32 && forall i :: 0 <= i < |s| ==> 'A' <= s[i] <= '_'
    ensures PlainKey(Ascii(s))
  {
  }

  lemma KeysArePlain()
    ensures PlainKey(Ascii("SESSION_PID")) && PlainKey(Ascii("SESSION_NONCE")) && PlainKey(Ascii("STATE"))
    ensures PlainKey(Ascii("RESULT")) && PlainKey(Ascii("HOLE_READY")) && PlainKey(Ascii("INPUT_READY"))
    ensures PlainKey(Ascii("LOGICAL_WIDTH")) && PlainKey(Ascii("LOGICAL_HEIGHT"))
  {
    hide Ascii, PlainKey;
    UpperCaseIsPlain("SESSION_PID"); UpperCaseIsPlain("SESSION_NONCE"); UpperCaseIsPlain("STATE");
    UpperCaseIsPlain("RESULT"); UpperCaseIsPlain("HOLE_READY"); UpperCaseIsPlain("INPUT_READY");
    UpperCaseIsPlain("LOGICAL_WIDTH"); UpperCaseIsPlain("LOGICAL_HEIGHT");
  }

  lemma NamesArePlain(p: Phase, b: bool)
    ensures |PhaseName(p)| <= 128 && NEW_LINE !in PhaseName(p) && RETURN !in PhaseName(p)
    ensures |FlagText(b)| == 1 && NEW_LINE !in FlagText(b) && RETURN !in FlagText(b)
    ensures PhaseName(p) == Ascii("ready") <==> p == Ready
    ensures FlagText(b) == Ascii("1") <==> b
  {
    assert |Ascii("ready")| == 5 && |Ascii("error")| == 5 && Ascii("ready")[0] == 'r' as int && Ascii("error")[0] == 'e' as int;
    assert Ascii("1")[0] == '1' as int && Ascii("0")[0] == '0' as int;
  }

  lemma FieldsArePlain(d: Document)
    ensures forall i :: 0 <= i < 8 ==> Plain(Fields(d)[i])
  {
    hide Ascii, PhaseName, FlagText, Decimal;
    KeysArePlain();
    NamesArePlain(d.state, d.hole);
    NamesArePlain(d.state, d.input);
    DecimalIsPlain(Positive(d.pid));
    DecimalIsPlain(d.nonce);
    DecimalIsPlain(Positive(d.result));
    DecimalIsPlain(Positive(d.width));
    DecimalIsPlain(Positive(d.height));
  }

  /** The eight keys are different. */
  lemma KeysDiffer(d: Document)
    ensures forall i, j :: 0 <= i < j < 8 ==> Fields(d)[i].key != Fields(d)[j].key
  {
    hide PhaseName, FlagText, Decimal;
    assert Ascii("HOLE_READY")[0] == 'H' as int && Ascii("RESULT")[0] == 'R' as int;
    assert |Ascii("SESSION_NONCE")| == |Ascii("LOGICAL_WIDTH")| == 13;
    assert Ascii("SESSION_NONCE")[0] == 'S' as int && Ascii("LOGICAL_WIDTH")[0] == 'L' as int;
    assert |Ascii("SESSION_PID")| == |Ascii("INPUT_READY")| == 11;
    assert Ascii("SESSION_PID")[0] == 'S' as int && Ascii("INPUT_READY")[0] == 'I' as int;
  }

  /** Distinct keys keep their values. */
  lemma {:induction false} AllAreAdded(m: Values, fields: seq<Field>, i: nat)
    requires forall a, b :: 0 <= a < b < |fields| ==> fields[a].key != fields[b].key
    requires forall a :: 0 <= a < |fields| ==> fields[a].key !in m
    requires i < |fields|
    ensures fields[i].key in AddedAll(m, fields) && AddedAll(m, fields)[fields[i].key] == fields[i].value
    decreases |fields|
  {
    var next := Added(m, fields[0]);
    if i > 0 {
      AllAreAdded(next, fields[1..], i - 1);
    } else {
      OthersKeep(next, fields[1..], fields[0].key);
    }
  }

  lemma {:induction false} OthersKeep(m: Values, fields: seq<Field>, key: seq<byte>)
    requires key in m
    ensures key in AddedAll(m, fields) && AddedAll(m, fields)[key] == m[key]
    decreases |fields|
  {
    if fields != [] {
      OthersKeep(Added(m, fields[0]), fields[1..], key);
    }
  }

  /** What the daemon publishes is what the launcher reads, for every document: process, nonce, readiness and the
      size of the screen. */
  lemma StatusIsRead(d: Document, running: nat -> bool)
    requires ValidDocument(d)
    ensures SessionOf(TextOf(Fields(d)), running) ==
      if running(d.pid) then Some(Session(d.nonce, d.state == Ready, d.hole, d.input, d.width, d.height)) else None
  {
    hide Ascii, PhaseName, FlagText, Decimal, NumberOf, Plain;
    var fields := Fields(d);
    FieldsArePlain(d);
    KeysDiffer(d);
    TextIsRead(map[], fields);
    AllAreAdded(map[], fields, 0); AllAreAdded(map[], fields, 1); AllAreAdded(map[], fields, 2);
    AllAreAdded(map[], fields, 4); AllAreAdded(map[], fields, 5);
    AllAreAdded(map[], fields, 6); AllAreAdded(map[], fields, 7);
    DecimalIsRead(d.pid); DecimalIsRead(d.nonce); DecimalIsRead(d.width); DecimalIsRead(d.height);
    NamesArePlain(d.state, d.hole);
    NamesArePlain(d.state, d.input);
  }

  /** And it is short enough to be read at all. */
  lemma StatusIsSmall(d: Document)
    ensures |TextOf(Fields(d))| <= 4096
  {
    FieldsArePlain(d);
    LinesAreShort(Fields(d));
  }

  lemma {:induction false} LinesAreShort(fields: seq<Field>)
    requires forall i :: 0 <= i < |fields| ==> Plain(fields[i])
    ensures |TextOf(fields)| <= 162 * |fields|
  {
    if fields != [] {
      LinesAreShort(fields[1..]);
    }
  }

  /** What a line adds: its key and value, once, when neither is too long; a carriage return at the end is dropped. */
  lemma LineMeans(m: Values, key: seq<byte>, value: seq<byte>)
    requires 61 !in key
    ensures
      var added := if 1 <= |key| <= 32 && |value| <= 128 && key !in m then m[key := value] else m;
      && AddLine(m, key + [61] + value + [13]) == added
      && (value == [] || value[|value| - 1] != 13 ==> AddLine(m, key + [61] + value) == added)
  {
    var line := key + [61] + value;
    assert (line + [13])[..|line|] == line;
    FirstEquals(key, value);
    assert line[..|key|] == key && line[|key| + 1..] == value;
    if value == [] {
      assert line[|line| - 1] == 61;
    } else {
      assert line[|line| - 1] == value[|value| - 1];
    }
  }

  lemma FirstEquals(key: seq<byte>, value: seq<byte>)
    requires 61 !in key
    ensures IndexOf(key + [61] + value, 61) == |key|
  {
    var line := key + [61] + value;
    assert line[|key|] == 61 && forall i :: 0 <= i < |key| ==> line[i] == key[i];
  }

  /** A line without an equals sign adds nothing. */
  lemma NoEqualsAddsNothing(m: Values, line: seq<byte>)
    requires 61 !in line
    ensures AddLine(m, line) == m
  {
    var t := if line != [] && line[|line| - 1] == RETURN then line[..|line| - 1] else line;
    assert forall i :: 0 <= i < |t| ==> t[i] == line[i];
  }
}
