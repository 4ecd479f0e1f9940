/** A reader of JSON texts after RFC 8259, for the texts the printer can make: no spaces, no fractions or
    exponents. It is written from the grammar, and reads back every value that was printed. */
module JsonReader {
  import opened Bytes
  import opened Text
  import opened CanonicalJson

  type Rest<T> = Option<(T, seq<byte>)>

  predicate Decimals(c: byte) { 0x30 <= c <= 0x39 }

  /** The digits at the front, section 6: their number of digits, and the value they are read to. */
  function DigitRun(b: seq<byte>): (n: nat)
    ensures n <= |b| && (n < |b| ==> !Decimals(b[n])) && forall i :: 0 <= i < n ==> Decimals(b[i])
  {
    if b == [] || !Decimals(b[0]) then 0 else 1 + DigitRun(b[1..])
  }

  function ValueOf(digits: seq<byte>, sofar: nat): nat
    requires forall i :: 0 <= i < |digits| ==> Decimals(digits[i])
  {
    if digits == [] then sofar
    else
      assert Decimals(digits[0]);
      ValueOf(digits[1..], 10 * sofar + (digits[0] - 0x30))
  }

  function ReadDigits(b: seq<byte>): (r: Rest<nat>)
    ensures r.Some? ==> |r.value.1| < |b|
  {
    var n := DigitRun(b);
    if n == 0 then None else Some((ValueOf(b[..n], 0), b[n..]))
  }

  /** Four hexadecimal digits, section 7. */
  function Nibble(c: byte): Option<nat> {
    if 0x30 <= c <= 0x39 then Some(c - 0x30)
    else if 0x41 <= c <= 0x46 then Some(c - 0x41 + 10)
    else if 0x61 <= c <= 0x66 then Some(c - 0x61 + 10)
    else None
  }

  /** One character of a string, section 7: itself, or an escape. Only code points of one byte are read. */
  function ReadCharacter(b: seq<byte>): (r: Rest<byte>)
    requires b != []
    ensures r.Some? ==> |r.value.1| < |b|
  {
    if b[0] < 0x20 then None
    else if b[0] != 0x5c then Some((b[0], b[1..]))
    else if |b| < 2 then None
    else if b[1] == 0x22 || b[1] == 0x5c || b[1] == 0x2f then Some((b[1], b[2..]))
    else if b[1] == 0x62 then Some((0x08, b[2..]))
    else if b[1] == 0x66 then Some((0x0c, b[2..]))
    else if b[1] == 0x6e then Some((0x0a, b[2..]))
    else if b[1] == 0x72 then Some((0x0d, b[2..]))
    else if b[1] == 0x74 then Some((0x09, b[2..]))
    else if b[1] != 0x75 || |b| < 6 || b[2] != 0x30 || b[3] != 0x30 then None
    else
      match (Nibble(b[4]), Nibble(b[5]))
      case (Some(high), Some(low)) => if high < 8 then Some((16 * high + low, b[6..])) else None
      case _ => None
  }

  /** What is left of a string after its opening quote. */
  function ReadString(b: seq<byte>): (r: Rest<seq<byte>>)
    ensures r.Some? ==> |r.value.1| < |b|
    decreases |b|
  {
    if b == [] then None
    else if b[0] == 0x22 then Some(([], b[1..]))
    else
      match ReadCharacter(b)
      case None => None
      case Some((c, more)) =>
        match ReadString(more)
        case None => None
        case Some((s, rest)) => Some(([c] + s, rest))
  }

  predicate Begins(b: seq<byte>, word: seq<byte>) { word <= b }

  predicate Leads(b: seq<byte>, c: byte) { b != [] && b[0] == c }

  /** Any value, section 3. */
  function ReadJson(b: seq<byte>): (r: Rest<Json>)
    ensures r.Some? ==> |r.value.1| < |b|
    decreases |b|, 1
  {
    if Begins(b, [0x6e, 0x75, 0x6c, 0x6c]) then Some((Null, b[4..]))
    else if Begins(b, [0x74, 0x72, 0x75, 0x65]) then Some((Bool(true), b[4..]))
    else if Begins(b, [0x66, 0x61, 0x6c, 0x73, 0x65]) then Some((Bool(false), b[5..]))
    else if b == [] then None
    else if b[0] == 0x22 then
      match ReadString(b[1..])
      case None => None
      case Some((s, rest)) => Some((Str(s), rest))
    else if b[0] == 0x2d then
      match ReadDigits(b[1..])
      case None => None
      case Some((n, rest)) => Some((Number(-(n as int)), rest))
    else if Decimals(b[0]) then
      match ReadDigits(b)
      case None => None
      case Some((n, rest)) => Some((Number(n), rest))
    else if b[0] == 0x5b then
      if Leads(b[1..], 0x5d) then Some((Array([]), b[2..]))
      else
        match ReadItems(b[1..])
        case None => None
        case Some((items, rest)) => Some((Array(items), rest))
    else if b[0] == 0x7b then
      if Leads(b[1..], 0x7d) then Some((Object([]), b[2..]))
      else
        match ReadMembers(b[1..])
        case None => None
        case Some((members, rest)) => Some((Object(members), rest))
    else None
  }

  /** One item or more, section 5, up to the closing bracket. */
  function ReadItems(b: seq<byte>): (r: Rest<seq<Json>>)
    ensures r.Some? ==> |r.value.1| < |b|
    decreases |b|, 2
  {
    match ReadJson(b)
    case None => None
    case Some((item, more)) =>
      if Leads(more, 0x5d) then Some(([item], more[1..]))
      else if !Leads(more, 0x2c) then None
      else
        match ReadItems(more[1..])
        case None => None
        case Some((items, rest)) => Some(([item] + items, rest))
  }

  /** One member or more, section 4, up to the closing brace. */
  function ReadMembers(b: seq<byte>): (r: Rest<seq<Member>>)
    ensures r.Some? ==> |r.value.1| < |b|
    decreases |b|, 2
  {
    match ReadMember(b)
    case None => None
    case Some((member, more)) =>
      if Leads(more, 0x7d) then Some(([member], more[1..]))
      else if !Leads(more, 0x2c) then None
      else
        match ReadMembers(more[1..])
        case None => None
        case Some((members, rest)) => Some(([member] + members, rest))
  }

  function ReadMember(b: seq<byte>): (r: Rest<Member>)
    ensures r.Some? ==> |r.value.1| < |b|
    decreases |b|, 0
  {
    if !Leads(b, 0x22) then None
    else
      match ReadString(b[1..])
      case None => None
      case Some((name, more)) =>
        if !Leads(more, 0x3a) then None
        else
          match ReadJson(more[1..])
          case None => None
          case Some((value, rest)) => Some((Member(name, value), rest))
  }

  /** What may follow a value: nothing, a comma, or a closing bracket. */
  predicate Ends(x: seq<byte>) { x == [] || x[0] == 0x2c || x[0] == 0x5d || x[0] == 0x7d }

  lemma Cut(a: seq<byte>, b: seq<byte>)
    ensures (a + b)[|a|..] == b && a <= a + b && forall i :: 0 <= i < |a| ==> (a + b)[i] == a[i]
  {
  }

  lemma CharacterIsRead(c: byte, x: seq<byte>)
    ensures ReadCharacter(Escape(c) + x) == Some((c, x)) && (Escape(c) + x)[0] != 0x22
  {
    Cut(Escape(c), x);
    if c < 0x20 && c !in {8, 9, 10, 12, 13} {
      NibbleOfHexDigit(c / 16);
      NibbleOfHexDigit(c % 16);
    }
  }

  lemma NibbleOfHexDigit(n: nat)
    requires n < 16
    ensures Nibble(HexDigit(n)) == Some(n)
  {
  }

  lemma {:induction false} StringIsRead(s: seq<byte>, x: seq<byte>)
    ensures ReadString(StringTail(s) + x) == Some((s, x))
  {
    hide Escape, ReadCharacter;
    if s == [] {
      Cut([QUOTE], x);
    } else {
      Assoc(Escape(s[0]), StringTail(s[1..]), x);
      CharacterIsRead(s[0], StringTail(s[1..]) + x);
      StringIsRead(s[1..], x);
      assert s == [s[0]] + s[1..];
    }
  }

  lemma {:induction false} ValueOfAppend(a: seq<byte>, c: byte, sofar: nat)
    requires Decimals(c) && forall i :: 0 <= i < |a| ==> Decimals(a[i])
    ensures ValueOf(a + [c], sofar) == 10 * ValueOf(a, sofar) + (c - 0x30)
  {
    var all := a + [c];
    if a != [] {
      assert all[1..] == a[1..] + [c];
      ValueOfAppend(a[1..], c, 10 * sofar + (a[0] - 0x30));
    } else {
      assert all[1..] == [];
    }
  }

  lemma {:induction false} DecimalIsRead(n: nat)
    ensures ValueOf(Decimal(n), 0) == n
  {
    if n >= 10 {
      DecimalIsRead(n / 10);
      ValueOfAppend(Decimal(n / 10), '0' as int + n % 10, 0);
    } else {
      assert Decimal(n)[1..] == [];
    }
  }

  lemma {:induction false} RunEnds(d: seq<byte>, x: seq<byte>)
    requires Ends(x) && forall i :: 0 <= i < |d| ==> Decimals(d[i])
    ensures DigitRun(d + x) == |d|
  {
    if d != [] {
      assert (d + x)[1..] == d[1..] + x;
      RunEnds(d[1..], x);
    } else {
      assert d + x == x;
    }
  }

  lemma DigitsAreRead(n: nat, x: seq<byte>)
    requires Ends(x)
    ensures ReadDigits(Decimal(n) + x) == Some((n, x))
  {
    hide Decimal, ValueOf;
    var d := Decimal(n);
    Cut(d, x);
    DecimalIsRead(n);
    RunEnds(d, x);
    assert (d + x)[..|d|] == d;
  }

  /** Every accepted value is read back from its text, whatever follows it in a document. */
  lemma {:induction false} TextIsRead(v: Json, x: seq<byte>)
    requires Accepted(v) && Ends(x)
    ensures ReadJson(JsonText(v) + x) == Some((v, x))
    decreases v, 1
  {
    hide JsonText, StringTail, IntegerText, ItemsFrom, MembersFrom, ItemsTail, MembersTail, LexLess;
    hide ReadItems, ReadMembers, ReadString, ReadDigits;
    match v {
      case Null => NullIsRead(x);
      case Bool(b) => BoolIsRead(b, x);
      case Str(s) =>
        StringText(s);
        Front(QUOTE, StringTail(s), x);
        StringIsRead(s, x);
      case Number(n) =>
        NumberText(n);
        NumberIsRead(n, x);
      case Real =>
      case Array(items) =>
        ArrayText(items);
        Front(OPEN_ARRAY, ItemsFrom(items, 0), x);
        ArrayIsRead(items, x);
      case Object(members) =>
        ObjectText(members);
        Front(OPEN_OBJECT, MembersFrom(members, 0), x);
        ObjectIsRead(members, x);
    }
  }

  lemma Front(c: byte, a: seq<byte>, x: seq<byte>)
    ensures ([c] + a) + x == [c] + (a + x)
    ensures (([c] + a) + x)[0] == c && (([c] + a) + x)[1..] == a + x
  {
    Assoc([c], a, x);
    Cut([c], a + x);
  }

  lemma NullIsRead(x: seq<byte>)
    ensures ReadJson(JsonText(Null) + x) == Some((Null, x))
  {
    Cut(JsonText(Null), x);
  }

  lemma BoolIsRead(b: bool, x: seq<byte>)
    ensures ReadJson(JsonText(Bool(b)) + x) == Some((Bool(b), x))
  {
    Cut(JsonText(Bool(b)), x);
    assert (JsonText(Bool(b)) + x)[0] == JsonText(Bool(b))[0];
  }

  lemma NumberIsRead(n: int, x: seq<byte>)
    requires Ends(x)
    ensures ReadJson(IntegerText(n) + x) == Some((Number(n), x))
  {
    hide Decimal, ReadDigits;
    if n < 0 {
      Front(MINUS, Decimal(-n), x);
      DigitsAreRead(-n, x);
    } else {
      Cut(Decimal(n), x);
      assert Digit(Decimal(n)[0]);
      DigitsAreRead(n, x);
    }
  }

  lemma {:induction false} ArrayIsRead(items: seq<Json>, x: seq<byte>)
    requires Accepted(Array(items)) && Ends(x)
    ensures
      var b := ItemsFrom(items, 0) + x;
      if items == [] then Leads(b, 0x5d) && b[1..] == x
      else !Leads(b, 0x5d) && ReadItems(b) == Some((items, x))
    decreases items, 0, 1
  {
    hide JsonText, ItemsTail, ReadItems;
    if items == [] {
      Cut([CLOSE_ARRAY], x);
    } else {
      FirstByte(items[0]);
      Cut(JsonText(items[0]), ItemsTail(items[1..]));
      Cut(ItemsFrom(items, 0), x);
      ItemsAreRead(items, x);
    }
  }

  lemma {:induction false} ItemsAreRead(items: seq<Json>, x: seq<byte>)
    requires items != [] && Accepted(Array(items)) && Ends(x)
    ensures ReadItems((JsonText(items[0]) + ItemsTail(items[1..])) + x) == Some((items, x))
    decreases items, 0, 0
  {
    hide JsonText, ReadJson;
    var tail := items[1..];
    Assoc(JsonText(items[0]), ItemsTail(tail), x);
    ItemsTailDelimited(tail, x);
    TextIsRead(items[0], ItemsTail(tail) + x);
    assert items == [items[0]] + tail;
    if tail == [] {
      Cut([CLOSE_ARRAY], x);
      assert items == [items[0]] && ItemsTail(tail) == [CLOSE_ARRAY];
    } else {
      Front(COMMA, JsonText(tail[0]) + ItemsTail(tail[1..]), x);
      ItemsAreRead(tail, x);
    }
  }

  lemma {:induction false} ObjectIsRead(members: seq<Member>, x: seq<byte>)
    requires Accepted(Object(members)) && Ends(x)
    ensures
      var b := MembersFrom(members, 0) + x;
      if members == [] then Leads(b, 0x7d) && b[1..] == x
      else !Leads(b, 0x7d) && ReadMembers(b) == Some((members, x))
    decreases members, 0, 1
  {
    hide JsonText, MembersTail, ReadMembers, StringTail, LexLess;
    if members == [] {
      Cut([CLOSE_OBJECT], x);
    } else {
      Cut(MemberText(members[0]), MembersTail(members[1..]));
      Cut(MembersFrom(members, 0), x);
      MembersAreRead(members, x);
    }
  }

  lemma {:induction false} MembersAreRead(members: seq<Member>, x: seq<byte>)
    requires members != [] && Accepted(Object(members)) && Ends(x)
    ensures ReadMembers((MemberText(members[0]) + MembersTail(members[1..])) + x) == Some((members, x))
    decreases members, 0, 0
  {
    hide MemberText, ReadMember, LexLess;
    var tail := members[1..];
    Assoc(MemberText(members[0]), MembersTail(tail), x);
    MembersTailDelimited(tail, x);
    MemberIsRead(members[0], MembersTail(tail) + x);
    assert members == [members[0]] + tail;
    if tail == [] {
      Cut([CLOSE_OBJECT], x);
      assert members == [members[0]] && MembersTail(tail) == [CLOSE_OBJECT];
    } else {
      Front(COMMA, MemberText(tail[0]) + MembersTail(tail[1..]), x);
      MembersAreRead(tail, x);
    }
  }

  lemma {:induction false} MemberIsRead(m: Member, x: seq<byte>)
    requires Accepted(m.value) && Ends(x)
    ensures ReadMember(MemberText(m) + x) == Some((m, x))
    decreases m, 0
  {
    hide JsonText, StringTail, ReadString, ReadJson;
    var value := [COLON] + JsonText(m.value);
    Front(QUOTE, StringTail(m.name) + value, x);
    Assoc(StringTail(m.name), value, x);
    StringIsRead(m.name, value + x);
    Front(COLON, JsonText(m.value), x);
    TextIsRead(m.value, x);
  }

  /** The canonical text of a value is a JSON text of exactly that value. */
  lemma DocumentIsRead(v: Json)
    requires Accepted(v)
    ensures ReadJson(JsonText(v)) == Some((v, []))
  {
    assert JsonText(v) + [] == JsonText(v);
    TextIsRead(v, []);
  }

  /** Escapes are self-delimiting. */
  lemma EscapePrefix(c: byte, d: byte, x: seq<byte>, y: seq<byte>)
    requires Escape(c) + x == Escape(d) + y
    ensures c == d && x == y
  {
    hide Escape, ReadCharacter;
    CharacterIsRead(c, x);
    CharacterIsRead(d, y);
  }

  /** So are strings, by their closing quote. */
  lemma StringPrefix(s: seq<byte>, t: seq<byte>, x: seq<byte>, y: seq<byte>)
    requires StringTail(s) + x == StringTail(t) + y
    ensures s == t && x == y
  {
    hide StringTail, ReadString;
    StringIsRead(s, x);
    StringIsRead(t, y);
  }

  /** And so are the texts of all accepted values, numbers being delimited by what may follow them: values whose
      texts begin the same byte string are equal, and so is what follows them. */
  lemma TextPrefix(v: Json, w: Json, x: seq<byte>, y: seq<byte>)
    requires Accepted(v) && Accepted(w) && Delimited(x) && Delimited(y)
    requires JsonText(v) + x == JsonText(w) + y
    ensures v == w && x == y
  {
    hide JsonText, ReadJson, Accepted;
    TextIsRead(v, x);
    TextIsRead(w, y);
  }

  /** The printer is injective on the values it accepts: a manifest's bytes determine its value. */
  lemma CanonicalIsInjective(v: Json, w: Json)
    requires Accepted(v) && Accepted(w)
    ensures JsonText(v) == JsonText(w) <==> v == w
  {
    hide JsonText, ReadJson, Accepted;
    DocumentIsRead(v);
    DocumentIsRead(w);
  }
}
