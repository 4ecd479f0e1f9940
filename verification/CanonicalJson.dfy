/** The canonical JSON printer against which a manifest is compared byte for byte. */
module CanonicalJson {
  import opened Bytes
  import opened Text

  /** A parsed JSON value. `Real` stands for every number the parser does not hold as an integer. */
  datatype Json =
    | Null | Bool(b: bool) | Str(s: seq<byte>) | Number(n: int) | Real
    | Array(items: seq<Json>) | Object(members: seq<Member>)

  datatype Member = Member(name: seq<byte>, value: Json)

  const SAFE_INTEGER: int := 9007199254740991
  const QUOTE: byte := '\"' as int
  const BACKSLASH: byte := '\\' as int
  const COMMA: byte := ',' as int
  const COLON: byte := ':' as int
  const OPEN_ARRAY: byte := '[' as int
  const CLOSE_ARRAY: byte := ']' as int
  const OPEN_OBJECT: byte := '{' as int
  const CLOSE_OBJECT: byte := '}' as int
  const MINUS: byte := '-' as int

  const NULL: seq<byte> := ['n' as int, 'u' as int, 'l' as int, 'l' as int]
  const TRUE: seq<byte> := ['t' as int, 'r' as int, 'u' as int, 'e' as int]
  const FALSE: seq<byte> := ['f' as int, 'a' as int, 'l' as int, 's' as int, 'e' as int]

  /** One byte inside a string, escaped as section 7 of RFC 8259 demands. */
  function Escape(c: byte): (s: seq<byte>)
    ensures s != [] && s[0] != QUOTE
  {
    if c == QUOTE then [BACKSLASH, QUOTE]
    else if c == BACKSLASH then [BACKSLASH, BACKSLASH]
    else if c == 8 then [BACKSLASH, 'b' as int]
    else if c == 12 then [BACKSLASH, 'f' as int]
    else if c == 10 then [BACKSLASH, 'n' as int]
    else if c == 13 then [BACKSLASH, 'r' as int]
    else if c == 9 then [BACKSLASH, 't' as int]
    else if c < 0x20 then [BACKSLASH, 'u' as int, '0' as int, '0' as int, HexDigit(c / 16), HexDigit(c % 16)]
    else [c]
  }

  /** Every byte in its shortest form: two bytes for the seven that have a letter or themselves, six for the other
      control characters, their digits in lower case, and all others as they are. */
  lemma EscapeForms(c: byte)
    ensures |Escape(c)| == (if c in {8, 9, 10, 12, 13, 34, 92} then 2 else if c < 32 then 6 else 1)
    ensures forall i :: 0 <= i < |Escape(c)| && |Escape(c)| == 6 ==> !(65 <= Escape(c)[i] <= 90)
  {
  }

  /** The rest of a string from some byte on, with its closing quote. */
  function StringTail(s: seq<byte>): (r: seq<byte>)
    ensures r != []
  {
    if s == [] then [QUOTE] else Escape(s[0]) + StringTail(s[1..])
  }

  function IntegerText(n: int): seq<byte> {
    if n < 0 then [MINUS] + Decimal(-n) else Decimal(n)
  }

  /** The canonical text of a value. */
  function JsonText(v: Json): seq<byte>
    decreases v, 1
  {
    match v
    case Null => NULL
    case Bool(b) => if b then TRUE else FALSE
    case Str(s) => [QUOTE] + StringTail(s)
    case Number(n) => IntegerText(n)
    case Real => []
    case Array(items) => [OPEN_ARRAY] + (if items == [] then [CLOSE_ARRAY] else JsonText(items[0]) + ItemsTail(items[1..]))
    case Object(members) =>
      [OPEN_OBJECT] + (if members == [] then [CLOSE_OBJECT] else MemberText(members[0]) + MembersTail(members[1..]))
  }

  /** The rest of an array after an item, with its closing bracket. */
  function ItemsTail(items: seq<Json>): seq<byte>
    decreases items, 0
  {
    if items == [] then [CLOSE_ARRAY] else [COMMA] + (JsonText(items[0]) + ItemsTail(items[1..]))
  }

  function MemberText(m: Member): seq<byte>
    decreases m, 0
  {
    [QUOTE] + (StringTail(m.name) + ([COLON] + JsonText(m.value)))
  }

  function MembersTail(members: seq<Member>): seq<byte>
    decreases members, 0
  {
    if members == [] then [CLOSE_OBJECT] else [COMMA] + (MemberText(members[0]) + MembersTail(members[1..]))
  }

  /** The values the printer accepts: safe integers only, and members in strictly ascending order. */
  predicate Accepted(v: Json) {
    match v
    case Null => true
    case Bool(_) => true
    case Str(_) => true
    case Number(n) => -SAFE_INTEGER <= n <= SAFE_INTEGER
    case Real => false
    case Array(items) => forall i :: 0 <= i < |items| ==> Accepted(items[i])
    case Object(members) =>
      && (forall i :: 0 <= i < |members| ==> Accepted(members[i].value))
      && forall i :: 0 < i < |members| ==> LexLess(members[i - 1].name, members[i].name)
  }

  method CanonicalString(value: seq<byte>, output: seq<byte>) returns (r: seq<byte>)
    ensures r == output + [QUOTE] + StringTail(value)
  {
    r := output + [QUOTE];
    for index := 0 to |value|
      invariant r + StringTail(value[index..]) == output + [QUOTE] + StringTail(value)
    {
      assert value[index..][0] == value[index] && value[index..][1..] == value[index + 1..];
      r := r + Escape(value[index]);
    }
    r := r + [QUOTE];
  }

  /** What remains to be printed of an array before item `i`. */
  function ItemsFrom(items: seq<Json>, i: nat): seq<byte>
    requires i <= |items|
  {
    if i == |items| then [CLOSE_ARRAY]
    else if i == 0 then JsonText(items[0]) + ItemsTail(items[1..])
    else [COMMA] + (JsonText(items[i]) + ItemsTail(items[i + 1..]))
  }

  function MembersFrom(members: seq<Member>, i: nat): seq<byte>
    requires i <= |members|
  {
    if i == |members| then [CLOSE_OBJECT]
    else if i == 0 then MemberText(members[0]) + MembersTail(members[1..])
    else [COMMA] + (MemberText(members[i]) + MembersTail(members[i + 1..]))
  }

  lemma ItemsTailIsFrom(items: seq<Json>, i: nat)
    requires 0 < i <= |items|
    ensures ItemsTail(items[i..]) == ItemsFrom(items, i)
  {
    if i < |items| {
      assert items[i..][1..] == items[i + 1..];
    }
  }

  lemma MembersTailIsFrom(members: seq<Member>, i: nat)
    requires 0 < i <= |members|
    ensures MembersTail(members[i..]) == MembersFrom(members, i)
  {
    if i < |members| {
      assert members[i..][1..] == members[i + 1..];
    }
  }

  /** Appends the canonical text of `value`; succeeds exactly on the accepted values. */
  method Canonical(value: Json, output: seq<byte>) returns (ok: bool, r: seq<byte>)
    ensures ok == Accepted(value)
    ensures ok ==> r == output + JsonText(value)
    decreases value, 1
  {
    match value {
      case Null => return true, output + NULL;
      case Bool(b) => return true, output + (if b then TRUE else FALSE);
      case Str(s) =>
        r := CanonicalString(s, output);
        assert r == output + JsonText(value);
        ok := true;
      case Number(n) =>
        if n < -SAFE_INTEGER || n > SAFE_INTEGER {
          return false, output;
        }
        return true, output + IntegerText(n);
      case Real => return false, output;
      case Array(items) =>
        ok, r := CanonicalArray(items, output);
      case Object(members) =>
        ok, r := CanonicalObject(members, output);
    }
  }

  method CanonicalArray(items: seq<Json>, output: seq<byte>) returns (ok: bool, r: seq<byte>)
    ensures ok == Accepted(Array(items))
    ensures ok ==> r == output + JsonText(Array(items))
    decreases items, 0
  {
    hide JsonText, ItemsTail;
    ghost var whole := output + JsonText(Array(items));
    r := output + [OPEN_ARRAY];
    ArrayText(items);
    Assoc(output, [OPEN_ARRAY], ItemsFrom(items, 0));
    for index := 0 to |items|
      invariant forall i :: 0 <= i < index ==> Accepted(items[i])
      invariant r + ItemsFrom(items, index) == whole
    {
      ghost var rest := JsonText(items[index]) + ItemsTail(items[index + 1..]);
      if index != 0 {
        Assoc(r, [COMMA], rest);
        r := r + [COMMA];
      }
      Assoc(r, JsonText(items[index]), ItemsTail(items[index + 1..]));
      ok, r := Canonical(items[index], r);
      if !ok {
        return;
      }
      ItemsTailIsFrom(items, index + 1);
    }
    r := r + [CLOSE_ARRAY];
    ok := true;
  }

  method CanonicalMember(m: Member, output: seq<byte>) returns (ok: bool, r: seq<byte>)
    ensures ok == Accepted(m.value)
    ensures ok ==> r == output + MemberText(m)
    decreases m, 0
  {
    hide JsonText, StringTail;
    r := CanonicalString(m.name, output);
    r := r + [COLON];
    ok, r := Canonical(m.value, r);
    assert ok ==> r == output + MemberText(m);
  }

  method CanonicalObject(members: seq<Member>, output: seq<byte>) returns (ok: bool, r: seq<byte>)
    ensures ok == Accepted(Object(members))
    ensures ok ==> r == output + JsonText(Object(members))
    decreases members, 0
  {
    hide JsonText, MemberText, MembersTail, LexLess;
    ghost var whole := output + JsonText(Object(members));
    r := output + [OPEN_OBJECT];
    ObjectText(members);
    Assoc(output, [OPEN_OBJECT], MembersFrom(members, 0));
    for index := 0 to |members|
      invariant forall i :: 0 <= i < index ==> Accepted(members[i].value)
      invariant forall i :: 0 < i < index ==> LexLess(members[i - 1].name, members[i].name)
      invariant r + MembersFrom(members, index) == whole
    {
      ghost var rest := MemberText(members[index]) + MembersTail(members[index + 1..]);
      if index != 0 {
        if !LexLess(members[index - 1].name, members[index].name) {
          return false, r;
        }
        Assoc(r, [COMMA], rest);
        r := r + [COMMA];
      }
      Assoc(r, MemberText(members[index]), MembersTail(members[index + 1..]));
      ok, r := CanonicalMember(members[index], r);
      if !ok {
        return;
      }
      MembersTailIsFrom(members, index + 1);
    }
    r := r + [CLOSE_OBJECT];
    ok := true;
  }

  lemma ArrayText(items: seq<Json>)
    ensures JsonText(Array(items)) == [OPEN_ARRAY] + ItemsFrom(items, 0)
  {
  }

  lemma ObjectText(members: seq<Member>)
    ensures JsonText(Object(members)) == [OPEN_OBJECT] + MembersFrom(members, 0)
  {
  }

  lemma Assoc(a: seq<byte>, b: seq<byte>, c: seq<byte>)
    ensures (a + b) + c == a + (b + c)
  {
  }

  /** What may follow a value inside a document: nothing, a comma, or a closing bracket. */
  predicate Delimited(x: seq<byte>) {
    x == [] || x[0] == COMMA || x[0] == CLOSE_ARRAY || x[0] == CLOSE_OBJECT
  }

  /** The first byte of a text tells the kind of its value. */
  lemma FirstByte(v: Json)
    requires Accepted(v)
    ensures JsonText(v) != []
    ensures
      var c := JsonText(v)[0];
      match v
      case Null => c == 'n' as int
      case Bool(b) => c == (if b then 't' as int else 'f' as int)
      case Str(_) => c == QUOTE
      case Number(_) => c == MINUS || Digit(c)
      case Real => false
      case Array(_) => c == OPEN_ARRAY
      case Object(_) => c == OPEN_OBJECT
  {
  }

  lemma StringText(s: seq<byte>)
    ensures JsonText(Str(s)) == [QUOTE] + StringTail(s)
  {
  }

  lemma NumberText(n: int)
    ensures JsonText(Number(n)) == IntegerText(n)
  {
  }

  lemma ItemsTailDelimited(items: seq<Json>, x: seq<byte>)
    ensures Delimited(ItemsTail(items) + x) && |ItemsTail(items)| > 0
    ensures ItemsTail(items)[0] == (if items == [] then CLOSE_ARRAY else COMMA)
  {
    hide JsonText;
    assert (ItemsTail(items) + x)[0] == ItemsTail(items)[0];
  }

  lemma MembersTailDelimited(members: seq<Member>, x: seq<byte>)
    ensures Delimited(MembersTail(members) + x) && |MembersTail(members)| > 0
    ensures MembersTail(members)[0] == (if members == [] then CLOSE_OBJECT else COMMA)
  {
    hide MemberText;
    assert (MembersTail(members) + x)[0] == MembersTail(members)[0];
  }

  lemma {:induction false} MembersAscend(s: seq<Member>, i: nat, j: nat)
    requires Accepted(Object(s)) && i < j < |s|
    ensures LexLess(s[i].name, s[j].name)
  {
    if i + 1 < j {
      MembersAscend(s, i, j - 1);
      LexTransitive(s[i].name, s[j - 1].name, s[j].name);
    }
  }

  lemma FirstMemberLeast(s: seq<Member>, m: Member)
    requires Accepted(Object(s)) && s != []
    ensures m in s[1..] ==> LexLess(s[0].name, m.name) && m != s[0]
  {
    if m in s[1..] {
      var k :| 0 <= k < |s| - 1 && s[1..][k] == m;
      MembersAscend(s, 0, k + 1);
      LexTotal(s[0].name, m.name);
    }
  }

  lemma SameMembersEmpty(s: seq<Member>, t: seq<Member>)
    requires forall m :: m in s <==> m in t
    ensures s == [] <==> t == []
  {
    if s != [] {
      assert s[0] in s;
    }
    if t != [] {
      assert t[0] in t;
    }
  }

  /** Member order carries no information: accepted objects with the same members are the same
      list, so equal objects have one text. */
  lemma {:induction false} MembersDetermineObject(s: seq<Member>, t: seq<Member>)
    requires Accepted(Object(s)) && Accepted(Object(t))
    requires forall m :: m in s <==> m in t
    ensures s == t
  {
    SameMembersEmpty(s, t);
    if s != [] {
      assert s[0] in t && t[0] in s;
      FirstMemberLeast(s, t[0]);
      FirstMemberLeast(t, s[0]);
      LexTotal(s[0].name, t[0].name);
      assert s == [s[0]] + s[1..] && t == [t[0]] + t[1..];
      assert s[0] == t[0];
      forall m
        ensures m in s[1..] <==> m in t[1..]
      {
        FirstMemberLeast(s, m);
        FirstMemberLeast(t, m);
        assert (m in s) == (m == s[0] || m in s[1..]);
        assert (m in t) == (m == t[0] || m in t[1..]);
      }
      MembersDetermineObject(s[1..], t[1..]);
    }
  }

  /** A value occurs in another: it is that value, an item, a member's value, or deeper. */
  predicate Occurs(w: Json, v: Json) {
    w == v || match v
      case Array(items) => exists i :: 0 <= i < |items| && Occurs(w, items[i])
      case Object(members) => exists i :: 0 <= i < |members| && Occurs(w, members[i].value)
      case _ => false
  }

  /** What the printer refuses: numbers that are no safe integers, and objects whose names do not ascend. */
  predicate Printable(w: Json) {
    !w.Real? && (w.Number? ==> -0x1f_ffff_ffff_ffff <= w.n <= 0x1f_ffff_ffff_ffff)
    && (w.Object? ==> forall i, j :: 0 <= i < j < |w.members| ==> LexLess(w.members[i].name, w.members[j].name))
  }

  lemma ItemsMean(items: seq<Json>)
    requires forall i :: 0 <= i < |items| ==>
      (Accepted(items[i]) <==> forall w :: Occurs(w, items[i]) ==> Printable(w))
    ensures Accepted(Array(items)) <==> forall w :: Occurs(w, Array(items)) ==> Printable(w)
  {
    if forall w :: Occurs(w, Array(items)) ==> Printable(w) {
      forall i, w | 0 <= i < |items| && Occurs(w, items[i])
        ensures Printable(w)
      {
        assert Occurs(w, Array(items));
      }
    }
  }

  lemma MembersMean(members: seq<Member>)
    requires forall i :: 0 <= i < |members| ==>
      (Accepted(members[i].value) <==> forall w :: Occurs(w, members[i].value) ==> Printable(w))
    ensures Accepted(Object(members)) <==> forall w :: Occurs(w, Object(members)) ==> Printable(w)
  {
    hide LexLess;
    if Accepted(Object(members)) {
      forall i, j | 0 <= i < j < |members|
        ensures LexLess(members[i].name, members[j].name)
      {
        MembersAscend(members, i, j);
      }
    }
    if forall w :: Occurs(w, Object(members)) ==> Printable(w) {
      assert Occurs(Object(members), Object(members));
      forall i, w | 0 <= i < |members| && Occurs(w, members[i].value)
        ensures Printable(w)
      {
        assert Occurs(w, Object(members));
      }
    }
  }

  /** A value is accepted if and only if nothing that occurs in it is refused. */
  lemma {:induction false} AcceptedMeans(v: Json)
    ensures Accepted(v) <==> forall w :: Occurs(w, v) ==> Printable(w)
  {
    hide LexLess;
    match v {
      case Array(items) =>
        forall i | 0 <= i < |items|
          ensures Accepted(items[i]) <==> forall w :: Occurs(w, items[i]) ==> Printable(w)
        {
          AcceptedMeans(items[i]);
        }
        ItemsMean(items);
      case Object(members) =>
        forall i | 0 <= i < |members|
          ensures Accepted(members[i].value) <==> forall w :: Occurs(w, members[i].value) ==> Printable(w)
        {
          AcceptedMeans(members[i].value);
        }
        MembersMean(members);
      case _ => assert Occurs(v, v);
    }
  }
}
