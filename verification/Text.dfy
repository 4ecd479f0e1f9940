/** Byte strings: the identifiers the platform accepts, and the order in which lists are kept. */
module Text {
  import opened Bytes

  const DOT: byte := '.' as int
  const DASH: byte := '-' as int

  predicate Digit(c: byte) { '0' as int <= c <= '9' as int }
  predicate Lower(c: byte) { 'a' as int <= c <= 'z' as int }
  predicate Ordinary(c: byte) { Lower(c) || Digit(c) }
  predicate Separator(c: byte) { c == DOT || c == DASH }
  predicate LowerHexDigit(c: byte) { Digit(c) || 'a' as int <= c <= 'f' as int }

  function HexDigit(n: nat): (c: byte)
    requires n < 16
    ensures LowerHexDigit(c)
  {
    if n < 10 then '0' as int + n else 'a' as int + n - 10
  }

  predicate LowerHex(s: seq<byte>, size: nat) {
    |s| == size && forall i :: 0 <= i < |s| ==> LowerHexDigit(s[i])
  }

  /** Ordinary characters with single separators between or before them, never two in a row
      and never one at the end. */
  predicate Dotted(s: seq<byte>) {
    && (forall i :: 0 <= i < |s| ==> Ordinary(s[i]) || Separator(s[i]))
    && (forall i :: 0 < i < |s| ==> !(Separator(s[i - 1]) && Separator(s[i])))
    && (s != [] ==> !Separator(s[|s| - 1]))
  }

  /** An application identifier of the release state: a dot or a dash must occur. */
  predicate AppId(s: seq<byte>) {
    && 0 < |s| <= 96 && s[0] != DOT
    && Dotted(s)
    && exists i :: 0 <= i < |s| && Separator(s[i])
  }

  /** An application identifier of the session protocol: a dot must occur. */
  predicate SessionAppId(s: seq<byte>) {
    && 0 < |s| < 96 && s[0] != DOT
    && Dotted(s)
    && DOT in s
  }

  /** The bytes are the characters of the word. */
  predicate Spells(s: seq<byte>, word: string) {
    |s| == |word| && forall i :: 0 <= i < |s| ==> s[i] == word[i] as int
  }

  predicate Plain(c: byte) { 97 <= c <= 122 || 48 <= c <= 57 }

  /** Pieces of one ordinary character each, with at most one dash or dot before it. */
  predicate Pieces(s: seq<byte>) {
    || s == []
    || (Plain(s[0]) && Pieces(s[1..]))
    || ((s[0] == 45 || s[0] == 46) && |s| > 1 && Plain(s[1]) && Pieces(s[2..]))
  }

  lemma {:induction false} DottedIsPieces(s: seq<byte>)
    ensures Dotted(s) <==> Pieces(s)
  {
    if s != [] {
      var n := if Separator(s[0]) && |s| > 1 then 2 else 1;
      var rest := s[n..];
      DottedIsPieces(rest);
      assert forall i :: n <= i < |s| ==> s[i] == rest[i - n];
      assert rest != [] ==> rest[|rest| - 1] == s[|s| - 1];
    }
  }

  /** Both identifiers by their grammar: pieces, no dot in front, and a separator of the right kind somewhere. */
  lemma IdentifiersArePieces(s: seq<byte>)
    ensures AppId(s) <==> 1 <= |s| <= 96 && s[0] != 46 && Pieces(s) && (45 in s || 46 in s)
    ensures SessionAppId(s) <==> 1 <= |s| <= 95 && s[0] != 46 && Pieces(s) && 46 in s
  {
    DottedIsPieces(s);
    hide Dotted, Pieces;
    assert (45 in s || 46 in s) <==> exists i :: 0 <= i < |s| && Separator(s[i]);
  }

  method CheckAppId(value: seq<byte>) returns (ok: bool)
    ensures ok == AppId(value)
  {
    if value == [] || |value| > 96 || value[0] == DOT || value[|value| - 1] == DOT {
      return false;
    }
    var separator, hasSeparator := false, false;
    for index := 0 to |value|
      invariant separator == (index > 0 && Separator(value[index - 1]))
      invariant hasSeparator == exists i :: 0 <= i < index && Separator(value[i])
      invariant forall i :: 0 <= i < index ==> Ordinary(value[i]) || Separator(value[i])
      invariant forall i :: 0 < i < index ==> !(Separator(value[i - 1]) && Separator(value[i]))
    {
      if Separator(value[index]) {
        if separator {
          return false;
        }
        separator, hasSeparator := true, true;
      } else if Ordinary(value[index]) {
        separator := false;
      } else {
        return false;
      }
    }
    ok := hasSeparator && !separator;
  }

  method CheckSessionAppId(value: seq<byte>) returns (ok: bool)
    ensures ok == SessionAppId(value)
  {
    if value == [] || |value| >= 96 || value[0] == DOT || value[|value| - 1] == DOT {
      return false;
    }
    var separator, hasDot := false, false;
    for index := 0 to |value|
      invariant separator == (index > 0 && Separator(value[index - 1]))
      invariant hasDot == (DOT in value[..index])
      invariant forall i :: 0 <= i < index ==> Ordinary(value[i]) || Separator(value[i])
      invariant forall i :: 0 < i < index ==> !(Separator(value[i - 1]) && Separator(value[i]))
    {
      assert value[..index + 1] == value[..index] + [value[index]];
      if Separator(value[index]) {
        if separator {
          return false;
        }
        separator := true;
        hasDot := hasDot || value[index] == DOT;
      } else if Ordinary(value[index]) {
        separator := false;
      } else {
        return false;
      }
    }
    assert value[..|value|] == value;
    ok := hasDot && !separator;
  }

  /** Byte strings compare by their first difference, a proper prefix being smaller. */
  predicate LexLess(a: seq<byte>, b: seq<byte>) {
    if b == [] then false
    else if a == [] then true
    else if a[0] != b[0] then a[0] < b[0]
    else LexLess(a[1..], b[1..])
  }

  /** The first difference decides: there the smaller byte is smaller, and the end is smaller than any byte. */
  lemma {:induction false} LexLessMeans(a: seq<byte>, b: seq<byte>, k: nat)
    requires k <= |a| && k <= |b| && a[..k] == b[..k]
    requires (k < |a| && k < |b| && a[k] != b[k]) || k == |a| || k == |b|
    ensures LexLess(a, b) <==> k < |b| && (k == |a| || a[k] < b[k])
  {
    if k > 0 {
      assert a[0] == a[..k][0] && b[0] == b[..k][0];
      assert a[1..][..k - 1] == a[..k][1..] && b[1..][..k - 1] == b[..k][1..];
      LexLessMeans(a[1..], b[1..], k - 1);
    }
  }

  /** The order is strict and total, so a strictly ascending list has no repeated element. */
  lemma {:induction false} LexTotal(a: seq<byte>, b: seq<byte>)
    ensures a == b ==> !LexLess(a, b)
    ensures a != b ==> LexLess(a, b) != LexLess(b, a)
  {
    if a != [] && b != [] && a[0] == b[0] {
      LexTotal(a[1..], b[1..]);
      assert a == [a[0]] + a[1..] && b == [b[0]] + b[1..];
    }
  }

  lemma {:induction false} LexTransitive(a: seq<byte>, b: seq<byte>, c: seq<byte>)
    requires LexLess(a, b) && LexLess(b, c)
    ensures LexLess(a, c)
  {
    if a != [] && a[0] == b[0] == c[0] {
      LexTransitive(a[1..], b[1..], c[1..]);
    }
  }

  predicate Ascending(s: seq<seq<byte>>) {
    forall i :: 0 < i < |s| ==> LexLess(s[i - 1], s[i])
  }

  /** Neighbours in order put every earlier element before every later one. */
  lemma {:induction false} AscendingPairs(s: seq<seq<byte>>, i: nat, j: nat)
    requires Ascending(s) && i < j < |s|
    ensures LexLess(s[i], s[j])
  {
    if i + 1 < j {
      AscendingPairs(s, i, j - 1);
      LexTransitive(s[i], s[j - 1], s[j]);
    }
  }

  /** Decimal digits of a number, most significant first, as `std::to_string` prints them. */
  function Decimal(n: nat): (s: seq<byte>)
    ensures |s| > 0 && forall i :: 0 <= i < |s| ==> Digit(s[i])
  {
    if n < 10 then ['0' as int + n] else Decimal(n / 10) + ['0' as int + n % 10]
  }

  /** The number a string of digits stands for. */
  function DecimalValue(s: seq<byte>): nat {
    if s == [] then 0
    else 10 * DecimalValue(s[..|s| - 1]) + (if Digit(s[|s| - 1]) then s[|s| - 1] - '0' as int else 0)
  }

  lemma {:induction false} DecimalRoundTrip(n: nat)
    ensures DecimalValue(Decimal(n)) == n
  {
    if n >= 10 {
      DecimalRoundTrip(n / 10);
      var s := Decimal(n);
      assert s[..|s| - 1] == Decimal(n / 10);
    } else {
      assert [('0' as int + n) as byte][..0] == [];
    }
  }

  /** `end` is the position of the first `c` at or after `start`, or the length of `s`. */
  ghost predicate First(s: seq<byte>, c: byte, start: nat, end: nat) {
    && start <= end <= |s| && (end < |s| ==> s[end] == c)
    && forall i :: start <= i < end ==> s[i] != c
  }

  function IndexOf(s: seq<byte>, c: byte): (k: nat)
    ensures First(s, c, 0, k)
  {
    if s == [] || s[0] == c then 0 else 1 + IndexOf(s[1..], c)
  }

  method Find(s: seq<byte>, c: byte, start: nat) returns (end: nat)
    requires start <= |s|
    ensures First(s, c, start, end)
  {
    end := start;
    while end < |s| && s[end] != c
      invariant start <= end <= |s| && forall i :: start <= i < end ==> s[i] != c
    {
      end := end + 1;
    }
  }

  /** Printable text: not empty, not too long, no control characters. */
  predicate ValidText(s: seq<byte>, maximum: nat) {
    0 < |s| <= maximum && forall i :: 0 <= i < |s| ==> s[i] >= 0x20 && s[i] != 0x7f
  }

  method CheckText(s: seq<byte>, maximum: nat) returns (ok: bool)
    ensures ok == ValidText(s, maximum)
  {
    if s == [] || |s| > maximum {
      return false;
    }
    for index := 0 to |s|
      invariant forall i :: 0 <= i < index ==> s[i] >= 0x20 && s[i] != 0x7f
    {
      if s[index] == 0 || s[index] < 0x20 || s[index] == 0x7f {
        return false;
      }
    }
    ok := true;
  }
}
