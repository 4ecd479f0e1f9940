/** Bytes and little-endian integers, as every wire format of the platform lays them out. */
module Bytes {

  type byte = x: int | 0 <= x < 256
  type u16 = x: int | 0 <= x < 0x1_0000
  type u32 = x: int | 0 <= x < 0x1_0000_0000
  type u64 = x: int | 0 <= x < 0x1_0000_0000_0000_0000
  type i32 = x: int | -0x8000_0000 <= x < 0x8000_0000

  const U64_MAX: u64 := 0xffff_ffff_ffff_ffff

  datatype Option<+T> = None | Some(value: T)

  function Pow256(n: nat): (p: nat)
    ensures p > 0
  {
    if n == 0 then 1 else 256 * Pow256(n - 1)
  }

  lemma Widths()
    ensures Pow256(1) == 0x100 && Pow256(2) == 0x1_0000
    ensures Pow256(4) == 0x1_0000_0000 && Pow256(8) == 0x1_0000_0000_0000_0000
  {
    assert Pow256(3) == 0x100_0000;
    assert Pow256(5) == 0x100_0000_0000 && Pow256(6) == 0x1_0000_0000_0000;
  }

  /** Byte `i` of `v`, the least significant one being byte zero. */
  function ByteOf(v: nat, i: nat): byte { v / Pow256(i) % 256 }

  /** The `n` low bytes of `v`, least significant first; higher bits are dropped. */
  function Le(n: nat, v: nat): (s: seq<byte>)
    ensures |s| == n
  {
    seq(n, i requires 0 <= i < n => ByteOf(v, i))
  }

  /** The widths the formats use, written out. */
  lemma LeBytes(v: nat)
    ensures Le(2, v) == [v % 256, v / 0x100 % 256]
    ensures Le(4, v) == [v % 256, v / 0x100 % 256, v / 0x1_0000 % 256, v / 0x100_0000 % 256]
    ensures Le(8, v) == Le(4, v) + Le(4, v / 0x1_0000_0000)
  {
    var high := v / 0x1_0000_0000;
    Powers();
    assert forall i :: 0 <= i < 4 ==> ByteOf(v, i + 4) == ByteOf(high, i) by {
      assert v / 0x100_0000_0000 == high / 0x100 && v / 0x1_0000_0000_0000 == high / 0x1_0000;
      assert v / 0x100_0000_0000_0000 == high / 0x100_0000;
      assert ByteOf(v, 4) == ByteOf(high, 0) && ByteOf(v, 5) == ByteOf(high, 1);
      assert ByteOf(v, 6) == ByteOf(high, 2) && ByteOf(v, 7) == ByteOf(high, 3);
    }
  }

  lemma Powers()
    ensures Pow256(0) == 1 && Pow256(1) == 0x100 && Pow256(2) == 0x1_0000 && Pow256(3) == 0x100_0000
    ensures Pow256(4) == 0x1_0000_0000 && Pow256(5) == 0x100_0000_0000
    ensures Pow256(6) == 0x1_0000_0000_0000 && Pow256(7) == 0x100_0000_0000_0000
  {
    Widths();
    assert Pow256(3) == 0x100_0000;
    assert Pow256(5) == 0x100_0000_0000 && Pow256(6) == 0x1_0000_0000_0000;
  }

  function FromLe(s: seq<byte>): nat {
    if s == [] then 0 else s[0] + 256 * FromLe(s[1..])
  }

  lemma LeStep(n: nat, v: nat)
    requires n > 0
    ensures Le(n, v) == [v % 256] + Le(n - 1, v / 256)
  {
    forall i | 0 < i < n
      ensures ByteOf(v, i) == ByteOf(v / 256, i - 1)
    {
      SplitDivision(v, Pow256(i - 1));
    }
  }

  /** Reading back what was written gives the value, truncated to the width written. */
  lemma {:induction false} FromLeOfLe(n: nat, v: nat)
    ensures FromLe(Le(n, v)) == v % Pow256(n)
  {
    if n > 0 {
      LeStep(n, v);
      assert Le(n, v)[1..] == Le(n - 1, v / 256);
      FromLeOfLe(n - 1, v / 256);
      SplitDivision(v, Pow256(n - 1));
    }
  }

  lemma SplitDivision(v: nat, p: nat)
    requires p > 0
    ensures v / (256 * p) == (v / 256) / p
    ensures v % (256 * p) == v % 256 + 256 * ((v / 256) % p)
  {
    var q, r := v / 256, v % 256;
    var k, t := q / p, q % p;
    assert v == 256 * (k * p + t) + r;
    assert v == k * (256 * p) + (256 * t + r) by {
      assert 256 * (k * p) == k * (256 * p);
    }
    assert 256 * t + r < 256 * p;
    ModulusUnique(v, 256 * p, k, 256 * t + r);
  }

  lemma ProductGap(m: nat, k: nat, q: nat)
    ensures q > k ==> q * m >= k * m + m
  {
    if q > k {
      var d: nat := q - k - 1;
      assert q * m == k * m + m + d * m by { assert q == k + 1 + d; }
      assert d * m >= 0;
    }
  }

  lemma QuotientUnique(m: nat, q: nat, s: nat, k: nat, r: nat)
    requires s < m && r < m && q * m + s == k * m + r
    ensures q == k && s == r
  {
    ProductGap(m, k, q);
    ProductGap(m, q, k);
  }

  lemma ModulusUnique(v: nat, m: nat, k: nat, r: nat)
    requires m > 0 && r < m && v == k * m + r
    ensures v % m == r && v / m == k
  {
    QuotientUnique(m, v / m, v % m, k, r);
  }

  lemma {:induction false} FromLeBound(s: seq<byte>)
    ensures FromLe(s) < Pow256(|s|)
  {
    if s != [] {
      FromLeBound(s[1..]);
    }
  }

  /** A byte string is the encoding of the number it decodes to. */
  lemma {:induction false} LeOfFromLe(s: seq<byte>)
    ensures Le(|s|, FromLe(s)) == s
  {
    if s != [] {
      LeOfFromLe(s[1..]);
      LeStep(|s|, FromLe(s));
      assert FromLe(s) / 256 == FromLe(s[1..]);
      assert s == [s[0]] + s[1..];
    }
  }

  lemma {:induction false} FromLeAppend(s: seq<byte>, b: byte)
    ensures FromLe(s + [b]) == FromLe(s) + b * Pow256(|s|)
  {
    if s == [] {
      assert s + [b] == [b];
      assert FromLe([b][1..]) == 0;
    } else {
      assert (s + [b])[1..] == s[1..] + [b];
      FromLeAppend(s[1..], b);
      assert 256 * (b * Pow256(|s| - 1)) == b * Pow256(|s|);
    }
  }

  /** Both directions at one width: the shape in which the codecs use them. */
  lemma LeInverse(n: nat, v: nat)
    requires v < Pow256(n)
    ensures FromLe(Le(n, v)) == v
  {
    FromLeOfLe(n, v);
    ModulusUnique(v, Pow256(n), 0, v);
  }

  /** Two strings that agree up to `k` and on `k..j` agree up to `j`. */
  lemma Glue(a: seq<byte>, b: seq<byte>, k: nat, j: nat)
    requires k <= j <= |a| && j <= |b|
    requires a[..k] == b[..k] && a[k..j] == b[k..j]
    ensures a[..j] == b[..j]
  {
    assert a[..j] == a[..k] + a[k..j];
    assert b[..j] == b[..k] + b[k..j];
  }

  /** Two strings cut into parts of the same lengths are equal exactly when the parts are. */
  lemma TwoParts(a: seq<byte>, b: seq<byte>, p: seq<byte>, q: seq<byte>)
    requires |a| == |p|
    ensures a + b == p + q <==> a == p && b == q
  {
    if a + b == p + q {
      assert (a + b)[..|a|] == a && (p + q)[..|a|] == p;
      assert (a + b)[|a|..] == b && (p + q)[|a|..] == q;
    }
  }

  lemma SixParts(a: seq<byte>, b: seq<byte>, c: seq<byte>, d: seq<byte>, e: seq<byte>, f: seq<byte>,
                 p: seq<byte>, q: seq<byte>, r: seq<byte>, s: seq<byte>, t: seq<byte>, u: seq<byte>)
    requires |a| == |p| && |b| == |q| && |c| == |r| && |d| == |s| && |e| == |t|
    ensures a + b + c + d + e + f == p + q + r + s + t + u <==>
      a == p && b == q && c == r && d == s && e == t && f == u
  {
    TwoParts(a + b + c + d + e, f, p + q + r + s + t, u);
    TwoParts(a + b + c + d, e, p + q + r + s, t);
    TwoParts(a + b + c, d, p + q + r, s);
    TwoParts(a + b, c, p + q, r);
    TwoParts(a, b, p, q);
  }

  lemma EightParts(a: seq<byte>, b: seq<byte>, c: seq<byte>, d: seq<byte>, e: seq<byte>, f: seq<byte>,
                   g: seq<byte>, h: seq<byte>,
                   p: seq<byte>, q: seq<byte>, r: seq<byte>, s: seq<byte>, t: seq<byte>, u: seq<byte>,
                   v: seq<byte>, w: seq<byte>)
    requires |a| == |p| && |b| == |q| && |c| == |r| && |d| == |s| && |e| == |t| && |f| == |u| && |g| == |v|
    ensures a + b + c + d + e + f + g + h == p + q + r + s + t + u + v + w <==>
      a == p && b == q && c == r && d == s && e == t && f == u && g == v && h == w
  {
    TwoParts(a + b + c + d + e + f + g, h, p + q + r + s + t + u + v, w);
    TwoParts(a + b + c + d + e + f, g, p + q + r + s + t + u, v);
    SixParts(a, b, c, d, e, f, p, q, r, s, t, u);
  }

  /** A slice of a slice. */
  lemma SubSlice(b: seq<byte>, lo: nat, hi: nat, i: nat, j: nat)
    requires lo <= hi <= |b| && i <= j <= hi - lo
    ensures b[lo..hi][i..j] == b[lo + i..lo + j]
  {
    var left, right := b[lo..hi][i..j], b[lo + i..lo + j];
    assert forall k :: 0 <= k < j - i ==> left[k] == b[lo + i + k] == right[k];
  }

  /** A part of a prefix is found in the whole. */
  lemma PrefixSlice(start: seq<byte>, p: seq<byte>, r: seq<byte>, t: seq<byte>)
    requires start == p + r && start <= t
    ensures |p| + |r| <= |t| && t[|p|..|p| + |r|] == r
  {
    assert start[|p|..|start|] == r && t[0..|start|] == start;
    SubSlice(t, 0, |start|, |p|, |start|);
  }

  /** All bytes of `s` are zero. */
  predicate Zero(s: seq<byte>) {
    forall i :: 0 <= i < |s| ==> s[i] == 0
  }

  function Zeros(n: nat): (s: seq<byte>)
    ensures |s| == n && Zero(s)
  {
    seq(n, _ => 0)
  }

  /** Appends `n` little-endian bytes to a growing buffer, one `push_back` a byte. */
  method AppendLe(output: seq<byte>, n: nat, value: nat) returns (r: seq<byte>)
    ensures r == output + Le(n, value)
    ensures output == [] ==> r == Le(n, value)
  {
    r := output;
    var shifted := value;
    for index := 0 to n
      invariant r + Le(n - index, shifted) == output + Le(n, value)
    {
      LeStep(n - index, shifted);
      r := r + [shifted % 256];
      shifted := shifted / 256;
    }
  }

  /** Writes `n` little-endian bytes into a fixed buffer at `at`. */
  method PutLe(value: nat, output: array<byte>, at: nat, n: nat)
    requires at + n <= output.Length
    modifies output
    ensures output[at..at + n] == Le(n, value)
    ensures forall i :: 0 <= i < output.Length && !(at <= i < at + n) ==> output[i] == old(output[i])
  {
    var shifted := value;
    for index := 0 to n
      invariant output[at..at + index] + Le(n - index, shifted) == Le(n, value)
      invariant forall i :: 0 <= i < output.Length && !(at <= i < at + index) ==> output[i] == old(output[i])
    {
      ghost var before := output[at..at + index];
      ghost var rest := Le(n - index, shifted);
      LeStep(n - index, shifted);
      output[at + index] := shifted % 256;
      shifted := shifted / 256;
      assert output[at..at + index + 1] == before + [rest[0]];
      assert rest == [rest[0]] + Le(n - index - 1, shifted);
    }
  }

  /** Copies a byte string into a fixed buffer at `at`. */
  method PutBytes(value: seq<byte>, output: array<byte>, at: nat)
    requires at + |value| <= output.Length
    modifies output
    ensures output[at..at + |value|] == value
    ensures forall i :: 0 <= i < output.Length && !(at <= i < at + |value|) ==> output[i] == old(output[i])
  {
    for index := 0 to |value|
      invariant forall i :: 0 <= i < index ==> output[at + i] == value[i]
      invariant forall i :: 0 <= i < output.Length && !(at <= i < at + index) ==> output[i] == old(output[i])
    {
      output[at + index] := value[index];
    }
  }

  /** Reads `n` little-endian bytes, or-ing each byte in at its place. */
  method GetLe(input: seq<byte>, at: nat, n: nat) returns (value: nat)
    requires at + n <= |input|
    ensures value == FromLe(input[at..at + n])
  {
    value := 0;
    var weight: nat := 1;
    for index := 0 to n
      invariant weight == Pow256(index)
      invariant value == FromLe(input[at..at + index])
    {
      assert input[at..at + index + 1] == input[at..at + index] + [input[at + index]];
      FromLeAppend(input[at..at + index], input[at + index]);
      value := value + input[at + index] * weight;
      weight := 256 * weight;
    }
  }

  /** What a slice holds does not depend on the rest of the string. */
  lemma SamePart(a: seq<byte>, b: seq<byte>, lo: nat, hi: nat)
    requires lo <= hi <= |a| && hi <= |b| && forall i :: lo <= i < hi ==> a[i] == b[i]
    ensures a[lo..hi] == b[lo..hi]
  {
  }

  /** The unsigned number of `n` bytes at an offset. */
  function Word(b: seq<byte>, at: nat): u32
    requires at + 4 <= |b|
  {
    FromLeBound(b[at..at + 4]);
    Widths();
    FromLe(b[at..at + 4])
  }

  function Long(b: seq<byte>, at: nat): u64
    requires at + 8 <= |b|
  {
    FromLeBound(b[at..at + 8]);
    Widths();
    FromLe(b[at..at + 8])
  }

  function Half(b: seq<byte>, at: nat): u16
    requires at + 2 <= |b|
  {
    FromLeBound(b[at..at + 2]);
    Widths();
    FromLe(b[at..at + 2])
  }

  /** A field holds the bytes of a number exactly when that number is read from it. */
  lemma WordIsRead(b: seq<byte>, at: nat, v: u32)
    requires at + 4 <= |b|
    ensures b[at..at + 4] == Le(4, v) <==> Word(b, at) == v
  {
    Widths();
    LeInverse(4, v);
    LeOfFromLe(b[at..at + 4]);
  }

  lemma LongIsRead(b: seq<byte>, at: nat, v: u64)
    requires at + 8 <= |b|
    ensures b[at..at + 8] == Le(8, v) <==> Long(b, at) == v
  {
    Widths();
    LeInverse(8, v);
    LeOfFromLe(b[at..at + 8]);
  }

  lemma HalfIsRead(b: seq<byte>, at: nat, v: u16)
    requires at + 2 <= |b|
    ensures b[at..at + 2] == Le(2, v) <==> Half(b, at) == v
  {
    Widths();
    LeInverse(2, v);
    LeOfFromLe(b[at..at + 2]);
  }

  /** A field holds a string and zeros behind it exactly when both are found there. */
  lemma PaddedIsRead(b: seq<byte>, at: nat, size: nat, s: seq<byte>)
    requires at + size <= |b| && |s| <= size
    ensures b[at..at + size] == s + Zeros(size - |s|) <==> b[at..at + |s|] == s && Zero(b[at + |s|..at + size])
  {
    var n := |s|;
    assert b[at..at + size] == b[at..at + n] + b[at + n..at + size];
    TwoParts(b[at..at + n], b[at + n..at + size], s, Zeros(size - n));
    assert Zero(b[at + n..at + size]) ==> b[at + n..at + size] == Zeros(size - n);
  }
}
