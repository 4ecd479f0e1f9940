/** Machine words as bytes: each byte is the shifted word cut to eight bits, and reading ors the
    shifted bytes together. */
module Words {
  import opened Bytes

  /** The byte with a given value, counted up from zero. */
  function Bits(b: byte): bv8 { if b == 0 then 0 else Bits(b - 1) + 1 }

  function Value(v: bv8): byte { v as int }

  lemma CountedUp(v: bv8)
    requires v != 255
    ensures (v + 1) as int == v as int + 1
  {
  }

  lemma ValueInjective(v: bv8, w: bv8)
    ensures v as int == w as int ==> v == w
  {
  }

  lemma {:induction false} ByteOfBits(b: byte)
    ensures Value(Bits(b)) == b
  {
    if b > 0 {
      ByteOfBits(b - 1);
      CountedUp(Bits(b - 1));
    }
  }

  lemma BitsOfByte(v: bv8)
    ensures Bits(Value(v)) == v
  {
    hide Bits;
    ByteOfBits(Value(v));
    ValueInjective(Bits(Value(v)), v);
  }

  /** The low byte of a word, and a byte widened to a word. */
  function Low64(r: bv64): bv8 { (r & 0xff) as bv8 }
  function Low32(r: bv32): bv8 { (r & 0xff) as bv8 }
  function Wide64(b: bv8): bv64 { b as bv64 }
  function Wide32(b: bv8): bv32 { b as bv32 }

  function Pick64(r: bv64, i: nat): bv8
    requires i < 8
  {
    match i
    case 0 => Low64(r) case 1 => Low64(r >> 8) case 2 => Low64(r >> 16) case 3 => Low64(r >> 24)
    case 4 => Low64(r >> 32) case 5 => Low64(r >> 40) case 6 => Low64(r >> 48) case _ => Low64(r >> 56)
  }

  function Pick32(r: bv32, i: nat): bv8
    requires i < 4
  {
    match i
    case 0 => Low32(r) case 1 => Low32(r >> 8) case 2 => Low32(r >> 16) case _ => Low32(r >> 24)
  }

  function Join64(a: bv8, b: bv8, c: bv8, d: bv8, e: bv8, f: bv8, g: bv8, h: bv8): bv64 {
    Wide64(a) | (Wide64(b) << 8) | (Wide64(c) << 16) | (Wide64(d) << 24)
    | (Wide64(e) << 32) | (Wide64(f) << 40) | (Wide64(g) << 48) | (Wide64(h) << 56)
  }

  function Join32(a: bv8, b: bv8, c: bv8, d: bv8): bv32 {
    Wide32(a) | (Wide32(b) << 8) | (Wide32(c) << 16) | (Wide32(d) << 24)
  }

  lemma PickOfJoin64(a: bv8, b: bv8, c: bv8, d: bv8, e: bv8, f: bv8, g: bv8, h: bv8)
    ensures
      var r := Join64(a, b, c, d, e, f, g, h);
      && Pick64(r, 0) == a && Pick64(r, 1) == b && Pick64(r, 2) == c && Pick64(r, 3) == d
      && Pick64(r, 4) == e && Pick64(r, 5) == f && Pick64(r, 6) == g && Pick64(r, 7) == h
  {
  }

  lemma JoinOfPick64(r: bv64)
    ensures r == Join64(Pick64(r, 0), Pick64(r, 1), Pick64(r, 2), Pick64(r, 3),
                        Pick64(r, 4), Pick64(r, 5), Pick64(r, 6), Pick64(r, 7))
  {
  }

  lemma PickOfJoin32(a: bv8, b: bv8, c: bv8, d: bv8)
    ensures
      var r := Join32(a, b, c, d);
      Pick32(r, 0) == a && Pick32(r, 1) == b && Pick32(r, 2) == c && Pick32(r, 3) == d
  {
  }

  lemma JoinOfPick32(r: bv32)
    ensures r == Join32(Pick32(r, 0), Pick32(r, 1), Pick32(r, 2), Pick32(r, 3))
  {
  }

  function Word64(r: bv64): (s: seq<byte>)
    ensures |s| == 8
  {
    [Value(Pick64(r, 0)), Value(Pick64(r, 1)), Value(Pick64(r, 2)), Value(Pick64(r, 3)),
     Value(Pick64(r, 4)), Value(Pick64(r, 5)), Value(Pick64(r, 6)), Value(Pick64(r, 7))]
  }

  function FromWord64(s: seq<byte>): bv64
    requires |s| == 8
  {
    Join64(Bits(s[0]), Bits(s[1]), Bits(s[2]), Bits(s[3]), Bits(s[4]), Bits(s[5]), Bits(s[6]), Bits(s[7]))
  }

  function Word32(r: bv32): (s: seq<byte>)
    ensures |s| == 4
  {
    [Value(Pick32(r, 0)), Value(Pick32(r, 1)), Value(Pick32(r, 2)), Value(Pick32(r, 3))]
  }

  function FromWord32(s: seq<byte>): bv32
    requires |s| == 4
  {
    Join32(Bits(s[0]), Bits(s[1]), Bits(s[2]), Bits(s[3]))
  }

  /** Writing a word and reading it back, and reading bytes and writing them back. */
  lemma Word64IsRead(r: bv64)
    ensures FromWord64(Word64(r)) == r
  {
    hide Bits, Value, Pick64, Join64;
    JoinOfPick64(r);
    BitsOfByte(Pick64(r, 0)); BitsOfByte(Pick64(r, 1)); BitsOfByte(Pick64(r, 2)); BitsOfByte(Pick64(r, 3));
    BitsOfByte(Pick64(r, 4)); BitsOfByte(Pick64(r, 5)); BitsOfByte(Pick64(r, 6)); BitsOfByte(Pick64(r, 7));
  }

  lemma Word64IsWritten(s: seq<byte>)
    requires |s| == 8
    ensures Word64(FromWord64(s)) == s
  {
    hide Bits, Value, Pick64, Join64;
    PickOfJoin64(Bits(s[0]), Bits(s[1]), Bits(s[2]), Bits(s[3]), Bits(s[4]), Bits(s[5]), Bits(s[6]), Bits(s[7]));
    ByteOfBits(s[0]); ByteOfBits(s[1]); ByteOfBits(s[2]); ByteOfBits(s[3]);
    ByteOfBits(s[4]); ByteOfBits(s[5]); ByteOfBits(s[6]); ByteOfBits(s[7]);
  }

  lemma Word32IsRead(r: bv32)
    ensures FromWord32(Word32(r)) == r
  {
    hide Bits, Value, Pick32, Join32;
    JoinOfPick32(r);
    BitsOfByte(Pick32(r, 0)); BitsOfByte(Pick32(r, 1)); BitsOfByte(Pick32(r, 2)); BitsOfByte(Pick32(r, 3));
  }

  lemma Word32IsWritten(s: seq<byte>)
    requires |s| == 4
    ensures Word32(FromWord32(s)) == s
  {
    hide Bits, Value, Pick32, Join32;
    PickOfJoin32(Bits(s[0]), Bits(s[1]), Bits(s[2]), Bits(s[3]));
    ByteOfBits(s[0]); ByteOfBits(s[1]); ByteOfBits(s[2]); ByteOfBits(s[3]);
  }

  /** The low byte comes first. */
  lemma LowByteFirst()
    ensures Word64(0x0807_0605_0403_0201) == [1, 2, 3, 4, 5, 6, 7, 8]
    ensures Word32(0x0403_0201) == [1, 2, 3, 4]
  {
  }
}
