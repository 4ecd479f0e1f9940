/** The CRC-32 of saved games: the loop that computes it, and the damage it never misses. */
module Crc {
  import opened Bytes
  import opened Words

  function WideByte(b: byte): bv32 { Wide32(Bits(b)) }

  lemma WideByteInjective(b: byte, c: byte)
    requires WideByte(b) == WideByte(c)
    ensures b == c
  {
    hide Bits, Value;
    ByteOfBits(b);
    ByteOfBits(c);
    WideInjective(Bits(b), Bits(c));
  }

  /** One bit of the checksum: divide by x, taking the polynomial off when a one falls out. */
  function BitStep(v: bv32): bv32 { if v & 1 == 1 then (v >> 1) ^ 0xedb88320 else v >> 1 }

  function BitSteps(v: bv32, n: nat): bv32 { if n == 0 then v else BitStep(BitSteps(v, n - 1)) }

  function ByteStep(v: bv32, b: byte): bv32 { BitSteps(v ^ WideByte(b), 8) }

  function CrcFrom(v: bv32, s: seq<byte>): bv32 {
    if s == [] then v else ByteStep(CrcFrom(v, s[..|s| - 1]), s[|s| - 1])
  }

  function Crc32(s: seq<byte>): bv32 { CrcFrom(0xffffffff, s) ^ 0xffffffff }

  lemma LowBit(v: bv32)
    ensures v & 1 == 0 || v & 1 == 1
  {
  }

  lemma FullMask(p: bv32)
    ensures p & (0 - 1) == p && p & (0 - 0) == 0
  {
  }

  lemma NothingAdded(v: bv32)
    ensures v ^ 0 == v
  {
  }

  lemma MaskedStep(v: bv32)
    ensures (v >> 1) ^ (0xedb88320 & (0 - (v & 1))) == BitStep(v)
  {
    LowBit(v);
    FullMask(0xedb88320);
    NothingAdded(v >> 1);
  }

  /** The checksum loop: bytes, then bits, with the sign-extended mask of the source. */
  method ComputeCrc(bytes: seq<byte>) returns (crc: bv32)
    ensures crc == Crc32(bytes)
  {
    hide ByteStep, CrcFrom;
    CrcNothing(0xffffffff);
    var value: bv32 := 0xffffffff;
    assert bytes[..0] == [];
    for index := 0 to |bytes|
      invariant value == CrcFrom(0xffffffff, bytes[..index])
    {
      CrcNext(0xffffffff, bytes, index);
      value := FoldByte(value, bytes[index]);
    }
    assert bytes[..|bytes|] == bytes;
    crc := value ^ 0xffffffff;
  }

  method FoldByte(value: bv32, b: byte) returns (r: bv32)
    ensures r == ByteStep(value, b)
  {
    hide BitStep, WideByte;
    r := value ^ WideByte(b);
    for bit := 0 to 8
      invariant r == BitSteps(value ^ WideByte(b), bit)
    {
      MaskedStep(r);
      r := (r >> 1) ^ (0xedb88320 & (0 - (r & 1)));
    }
  }

  lemma CrcNothing(v: bv32)
    ensures CrcFrom(v, []) == v
  {
  }

  lemma CrcNext(v: bv32, s: seq<byte>, i: nat)
    requires i < |s|
    ensures CrcFrom(v, s[..i + 1]) == ByteStep(CrcFrom(v, s[..i]), s[i])
  {
    hide ByteStep;
    assert s[..i + 1][..i] == s[..i];
  }

  lemma BitStepInjective(v: bv32, w: bv32)
    requires BitStep(v) == BitStep(w)
    ensures v == w
  {
  }

  lemma {:induction false} BitStepsInjective(v: bv32, w: bv32, n: nat)
    requires BitSteps(v, n) == BitSteps(w, n)
    ensures v == w
  {
    if n > 0 {
      BitStepInjective(BitSteps(v, n - 1), BitSteps(w, n - 1));
      BitStepsInjective(v, w, n - 1);
    }
  }

  lemma ByteStepInjective(v: bv32, w: bv32, b: byte, c: byte)
    requires ByteStep(v, b) == ByteStep(w, c)
    ensures b == c ==> v == w
    ensures v == w ==> b == c
  {
    hide BitSteps, WideByte;
    BitStepsInjective(v ^ WideByte(b), w ^ WideByte(c), 8);
    XorCancels(v, w, WideByte(b), WideByte(c));
    if v == w {
      WideByteInjective(b, c);
    }
  }

  lemma XorCancels(v: bv32, w: bv32, b: bv32, c: bv32)
    requires v ^ b == w ^ c
    ensures (b == c ==> v == w) && (v == w ==> b == c)
  {
  }

  lemma WideInjective(b: bv8, c: bv8)
    ensures b as bv32 == c as bv32 ==> b == c
  {
  }

  /** Strings of one length that differ in exactly one place have different checksums. */
  lemma {:induction false} CrcSeesOneByte(s: seq<byte>, t: seq<byte>, v: bv32, k: nat)
    requires |s| == |t| && k < |s| && s[k] != t[k]
    requires forall i :: 0 <= i < |s| && i != k ==> s[i] == t[i]
    ensures CrcFrom(v, s) != CrcFrom(v, t)
  {
    hide ByteStep;
    var n := |s| - 1;
    var before, after := CrcFrom(v, s[..n]), CrcFrom(v, t[..n]);
    if k == n {
      assert s[..n] == t[..n];
      if CrcFrom(v, s) == CrcFrom(v, t) {
        ByteStepInjective(before, before, s[n], t[n]);
        assert false;
      }
    } else {
      CrcSeesOneByte(s[..n], t[..n], v, k);
      if CrcFrom(v, s) == CrcFrom(v, t) {
        ByteStepInjective(before, after, s[n], t[n]);
        assert false;
      }
    }
  }

  lemma EightSteps(v: bv32)
    ensures BitSteps(v, 8) == BitStep(BitStep(BitStep(BitStep(BitStep(BitStep(BitStep(BitStep(v))))))))
  {
    hide BitStep;
    assert BitSteps(v, 1) == BitStep(BitSteps(v, 0)) == BitStep(v);
    assert BitSteps(v, 2) == BitStep(BitSteps(v, 1));
    assert BitSteps(v, 4) == BitStep(BitStep(BitSteps(v, 2)));
    assert BitSteps(v, 6) == BitStep(BitStep(BitSteps(v, 4)));
  }

  lemma WideIs(b: byte, w: bv8)
    requires w as int == b
    ensures WideByte(b) == w as bv32
  {
    hide Bits;
    ByteOfBits(b);
    ValueInjective(Bits(b), w);
  }

  /** One byte of a concrete string. */
  lemma ByteStepIs(v: bv32, b: byte, w: bv8)
    requires w as int == b
    ensures ByteStep(v, b) ==
      BitStep(BitStep(BitStep(BitStep(BitStep(BitStep(BitStep(BitStep(v ^ (w as bv32)))))))))
  {
    hide BitStep, BitSteps, WideByte;
    WideIs(b, w);
    EightSteps(v ^ (w as bv32));
  }

  const DIGITS: seq<byte> := [49, 50, 51, 52, 53, 54, 55, 56, 57]

  lemma CheckStep(i: nat, v: bv32, w: bv8)
    requires i < 9 && CrcFrom(0xffffffff, DIGITS[..i]) == v && w as int == DIGITS[i]
    ensures CrcFrom(0xffffffff, DIGITS[..i + 1]) ==
      BitStep(BitStep(BitStep(BitStep(BitStep(BitStep(BitStep(BitStep(v ^ (w as bv32)))))))))
  {
    hide BitStep, ByteStep, CrcFrom;
    CrcNext(0xffffffff, DIGITS, i);
    ByteStepIs(v, DIGITS[i], w);
  }

  /** The check value of the CRC-32 of ISO 3309: the checksum of the digits one to nine. */
  lemma CrcCheckValue()
    ensures Crc32([49, 50, 51, 52, 53, 54, 55, 56, 57]) == 0xcbf43926
  {
    hide CrcFrom;
    CrcNothing(0xffffffff);
    assert DIGITS[..0] == [] && DIGITS[..9] == DIGITS;
    CheckStep(0, 0xffffffff, 0x31);
    CheckStep(1, 0x7c231048, 0x32);
    CheckStep(2, 0xb0acbb32, 0x33);
    CheckStep(3, 0x77b79c2d, 0x34);
    CheckStep(4, 0x641c1f5c, 0x35);
    CheckStep(5, 0x340ac5e3, 0x36);
    CheckStep(6, 0xf68d2c9e, 0x37);
    CheckStep(7, 0xaffc9660, 0x38);
    CheckStep(8, 0x651f2550, 0x39);
  }
}
