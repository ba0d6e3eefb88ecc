/** Bits of natural numbers, least significant first, and the XOR checksum of a byte string. */
module Bits {
  import opened Prelude

  function Pow2(n: nat): (p: nat)
    ensures p > 0
  {
    if n == 0 then 1 else 2 * Pow2(n - 1)
  }

  /** The lowest `n` bits of `v`. */
  function ToBits(v: nat, n: nat): (bits: seq<bool>)
    ensures |bits| == n
  {
    if n == 0 then [] else [v % 2 == 1] + ToBits(v / 2, n - 1)
  }

  function FromBits(bits: seq<bool>): (v: nat)
    ensures v < Pow2(|bits|)
  {
    if bits == [] then 0 else (if bits[0] then 1 else 0) + 2 * FromBits(bits[1..])
  }

  /** `n` bits hold any value below 2^n. */
  lemma {:induction false} FromToBits(v: nat, n: nat)
    requires v < Pow2(n)
    ensures FromBits(ToBits(v, n)) == v
  {
    if n > 0 {
      FromToBits(v / 2, n - 1);
      assert ToBits(v, n)[1..] == ToBits(v / 2, n - 1);
    }
  }

  lemma {:induction false} ToFromBits(bits: seq<bool>)
    ensures ToBits(FromBits(bits), |bits|) == bits
  {
    if bits != [] {
      ToFromBits(bits[1..]);
      assert bits == [bits[0]] + bits[1..];
    }
  }

  // ---- Single bits

  predicate Bit(v: nat, i: nat) {
    v / Pow2(i) % 2 == 1
  }

  lemma LowPowers()
    ensures Pow2(0) == 0x01 && Pow2(1) == 0x02 && Pow2(2) == 0x04 && Pow2(3) == 0x08
    ensures Pow2(4) == 0x10 && Pow2(5) == 0x20 && Pow2(6) == 0x40 && Pow2(7) == 0x80
  {
  }

  lemma HighPowers()
    ensures Pow2(8) == 0x0100 && Pow2(9) == 0x0200 && Pow2(10) == 0x0400 && Pow2(11) == 0x0800
    ensures Pow2(12) == 0x1000 && Pow2(13) == 0x2000 && Pow2(14) == 0x4000 && Pow2(15) == 0x8000
  {
    LowPowers();
    assert Pow2(9) == 2 * Pow2(8) && Pow2(11) == 2 * Pow2(10) && Pow2(13) == 2 * Pow2(12) && Pow2(15) == 2 * Pow2(14);
  }

  /** Any of the wanted bits is set. */
  predicate Any(bits: bv16, wanted: bv16) {
    bits & wanted != 0
  }

  /** The word with the bits of a number. */
  function Flags(v: u16): bv16 {
    v as bv16
  }

  lemma Nibble0(v: u16)
    ensures var w := Flags(v);
            && (Any(w, 0x0001) <==> v / 0x0001 % 2 == 1)
            && (Any(w, 0x0002) <==> v / 0x0002 % 2 == 1)
            && (Any(w, 0x0004) <==> v / 0x0004 % 2 == 1)
            && (Any(w, 0x0008) <==> v / 0x0008 % 2 == 1)
  {
  }

  lemma Nibble1(v: u16)
    ensures var w := Flags(v);
            && (Any(w, 0x0010) <==> v / 0x0010 % 2 == 1)
            && (Any(w, 0x0020) <==> v / 0x0020 % 2 == 1)
            && (Any(w, 0x0040) <==> v / 0x0040 % 2 == 1)
            && (Any(w, 0x0080) <==> v / 0x0080 % 2 == 1)
  {
  }

  lemma Nibble2(v: u16)
    ensures var w := Flags(v);
            && (Any(w, 0x0100) <==> v / 0x0100 % 2 == 1)
            && (Any(w, 0x0200) <==> v / 0x0200 % 2 == 1)
            && (Any(w, 0x0400) <==> v / 0x0400 % 2 == 1)
            && (Any(w, 0x0800) <==> v / 0x0800 % 2 == 1)
  {
  }

  lemma Nibble3(v: u16)
    ensures var w := Flags(v);
            && (Any(w, 0x1000) <==> v / 0x1000 % 2 == 1)
            && (Any(w, 0x2000) <==> v / 0x2000 % 2 == 1)
            && (Any(w, 0x4000) <==> v / 0x4000 % 2 == 1)
            && (Any(w, 0x8000) <==> v / 0x8000 % 2 == 1)
  {
  }

  lemma LowByteBits(v: u16)
    ensures (Any(Flags(v), 0x0001) <==> Bit(v, 0)) && (Any(Flags(v), 0x0002) <==> Bit(v, 1))
    ensures (Any(Flags(v), 0x0004) <==> Bit(v, 2)) && (Any(Flags(v), 0x0008) <==> Bit(v, 3))
    ensures (Any(Flags(v), 0x0010) <==> Bit(v, 4)) && (Any(Flags(v), 0x0020) <==> Bit(v, 5))
    ensures (Any(Flags(v), 0x0040) <==> Bit(v, 6)) && (Any(Flags(v), 0x0080) <==> Bit(v, 7))
  {
    Nibble0(v);
    Nibble1(v);
    LowPowers();
    hide Pow2, Any, Flags;
  }

  lemma HighByteBits(v: u16)
    ensures (Any(Flags(v), 0x0100) <==> Bit(v, 8)) && (Any(Flags(v), 0x0200) <==> Bit(v, 9))
    ensures (Any(Flags(v), 0x0400) <==> Bit(v, 10)) && (Any(Flags(v), 0x0800) <==> Bit(v, 11))
    ensures (Any(Flags(v), 0x1000) <==> Bit(v, 12)) && (Any(Flags(v), 0x2000) <==> Bit(v, 13))
    ensures (Any(Flags(v), 0x4000) <==> Bit(v, 14)) && (Any(Flags(v), 0x8000) <==> Bit(v, 15))
  {
    Nibble2(v);
    Nibble3(v);
    HighPowers();
    hide Pow2, Any, Flags;
  }

  /** The number that the bits of a word stand for. */
  function Word(bits: bv16): u16 {
    bits as int
  }

  lemma WordInverse(bits: bv16)
    ensures Flags(Word(bits)) == bits
  {
  }

  // ---- XOR

  function Xor(a: nat, b: nat): nat
    decreases a + b
  {
    if a == 0 && b == 0 then 0
    else (if a % 2 == b % 2 then 0 else 1) + 2 * Xor(a / 2, b / 2)
  }

  lemma {:induction false} XorSelf(a: nat)
    ensures Xor(a, a) == 0
  {
    if a > 0 {
      XorSelf(a / 2);
    }
  }

  lemma {:induction false} XorBound(a: nat, b: nat, n: nat)
    requires a < Pow2(n) && b < Pow2(n)
    ensures Xor(a, b) < Pow2(n)
    decreases n
  {
    if n > 0 {
      XorBound(a / 2, b / 2, n - 1);
    }
  }

  /** XOR with a fixed byte is injective, so the checksum changes with any single byte. */
  lemma {:induction false} XorInjective(a: nat, b: nat, c: nat)
    requires Xor(a, b) == Xor(a, c)
    ensures b == c
    decreases a + b + c
  {
    if a + b + c > 0 {
      XorInjective(a / 2, b / 2, c / 2);
    }
  }

  function XorByte(a: u8, b: u8): u8 {
    assert Pow2(8) == 256;
    XorBound(a, b, 8);
    Xor(a, b)
  }

  /** `fold(0, |checksum, byte| checksum ^ byte)` */
  function XorChecksum(bytes: seq<u8>): u8 {
    if bytes == [] then 0 else XorByte(XorChecksum(bytes[..|bytes| - 1]), bytes[|bytes| - 1])
  }

  // ---- The checksum, bit by bit

  /** How many of the bytes have bit `i` set. */
  function CountSet(bytes: seq<u8>, i: nat): nat {
    if bytes == [] then 0
    else CountSet(bytes[..|bytes| - 1], i) + if Bit(bytes[|bytes| - 1], i) then 1 else 0
  }

  lemma HalfBit(v: nat, i: nat)
    requires i > 0
    ensures Bit(v, i) <==> Bit(v / 2, i - 1)
  {
    assert v / Pow2(i) == v / 2 / Pow2(i - 1) by {
      HalfDivision(v, Pow2(i - 1));
    }
  }

  lemma HalfDivision(v: nat, p: nat)
    requires p > 0
    ensures v / (2 * p) == v / 2 / p
  {
    var q := v / 2 / p;
    assert q * p <= v / 2 < q * p + p;
    assert 2 * (q * p) <= v < 2 * (q * p) + 2 * p;
    QuotientIs(v, 2 * p, q);
  }

  lemma QuotientIs(v: nat, d: nat, q: nat)
    requires d > 0 && q * d <= v < q * d + d
    ensures v / d == q
  {
    assert v / d * d <= v < v / d * d + d;
    QuotientIsUnique(v / d, q, d, v);
  }

  lemma {:induction false} XorBit(a: nat, b: nat, i: nat)
    ensures Bit(Xor(a, b), i) <==> Bit(a, i) != Bit(b, i)
    decreases i
  {
    if i == 0 {
      assert Pow2(0) == 1;
    } else if a == 0 && b == 0 {
    } else {
      assert Xor(a, b) / 2 == Xor(a / 2, b / 2);
      XorBit(a / 2, b / 2, i - 1);
      HalfBit(Xor(a, b), i);
      HalfBit(a, i);
      HalfBit(b, i);
    }
  }

  /** Each bit of the checksum is the parity of the bytes that have the bit set. */
  lemma {:induction false} ChecksumIsParity(bytes: seq<u8>, i: nat)
    ensures Bit(XorChecksum(bytes), i) <==> CountSet(bytes, i) % 2 == 1
  {
    hide Bit, Xor;
    ZeroBit(i);
    if bytes != [] {
      var n := |bytes| - 1;
      ChecksumIsParity(bytes[..n], i);
      XorBit(XorChecksum(bytes[..n]), bytes[n], i);
    }
  }

  lemma ZeroBit(i: nat)
    ensures !Bit(0, i)
  {
    assert 0 / Pow2(i) == 0;
  }

  /** Bytes with the same bits are equal. */
  lemma SameBits(a: u8, b: u8)
    requires forall i | 0 <= i < 8 :: Bit(a, i) <==> Bit(b, i)
    ensures a == b
  {
    assert Pow2(8) == 0x100;
    BitsDecide(a, b, 8);
  }

  lemma {:induction false} BitsDecide(a: nat, b: nat, n: nat)
    requires a < Pow2(n) && b < Pow2(n)
    requires forall i | 0 <= i < n :: Bit(a, i) <==> Bit(b, i)
    ensures a == b
    decreases n
  {
    if n > 0 {
      assert Pow2(0) == 1;
      assert Bit(a, 0) <==> Bit(b, 0);
      forall i | 0 <= i < n - 1
        ensures Bit(a / 2, i) <==> Bit(b / 2, i)
      {
        HalfBit(a, i + 1);
        HalfBit(b, i + 1);
        assert Bit(a, i + 1) <==> Bit(b, i + 1);
      }
      BitsDecide(a / 2, b / 2, n - 1);
    }
  }

  /** Every bit is set in an even number of the bytes. */
  predicate EvenParity(bytes: seq<u8>) {
    forall i | 0 <= i < 8 :: CountSet(bytes, i) % 2 == 0
  }

  /** The checksum is zero exactly when every bit occurs an even number of times. */
  lemma ZeroIsEvenParity(bytes: seq<u8>)
    ensures XorChecksum(bytes) == 0 <==> EvenParity(bytes)
  {
    hide Bit, CountSet, XorChecksum;
    forall i | 0 <= i < 8
      ensures Bit(XorChecksum(bytes), i) <==> CountSet(bytes, i) % 2 != 0
      ensures !Bit(0, i)
    {
      ChecksumIsParity(bytes, i);
      ZeroBit(i);
    }
    if EvenParity(bytes) {
      SameBits(XorChecksum(bytes), 0);
    }
  }

  /** A byte string closed by its checksum has even parity in every bit, and no other last byte does that. */
  lemma ClosedIsEven(bytes: seq<u8>, last: u8)
    ensures EvenParity(bytes + [last]) <==> last == XorChecksum(bytes)
  {
    ZeroIsEvenParity(bytes + [last]);
    ChecksumCloses(bytes, last);
  }

  /** A byte string closed by its checksum XORs to zero, and no other last byte does that. */
  lemma ChecksumCloses(bytes: seq<u8>, last: u8)
    ensures XorChecksum(bytes + [last]) == 0 <==> last == XorChecksum(bytes)
  {
    var sum := XorChecksum(bytes);
    assert (bytes + [last])[..|bytes|] == bytes;
    XorSelf(sum);
    if Xor(sum, last) == 0 {
      XorInjective(sum, last, sum);
    }
  }
}
