/** Unaligned fields packed least significant bit first (BitWriter, src/payload.rs:372-402), and the
    reader that recovers them. */
module BitPacking {
  import opened Prelude
  import opened Bits

  // ---- Fields

  function Total(widths: seq<nat>): nat {
    if widths == [] then 0 else Total(widths[..|widths| - 1]) + widths[|widths| - 1]
  }

  /** Every value fits the width of its field. */
  predicate Fits(values: seq<u32>, widths: seq<nat>)
    requires |values| == |widths|
  {
    forall i | 0 <= i < |widths| :: values[i] < Pow2(widths[i])
  }

  function Pack(values: seq<u32>, widths: seq<nat>): (bits: seq<bool>)
    requires |values| == |widths|
    ensures |bits| == Total(widths)
  {
    if widths == [] then []
    else
      var n := |widths| - 1;
      Pack(values[..n], widths[..n]) + ToBits(values[n], widths[n])
  }

  /** The values of consecutive fields. */
  function Read(bits: seq<bool>, widths: seq<nat>): (values: seq<nat>)
    requires Total(widths) <= |bits|
    ensures |values| == |widths|
  {
    if widths == [] then []
    else
      var n := |widths| - 1;
      Read(bits, widths[..n]) + [FromBits(bits[Total(widths[..n])..Total(widths)])]
  }

  lemma MiddleSlice<T>(front: seq<T>, middle: seq<T>, rest: seq<T>)
    ensures front + middle + rest == front + (middle + rest)
    ensures (front + middle + rest)[|front|..|front| + |middle|] == middle
  {
  }

  /** Reading inverts packing, whatever follows the fields. */
  lemma {:induction false} ReadPack(values: seq<u32>, widths: seq<nat>, rest: seq<bool>)
    requires |values| == |widths| && Fits(values, widths)
    ensures Read(Pack(values, widths) + rest, widths) == values
  {
    if widths != [] {
      var n := |widths| - 1;
      assert Fits(values[..n], widths[..n]) && values[n] < Pow2(widths[n]);
      hide Fits, ToBits, FromBits, Pow2;
      var front, last := Pack(values[..n], widths[..n]), ToBits(values[n], widths[n]);
      FromToBits(values[n], widths[n]);
      ReadPack(values[..n], widths[..n], last + rest);
      MiddleSlice(front, last, rest);
      assert Pack(values, widths) == front + last;
      assert Total(widths) == |front| + |last|;
      hide Pack, Total;
      assert values == values[..n] + [values[n]];
    }
  }

  /** The bit offsets of the fields add up their widths. */
  lemma {:induction false} OffsetsEndAtTotal(widths: seq<nat>, offsets: seq<nat>)
    requires |offsets| == |widths| + 1 && offsets[0] == 0
    requires forall i | 0 <= i < |widths| :: offsets[i + 1] == offsets[i] + widths[i]
    ensures Total(widths) == offsets[|widths|]
  {
    if widths != [] {
      var n := |widths| - 1;
      OffsetsEndAtTotal(widths[..n], offsets[..n + 1]);
    }
  }

  lemma {:induction false} TotalGrows(widths: seq<nat>, n: nat)
    requires n <= |widths|
    ensures Total(widths[..n]) <= Total(widths)
    decreases |widths| - n
  {
    if n < |widths| {
      TotalGrows(widths, n + 1);
      assert widths[..n + 1][..n] == widths[..n];
    } else {
      assert widths[..n] == widths;
    }
  }

  lemma PackPrefix(values: seq<u32>, widths: seq<nat>, n: nat)
    requires |values| == |widths| && n <= |values|
    ensures Pack(values[..n], widths[..n]) ==
            if n == 0 then [] else Pack(values[..n - 1], widths[..n - 1]) + ToBits(values[n - 1], widths[n - 1])
    ensures Total(widths[..n]) == if n == 0 then 0 else Total(widths[..n - 1]) + widths[n - 1]
  {
    if n > 0 {
      assert values[..n][..n - 1] == values[..n - 1] && widths[..n][..n - 1] == widths[..n - 1];
    }
  }

  // ---- Bytes

  function BitsOf(bytes: seq<u8>): (bits: seq<bool>)
    ensures |bits| == 8 * |bytes|
  {
    seq(8 * |bytes|, i requires 0 <= i < 8 * |bytes| => ToBits(bytes[i / 8], 8)[i % 8])
  }

  function ByteOf(bits: seq<bool>): u8
    requires |bits| == 8
  {
    assert Pow2(8) == 0x100;
    FromBits(bits)
  }

  function BytesOf(bits: seq<bool>): (bytes: seq<u8>)
    requires |bits| % 8 == 0
    ensures |bytes| == |bits| / 8
  {
    seq(|bits| / 8, i requires 0 <= i < |bits| / 8 => ByteOf(bits[8 * i..8 * i + 8]))
  }

  lemma ByteBits(bytes: seq<u8>, i: nat)
    requires i < |bytes|
    ensures BitsOf(bytes)[8 * i..8 * i + 8] == ToBits(bytes[i], 8)
  {
    hide ToBits;
    forall k | 0 <= k < 8
      ensures BitsOf(bytes)[8 * i + k] == ToBits(bytes[i], 8)[k]
    {
      assert (8 * i + k) / 8 == i && (8 * i + k) % 8 == k;
    }
  }

  lemma ByteAt(bits: seq<bool>, i: nat)
    requires |bits| % 8 == 0 && i < |bits| / 8
    ensures BytesOf(bits)[i] == ByteOf(bits[8 * i..8 * i + 8])
  {
    hide ByteOf;
  }

  lemma BitOfByte(bits: seq<bool>, k: nat)
    requires |bits| % 8 == 0 && k < |bits|
    ensures BitsOf(BytesOf(bits))[k] == bits[k]
  {
    hide ToBits, FromBits, BytesOf;
    var slice := bits[8 * (k / 8)..8 * (k / 8) + 8];
    ByteAt(bits, k / 8);
    ToFromBits(slice);
    assert slice[k % 8] == bits[k];
  }

  lemma BytesInverse(bits: seq<bool>)
    requires |bits| % 8 == 0
    ensures BitsOf(BytesOf(bits)) == bits
  {
    hide BitsOf, BytesOf;
    forall k | 0 <= k < |bits|
      ensures BitsOf(BytesOf(bits))[k] == bits[k]
    {
      BitOfByte(bits, k);
    }
  }

  lemma ByteInverse(byte: u8)
    ensures ByteOf(ToBits(byte, 8)) == byte
  {
    assert Pow2(8) == 0x100;
    hide Pow2, ToBits, FromBits;
    FromToBits(byte, 8);
  }

  lemma ByteOfBits(bytes: seq<u8>, i: nat)
    requires i < |bytes|
    ensures BytesOf(BitsOf(bytes))[i] == bytes[i]
  {
    hide ToBits, ByteOf, BitsOf, BytesOf;
    ByteBits(bytes, i);
    ByteAt(BitsOf(bytes), i);
    ByteInverse(bytes[i]);
  }

  lemma BitsInverse(bytes: seq<u8>)
    ensures BytesOf(BitsOf(bytes)) == bytes
  {
    hide BitsOf, BytesOf;
    forall i | 0 <= i < |bytes|
      ensures BytesOf(BitsOf(bytes))[i] == bytes[i]
    {
      ByteOfBits(bytes, i);
    }
  }

  function Falses(n: nat): (bits: seq<bool>)
    ensures |bits| == n && forall i | 0 <= i < n :: !bits[i]
  {
    seq(n, _ => false)
  }

  /** Zero bits up to the next byte boundary: `div_ceil(8)` bytes. */
  function Padded(bits: seq<bool>): (padded: seq<bool>)
    ensures |padded| % 8 == 0 && |padded| / 8 == (|bits| + 7) / 8
  {
    bits + Falses((8 - |bits| % 8) % 8)
  }

  // ---- One bit

  /** `byte | 1 << bit` */
  function SetBit(byte: u8, bit: nat): u8
    requires bit < 8
  {
    ByteOf(ToBits(byte, 8)[bit := true])
  }

  function ShiftRight(value: nat, n: nat): nat {
    if n == 0 then value else ShiftRight(value / 2, n - 1)
  }

  /** `value & (1 << bit) != 0` */
  predicate BitSet(value: nat, bit: nat) {
    ShiftRight(value, bit) % 2 == 1
  }

  lemma {:induction false} BitAt(value: nat, n: nat, bit: nat)
    requires bit < n
    ensures ToBits(value, n)[bit] <==> BitSet(value, bit)
  {
    if bit > 0 {
      BitAt(value / 2, n - 1, bit - 1);
    }
  }

  lemma SetBitSets(bytes: seq<u8>, k: nat)
    requires k < 8 * |bytes|
    ensures BitsOf(bytes[k / 8 := SetBit(bytes[k / 8], k % 8)]) == BitsOf(bytes)[k := true]
  {
    var byte := ToBits(bytes[k / 8], 8)[k % 8 := true];
    ToFromBits(byte);
    var after := bytes[k / 8 := SetBit(bytes[k / 8], k % 8)];
    forall i | 0 <= i < 8 * |bytes|
      ensures BitsOf(after)[i] == BitsOf(bytes)[k := true][i]
    {
    }
  }

  lemma FullWord()
    ensures Pow2(32) == U32_LIMIT
  {
    assert Pow2(8) == 0x100;
    assert Pow2(16) == 0x1_0000;
    assert Pow2(24) == 0x100_0000;
  }

  // ---- The writer

  /** The first `n` bits of a field written over what was there. */
  function Overlay(before: seq<bool>, offset: nat, field: seq<bool>, n: nat): (bits: seq<bool>)
    requires n <= |field| && offset + |field| <= |before|
    ensures |bits| == |before|
  {
    before[..offset] + field[..n] + before[offset + n..]
  }

  lemma OverlayStep(before: seq<bool>, offset: nat, field: seq<bool>, n: nat)
    requires n < |field| && offset + |field| <= |before|
    ensures field[n] ==> Overlay(before, offset, field, n)[offset + n := true] == Overlay(before, offset, field, n + 1)
    ensures !field[n] && !before[offset + n] ==>
              Overlay(before, offset, field, n) == Overlay(before, offset, field, n + 1)
  {
    assert field[..n + 1] == field[..n] + [field[n]];
    assert before[offset + n..] == [before[offset + n]] + before[offset + n + 1..];
  }

  lemma OverlayEnds(written: seq<bool>, field: seq<bool>, capacity: nat)
    requires |written| + |field| <= capacity
    ensures var before := written + Falses(capacity - |written|);
            && Overlay(before, |written|, field, 0) == before
            && Overlay(before, |written|, field, |field|) == written + field + Falses(capacity - |written| - |field|)
  {
  }

  class BitWriter {
    const bytes: array<u8>
    var bitOffset: nat
    ghost var written: seq<bool> // every bit written so far

    ghost predicate Valid()
      reads this, bytes
    {
      && bitOffset == |written| <= 8 * bytes.Length
      && BitsOf(bytes[..]) == written + Falses(8 * bytes.Length - |written|)
    }

    constructor (length: nat)
      ensures Valid() && written == [] && fresh(bytes) && bytes.Length == length
    {
      bytes := new u8[length](_ => 0);
      bitOffset := 0;
      written := [];
      new;
      ZeroBytes(bytes[..]);
    }

    method Write(value: u32, bitCount: u8) returns (ok: bool)
      requires Valid()
      modifies this, bytes
      ensures Valid()
      ensures ok <==> bitCount <= 32 && old(bitOffset) + bitCount <= 8 * bytes.Length && value < Pow2(bitCount)
      ensures written == if ok then old(written) + ToBits(value, bitCount) else old(written)
    {
      hide Pow2, ToBits, BitsOf, Overlay, Falses;
      FullWord();
      if bitCount > 32 || bitOffset + bitCount > 8 * bytes.Length || (bitCount < 32 && value >= Pow2(bitCount)) {
        return false;
      }
      OverlayEnds(written, ToBits(value, bitCount), 8 * bytes.Length);
      SetBits(value, bitCount);
      written := written + ToBits(value, bitCount);
      bitOffset := bitOffset + bitCount;
      ok := true;
    }

    method RaiseBit(destination: nat)
      requires destination < 8 * bytes.Length
      modifies bytes
      ensures BitsOf(bytes[..]) == old(BitsOf(bytes[..]))[destination := true]
    {
      hide BitsOf, SetBit;
      SetBitSets(bytes[..], destination);
      ghost var before := bytes[..];
      bytes[destination / 8] := SetBit(bytes[destination / 8], destination % 8);
      assert bytes[..] == before[destination / 8 := bytes[destination / 8]];
    }

    /** Lines 389-394: the loop over the bits of the value. */
    method SetBits(value: u32, bitCount: u8)
      requires bitOffset + bitCount <= 8 * bytes.Length
      requires forall i | bitOffset <= i < 8 * bytes.Length :: !BitsOf(bytes[..])[i]
      modifies bytes
      ensures BitsOf(bytes[..]) == Overlay(old(BitsOf(bytes[..])), bitOffset, ToBits(value, bitCount), bitCount)
    {
      ghost var before, field := BitsOf(bytes[..]), ToBits(value, bitCount);
      assert Overlay(before, bitOffset, field, 0) == before;
      hide ToBits, BitsOf, Overlay, BitSet;
      for bit := 0 to bitCount
        invariant BitsOf(bytes[..]) == Overlay(before, bitOffset, field, bit)
      {
        BitAt(value, bitCount, bit);
        OverlayStep(before, bitOffset, field, bit);
        if BitSet(value, bit) {
          RaiseBit(bitOffset + bit);
        }
      }
    }

    /** One of several consecutive writes. */
    method WriteField(values: seq<u32>, widths: seq<nat>, i: nat) returns (ok: bool)
      requires Valid() && i < |values| == |widths| && Total(widths) <= 8 * bytes.Length && widths[i] <= 32
      requires written == Pack(values[..i], widths[..i])
      modifies this, bytes
      ensures Valid() && (ok <==> values[i] < Pow2(widths[i]))
      ensures ok ==> written == Pack(values[..i + 1], widths[..i + 1])
    {
      hide Pack, Total, Pow2, ToBits, Falses, BitsOf;
      TotalGrows(widths, i + 1);
      PackPrefix(values, widths, i + 1);
      ok := Write(values[i], widths[i]);
    }

    /** Consecutive writes, up to the first that does not fit. */
    method WriteFields(values: seq<u32>, widths: seq<nat>) returns (ok: bool)
      requires Valid() && written == [] && |values| == |widths| && Total(widths) <= 8 * bytes.Length
      requires forall i | 0 <= i < |widths| :: widths[i] <= 32
      modifies this, bytes
      ensures Valid() && (ok <==> Fits(values, widths))
      ensures ok ==> written == Pack(values, widths)
    {
      hide Valid, Pack, Total, Pow2;
      PackPrefix(values, widths, 0);
      for i := 0 to |values|
        invariant Valid() && written == Pack(values[..i], widths[..i])
        invariant forall k | 0 <= k < i :: values[k] < Pow2(widths[k])
      {
        ok := WriteField(values, widths, i);
        if !ok {
          return;
        }
      }
      assert values[..|values|] == values && widths[..|widths|] == widths;
      ok := true;
    }

    method ByteLength() returns (n: nat)
      requires Valid()
      ensures n <= bytes.Length && bytes[..n] == BytesOf(Padded(written))
    {
      n := (bitOffset + 7) / 8;
      assert BitsOf(bytes[..n]) == BitsOf(bytes[..])[..8 * n] == Padded(written);
      BitsInverse(bytes[..n]);
    }
  }

  lemma {:induction false} ZeroBits(n: nat)
    ensures ToBits(0, n) == Falses(n)
  {
    if n > 0 {
      ZeroBits(n - 1);
    }
  }

  lemma ZeroBytes(bytes: seq<u8>)
    requires forall i | 0 <= i < |bytes| :: bytes[i] == 0
    ensures BitsOf(bytes) == Falses(8 * |bytes|)
  {
    ZeroBits(8);
  }
}
