/** lib/kernel/bitmap.c: a bitmap over a byte array, its first-fit scan and its in-place update. */
module Bitmaps {
  import opened Bytes

  const BITMAP_MASK: byte := 1

  predicate BitOf(b: byte, i: nat)
    requires i < 8
  {
    b & (BITMAP_MASK << i) != 0
  }

  /** Bit `k` of a bitmap whose bytes are `bits`. */
  predicate BitSet(bits: seq<byte>, k: nat)
    requires k < 8 * |bits|
  {
    BitOf(bits[k / 8], k % 8)
  }

  /** `cnt` consecutive clear bits starting at `start`. */
  predicate RunFree(bits: seq<byte>, start: nat, cnt: nat) {
    && start + cnt <= 8 * |bits|
    && forall k :: start <= k < start + cnt ==> !BitSet(bits, k)
  }

  ghost function FreeBits(bits: seq<byte>): (f: set<nat>)
    ensures forall k: nat :: k in f <==> k < 8 * |bits| && !BitSet(bits, k)
  {
    set k: nat | k < 8 * |bits| && !BitSet(bits, k)
  }

  lemma FullByte(b: byte)
    ensures b == 0xff <==> forall i: nat :: i < 8 ==> BitOf(b, i)
  {
    if forall i: nat :: i < 8 ==> BitOf(b, i) {
      assert BitOf(b, 0) && BitOf(b, 1) && BitOf(b, 2) && BitOf(b, 3);
      assert BitOf(b, 4) && BitOf(b, 5) && BitOf(b, 6) && BitOf(b, 7);
    }
  }

  function Masked(b: byte, i: nat, value: bool): byte
    requires i < 8
  {
    if value then b | (BITMAP_MASK << i) else b & !(BITMAP_MASK << i)
  }

  lemma MaskedByte(b: byte, i: nat, value: bool, j: nat)
    requires i < 8 && j < 8
    ensures BitOf(Masked(b, i, value), j) == if j == i then value else BitOf(b, j)
  {
    if value {
      OredByte(b, i, j);
    } else {
      ClearedByte(b, i, j);
    }
  }

  lemma OredByte(b: byte, i: nat, j: nat)
    requires i < 8 && j < 8
    ensures (b | (BITMAP_MASK << i)) & (BITMAP_MASK << j) != 0 <==> i == j || b & (BITMAP_MASK << j) != 0
  {
  }

  lemma ClearedByte(b: byte, i: nat, j: nat)
    requires i < 8 && j < 8
    ensures (b & !(BITMAP_MASK << i)) & (BITMAP_MASK << j) != 0 <==> i != j && b & (BITMAP_MASK << j) != 0
  {
  }

  /** What `bitmap_set` leaves behind, as a relation on the bytes. */
  ghost predicate BitUpdated(before: seq<byte>, after: seq<byte>, idx: nat, value: bool) {
    && |after| == |before|
    && idx < 8 * |before|
    && (forall k: nat :: k < 8 * |before| ==> BitSet(after, k) == if k == idx then value else BitSet(before, k))
    && (forall b :: 0 <= b < |before| && b != idx / 8 ==> after[b] == before[b])
  }

  lemma SameByte(a: byte, b: byte)
    requires forall i: nat :: i < 8 ==> BitOf(a, i) == BitOf(b, i)
    ensures a == b
  {
    assert BitOf(a, 0) == BitOf(b, 0) && BitOf(a, 1) == BitOf(b, 1) && BitOf(a, 2) == BitOf(b, 2) && BitOf(a, 3) == BitOf(b, 3);
    assert BitOf(a, 4) == BitOf(b, 4) && BitOf(a, 5) == BitOf(b, 5) && BitOf(a, 6) == BitOf(b, 6) && BitOf(a, 7) == BitOf(b, 7);
  }

  /** Setting a clear bit and clearing it again is nothing. */
  lemma BitRestored(b0: seq<byte>, b1: seq<byte>, b2: seq<byte>, idx: nat)
    requires BitUpdated(b0, b1, idx, true) && BitUpdated(b1, b2, idx, false) && !BitSet(b0, idx)
    ensures b2 == b0
  {
    var j := idx / 8;
    forall i: nat | i < 8
      ensures BitOf(b2[j], i) == BitOf(b0[j], i)
    {
      assert (8 * j + i) / 8 == j && (8 * j + i) % 8 == i;
      assert BitSet(b2, 8 * j + i) == BitSet(b0, 8 * j + i);
    }
    SameByte(b2[j], b0[j]);
  }

  lemma MaskedBits(bits: seq<byte>, idx: nat, value: bool)
    requires idx < 8 * |bits|
    ensures BitUpdated(bits, bits[idx / 8 := Masked(bits[idx / 8], idx % 8, value)], idx, value)
  {
    var after := bits[idx / 8 := Masked(bits[idx / 8], idx % 8, value)];
    forall k: nat | k < 8 * |bits|
      ensures BitSet(after, k) == if k == idx then value else BitSet(bits, k)
    {
      if k / 8 == idx / 8 {
        MaskedByte(bits[idx / 8], idx % 8, value, k % 8);
        assert k == idx <==> k % 8 == idx % 8;
      }
    }
  }

  lemma BitIs(b: byte, i: nat)
    requires i < 8
    ensures BitOf(b, i) <==> b & (BITMAP_MASK << i) != 0
  {
  }

  /** The bits of one byte by their numbers. */
  lemma BitsOfByte(bits: seq<byte>, b: nat)
    requires b < |bits|
    ensures forall i: nat :: i < 8 ==> BitSet(bits, b * 8 + i) == BitOf(bits[b], i)
    ensures forall k: nat :: b * 8 <= k < b * 8 + 8 ==> BitSet(bits, k) == BitOf(bits[b], k - b * 8)
  {
    hide BitOf;
    forall k: nat | b * 8 <= k < b * 8 + 8
      ensures BitSet(bits, k) == BitOf(bits[b], k - b * 8)
    {
      assert k / 8 == b && k % 8 == k - b * 8;
    }
  }

  /** A byte holding only ones before a byte that does not. */
  lemma FullPrefix(bits: seq<byte>, n: nat)
    requires n <= |bits|
    requires forall b :: 0 <= b < n ==> bits[b] == 0xff
    ensures forall k: nat :: k < 8 * n ==> BitSet(bits, k)
  {
    forall k: nat | k < 8 * n
      ensures BitSet(bits, k)
    {
      FullByte(bits[k / 8]);
    }
  }

  lemma NoRunThrough(bits: seq<byte>, from: nat, to: nat, cnt: nat)
    requires cnt >= 1 && to <= 8 * |bits|
    requires forall k: nat :: from <= k < to ==> BitSet(bits, k)
    ensures forall s: nat :: from <= s < to ==> !RunFree(bits, s, cnt)
  {
    forall s: nat | from <= s < to
      ensures !RunFree(bits, s, cnt)
    {
      assert BitSet(bits, s);
    }
  }

  lemma NoRunAcross(bits: seq<byte>, from: nat, at: nat, cnt: nat)
    requires from <= at < from + cnt && at < 8 * |bits| && BitSet(bits, at)
    ensures forall s: nat :: from <= s <= at ==> !RunFree(bits, s, cnt)
  {
  }

  ghost predicate Full(bits: seq<byte>) {
    forall k: nat :: k < 8 * |bits| ==> BitSet(bits, k)
  }

  lemma FullIsNone(bits: seq<byte>)
    ensures Full(bits) <==> FreeBits(bits) == {}
  {
    if Full(bits) {
      assert forall k: nat :: k !in FreeBits(bits);
    } else {
      var k: nat :| k < 8 * |bits| && !BitSet(bits, k);
      assert k in FreeBits(bits);
    }
  }

  /** A clear bit is a run of one. */
  lemma OneIsRun(bits: seq<byte>)
    ensures Full(bits) <==> forall s: nat :: !RunFree(bits, s, 1)
  {
    if exists s: nat :: RunFree(bits, s, 1) {
      var s: nat :| RunFree(bits, s, 1);
      assert !BitSet(bits, s);
    }
    if !Full(bits) {
      var k: nat :| k < 8 * |bits| && !BitSet(bits, k);
      assert RunFree(bits, k, 1);
    }
  }

  datatype ScanResult = ScanHalted | NoStart | StartAt(start: nat)

  class Bitmap {
    const bits: array<byte>

    constructor (len: nat)
      ensures fresh(bits) && bits[..] == Copies<byte>(0, len)
    {
      bits := new byte[len](_ => 0);
    }

    /** A bitmap whose bytes were read from elsewhere. */
    constructor Load(bytes: seq<byte>)
      ensures fresh(bits) && bits[..] == bytes
    {
      bits := new byte[|bytes|](i requires 0 <= i < |bytes| => bytes[i]);
    }

    function ScanTest(bitIdx: nat): (r: bool)
      requires bitIdx < 8 * bits.Length
      reads this, bits
      ensures r == BitSet(bits[..], bitIdx)
    {
      bits[bitIdx / 8] & (BITMAP_MASK << (bitIdx % 8)) != 0
    }

    /** The first loop of `bitmap_scan`, to the first byte with a clear bit. The source reads a byte before it compares the index
        with the length; behind the last byte the comparison ends the loop whatever it has read there. */
    method FirstByte() returns (idxByte: nat)
      ensures idxByte <= bits.Length && forall b :: 0 <= b < idxByte ==> bits[b] == 0xff
      ensures idxByte < bits.Length ==> bits[idxByte] != 0xff
    {
      idxByte := 0;
      while idxByte < bits.Length && bits[idxByte] == 0xff
        invariant 0 <= idxByte <= bits.Length && forall b :: 0 <= b < idxByte ==> bits[b] == 0xff
      {
        idxByte := idxByte + 1;
      }
    }

    /** The second one, over the bits of that byte. */
    method FirstBit(idxByte: nat) returns (idxBit: nat)
      requires idxByte < bits.Length && bits[idxByte] != 0xff
      ensures idxBit < 8 && !BitOf(bits[idxByte], idxBit) && forall i: nat :: i < idxBit ==> BitOf(bits[idxByte], i)
    {
      FullByte(bits[idxByte]);
      ghost var hole: nat :| hole < 8 && !BitOf(bits[idxByte], hole);
      idxBit := 0;
      while bits[idxByte] & (BITMAP_MASK << idxBit) != 0
        invariant 0 <= idxBit <= hole && forall i: nat :: i < idxBit ==> BitOf(bits[idxByte], i)
        decreases hole - idxBit
      {
        BitIs(bits[idxByte], idxBit);
        hide BitOf;
        idxBit := idxBit + 1;
      }
      BitIs(bits[idxByte], idxBit);
    }

    /** The opening loops of `bitmap_scan`: the first clear bit, or the end of the bitmap. */
    method FirstClear() returns (first: nat)
      ensures first <= 8 * bits.Length && forall k: nat :: k < first ==> BitSet(bits[..], k)
      ensures first < 8 * bits.Length ==> !BitSet(bits[..], first)
    {
      hide *;
      var idxByte := FirstByte();
      FullPrefix(bits[..], idxByte);
      if idxByte == bits.Length {
        return 8 * idxByte;
      }
      var idxBit := FirstBit(idxByte);
      first := idxByte * 8 + idxBit;
      BitsOfByte(bits[..], idxByte);
    }

    /** `bitmap_scan`, first fit: the lowest run of `cnt` clear bits. Without one it returns -1, `NoStart`, but if not a single
        bit is clear its assertion stops the kernel before that. */
    method Scan(cnt: nat) returns (r: ScanResult)
      requires cnt >= 1
      ensures r.ScanHalted? <==> Full(bits[..])
      ensures r.NoStart? <==> !Full(bits[..]) && forall s: nat :: !RunFree(bits[..], s, cnt)
      ensures r.StartAt? ==> RunFree(bits[..], r.start, cnt) && forall s: nat :: s < r.start ==> !RunFree(bits[..], s, cnt)
    {
      ghost var view := bits[..];
      var bitIdxStart := FirstClear();
      NoRunThrough(view, 0, bitIdxStart, cnt);
      if bitIdxStart == 8 * bits.Length {
        return ScanHalted;
      }
      assert !BitSet(view, bitIdxStart);
      if cnt == 1 {
        assert RunFree(view, bitIdxStart, cnt);
        return StartAt(bitIdxStart);
      }
      var bitLeft := bits.Length * 8 - bitIdxStart - 1;
      var nextBit := bitIdxStart + 1;
      var count := 1;
      while bitLeft > 0
        invariant 0 <= bitLeft && nextBit + bitLeft == 8 * |view|
        invariant 0 <= count < cnt && count <= nextBit
        invariant forall k :: nextBit - count <= k < nextBit ==> !BitSet(view, k)
        invariant forall s: nat :: s < nextBit - count ==> !RunFree(view, s, cnt)
      {
        bitLeft := bitLeft - 1;
        var used := ScanTest(nextBit);
        if !used {
          count := count + 1;
        } else {
          NoRunAcross(view, nextBit - count, nextBit, cnt);
          count := 0;
        }
        if count == cnt {
          bitIdxStart := nextBit - cnt + 1;
          assert RunFree(view, bitIdxStart, cnt);
          return StartAt(bitIdxStart);
        }
        nextBit := nextBit + 1;
      }
      return NoStart;
    }

    method Set(bitIdx: nat, value: bool)
      requires bitIdx < 8 * bits.Length
      modifies bits
      ensures BitUpdated(old(bits[..]), bits[..], bitIdx, value)
    {
      var byteIdx := bitIdx / 8;
      var bitOdd := bitIdx % 8;
      MaskedBits(bits[..], bitIdx, value);
      if value {
        bits[byteIdx] := bits[byteIdx] | (BITMAP_MASK << bitOdd);
      } else {
        bits[byteIdx] := bits[byteIdx] & !(BITMAP_MASK << bitOdd);
      }
      assert bits[..] == old(bits[..])[byteIdx := Masked(old(bits[byteIdx]), bitOdd, value)];
    }
  }
}
