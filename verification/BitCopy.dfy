/**
 Copying a run of bits between two byte buffers at any bit offsets.
 */
module BitCopy {
  import opened Bits

  /** Bit `k` of a buffer, counting from the lowest bit of the first byte. */
  function BitOf(data: seq<bv8>, k: nat): bool
    requires k < 8 * |data|
  {
    Bit(data[k / 8], k % 8)
  }

  /** The value of a bit that a copy puts at position `k` of its destination: the
      source's bit, or zero past the end of the source. */
  function Source(src: seq<bv8>, from: nat, length: nat, k: nat): bool
    requires from + length <= 8 * |src|
  {
    k < length && BitOf(src, from + k)
  }

  /** `after` is `before` with `count` bits from `at` replaced by those of the source. */
  ghost predicate Copied(before: seq<bv8>, after: seq<bv8>, at: nat, count: nat, src: seq<bv8>, from: nat, length: nat)
    requires from + length <= 8 * |src|
  {
    && |after| == |before|
    && forall k {:trigger BitOf(after, k)} :: 0 <= k < 8 * |after| ==>
      BitOf(after, k) == if at <= k < at + count then Source(src, from, length, k - at) else BitOf(before, k)
  }

  // -- Eight bits at a time -------------------------------------------------------

  /** Up to eight source bits, gathered from one or two bytes. */
  function Fetch(src: seq<bv8>, p: nat, shift: nat, count: nat): bv8
    requires shift < 8 && 0 < count && 8 * p + shift + count <= 8 * |src|
  {
    var first := Shr(src[p], shift);
    var both := if shift != 0 && count > 8 - shift then Or(first, Shl(src[p+1], 8 - shift)) else first;
    if count < 8 then And(both, Low(count)) else both
  }

  lemma At(data: seq<bv8>, p: nat, r: nat)
    requires p < |data| && r < 8
    ensures BitOf(data, 8 * p + r) == Bit(data[p], r)
  {
    assert (8 * p + r) / 8 == p && (8 * p + r) % 8 == r;
  }

  lemma FetchBit(src: seq<bv8>, p: nat, shift: nat, count: nat, j: nat)
    requires shift < 8 && 0 < count && 8 * p + shift + count <= 8 * |src| && j < 8
    ensures Bit(Fetch(src, p, shift, count), j) <==> j < count && BitOf(src, 8 * p + shift + j)
  {
    hide Bit, Shl, Shr, Low, And, Or, BitOf;
    var first := Shr(src[p], shift);
    var both := first;
    ShrBit(src[p], shift, j);
    OnlyEightBits(src[p], j + shift);
    if j + shift < 8 { At(src, p, j + shift); } else if j < count { At(src, p + 1, j + shift - 8); }
    if shift != 0 && count > 8 - shift {
      ShlBit(src[p+1], 8 - shift, j);
      both := Or(first, Shl(src[p+1], 8 - shift));
      OrBit(first, Shl(src[p+1], 8 - shift), j);
    }
    AndBit(both, Low(count), j);
    LowBit(count, j);
  }

  function StoreLow(d: bv8, bits: bv8, shift: nat, n: nat): bv8
    requires shift < 8
  {
    Merge(d, Shl(bits, shift), Shl(Low(n), shift))
  }

  function StoreHigh(d: bv8, bits: bv8, shift: nat, n: nat): bv8
    requires 0 < shift < 8
  {
    Merge(d, Shr(bits, 8 - shift), Shr(Low(n), 8 - shift))
  }

  lemma StoreBit(d: bv8, bits: bv8, shift: nat, n: nat, i: nat)
    requires shift < 8 && n <= 8 && i < 8
    ensures Bit(StoreLow(d, bits, shift, n), i) == if shift <= i < shift + n then Bit(bits, i - shift) else Bit(d, i)
    ensures shift > 0 ==>
      Bit(StoreHigh(d, bits, shift, n), i) == if i + 8 < shift + n then Bit(bits, i + 8 - shift) else Bit(d, i)
  {
    hide Bit, Shl, Shr, Low, Merge;
    ShlBit(bits, shift, i);
    ShlBit(Low(n), shift, i);
    if shift <= i { LowBit(n, i - shift); }
    MergeBit(d, Shl(bits, shift), Shl(Low(n), shift), i);
    if shift > 0 {
      ShrBit(bits, 8 - shift, i);
      ShrBit(Low(n), 8 - shift, i);
      LowBit(n, i + 8 - shift);
      MergeBit(d, Shr(bits, 8 - shift), Shr(Low(n), 8 - shift), i);
    }
  }

  /** Up to eight bits put into one or two destination bytes. */
  function Store(dst: seq<bv8>, p: nat, shift: nat, count: nat, bits: bv8): (r: seq<bv8>)
    requires shift < 8 && 0 < count && 8 * p + shift + count <= 8 * |dst|
    ensures |r| == |dst|
  {
    var n := if count < 8 then count else 8;
    var first := dst[p := StoreLow(dst[p], bits, shift, n)];
    if shift != 0 && count > 8 - shift then first[p + 1 := StoreHigh(dst[p+1], bits, shift, n)] else first
  }

  lemma StoreAt(dst: seq<bv8>, p: nat, shift: nat, count: nat, bits: bv8, k: nat)
    requires shift < 8 && 0 < count && 8 * p + shift + count <= 8 * |dst| && k < 8 * |dst|
    ensures var n, at := if count < 8 then count else 8, 8 * p + shift;
      BitOf(Store(dst, p, shift, count, bits), k) == if at <= k < at + n then Bit(bits, k - at) else BitOf(dst, k)
  {
    hide Bit, StoreLow, StoreHigh;
    var n := if count < 8 then count else 8;
    if k / 8 == p || k / 8 == p + 1 { StoreBit(dst[k/8], bits, shift, n, k % 8); }
  }

  /** A byte that holds the source's bits from position `t` on. */
  ghost predicate Holds(bits: bv8, src: seq<bv8>, from: nat, length: nat, t: nat)
    requires from + length <= 8 * |src|
  {
    forall j :: 0 <= j < 8 ==> Bit(bits, j) == Source(src, from, length, t + j)
  }

  lemma StepCopied(before: seq<bv8>, dst: seq<bv8>, at: nat, t: nat, p: nat, shift: nat, left: nat, bits: bv8,
                   src: seq<bv8>, from: nat, length: nat)
    requires from + length <= 8 * |src| && Copied(before, dst, at, t, src, from, length) && Holds(bits, src, from, length, t)
    requires shift < 8 && 0 < left && 8 * p + shift == at + t && at + t + left <= 8 * |dst|
    ensures Copied(before, Store(dst, p, shift, left, bits), at, t + if left < 8 then left else 8, src, from, length)
  {
    hide Bit, Store, BitOf;
    var after := Store(dst, p, shift, left, bits);
    forall k | 0 <= k < 8 * |after|
      ensures BitOf(after, k) == if at <= k < at + t + (if left < 8 then left else 8) then Source(src, from, length, k - at) else BitOf(before, k)
    {
      StoreAt(dst, p, shift, left, bits, k);
      assert BitOf(dst, k) == if at <= k < at + t then Source(src, from, length, k - at) else BitOf(before, k);
    }
  }

  lemma FetchHolds(src: seq<bv8>, from: nat, length: nat, p: nat, t: nat)
    requires from + length <= 8 * |src| && t < length && 8 * p + from % 8 == from + t
    ensures Holds(Fetch(src, p, from % 8, length - t), src, from, length, t)
  {
    hide Bit, Fetch, BitOf;
    var bits := Fetch(src, p, from % 8, length - t);
    forall j | 0 <= j < 8 ensures Bit(bits, j) == Source(src, from, length, t + j) {
      FetchBit(src, p, from % 8, length - t, j);
    }
  }

  lemma ZeroHolds(src: seq<bv8>, from: nat, length: nat, t: nat)
    requires from + length <= 8 * |src| && t >= length
    ensures Holds(0, src, from, length, t)
  {}

  lemma NothingCopied(dst: seq<bv8>, at: nat, src: seq<bv8>, from: nat, length: nat)
    requires from + length <= 8 * |src|
    ensures Copied(dst, dst, at, 0, src, from, length)
  {}

  /** Copies `length` bits; a destination longer than the source is filled with zeroes. */
  method CopyBits(dst: array<bv8>, at: nat, count: nat, src: array<bv8>, from: nat, length: nat)
    requires dst != src && at + count <= 8 * dst.Length && from + length <= 8 * src.Length
    modifies dst
    ensures Copied(old(dst[..]), dst[..], at, count, src[..], from, length)
  {
    hide Bit, Shl, Shr, Or, And, Low, StoreLow, StoreHigh, Copied, Holds;
    var dstPtr, srcPtr := at / 8, from / 8;
    var dstCount, dstShift := count, at % 8;
    var srcCount, srcShift := length, from % 8;
    ghost var t, original := 0, src[..];
    NothingCopied(dst[..], at, src[..], from, length);
    while dstCount != 0
      invariant src[..] == original
      invariant dstCount == (if t < count then count - t else 0) && srcCount == (if t < length then length - t else 0)
      invariant t % 8 == 0 && dstPtr == at / 8 + t / 8 && (srcCount > 0 ==> srcPtr == from / 8 + t / 8)
      invariant Copied(old(dst[..]), dst[..], at, if t < count then t else count, src[..], from, length)
    {
      var bits: bv8 := 0;
      if srcCount != 0 {
        FetchHolds(src[..], from, length, srcPtr, t);
        bits := Shr(src[srcPtr], srcShift);
        if srcShift != 0 && srcCount > 8 - srcShift {
          bits := Or(bits, Shl(src[srcPtr + 1], 8 - srcShift));
        }
        if srcCount < 8 {
          bits := And(bits, Low(srcCount));
          srcCount := 0;
        } else {
          srcCount := srcCount - 8;
          srcPtr := srcPtr + 1;
        }
      } else {
        ZeroHolds(src[..], from, length, t);
      }
      StepCopied(old(dst[..]), dst[..], at, t, dstPtr, dstShift, dstCount, bits, src[..], from, length);
      ghost var stored := Store(dst[..], dstPtr, dstShift, dstCount, bits);

      var n := if dstCount < 8 then dstCount else 8;
      dst[dstPtr] := StoreLow(dst[dstPtr], bits, dstShift, n);
      if dstShift != 0 && dstCount > 8 - dstShift {
        dst[dstPtr + 1] := StoreHigh(dst[dstPtr + 1], bits, dstShift, n);
      }
      assert dst[..] == stored;
      dstCount := if dstCount > 8 then dstCount - 8 else 0;
      dstPtr := dstPtr + 1;
      t := t + 8;
    }
  }
}
