/**
 Reading and writing a run of bits inside an AML buffer.  The byte-aligned paths
 copy whole bytes and patch the last one; the others go through the bit copy.
 */
module BufferField {
  import opened Bits
  import opened BitCopy

  function RoundUp(bits: nat): nat { (bits + 7) / 8 }

  method MemCpy(dst: array<bv8>, at: nat, src: array<bv8>, from: nat, count: nat)
    requires dst != src && at + count <= dst.Length && from + count <= src.Length
    modifies dst
    ensures forall i :: 0 <= i < dst.Length ==> dst[i] == if at <= i < at + count then src[from + i - at] else old(dst[i])
  {
    for n := 0 to count
      invariant forall i :: 0 <= i < dst.Length ==> dst[i] == if at <= i < at + n then src[from + i - at] else old(dst[i])
    {
      dst[at + n] := src[from + n];
    }
  }

  /** Copies what fits and clears the rest of the destination. */
  method MemCpyZerout(dst: array<bv8>, at: nat, src: array<bv8>, dstSize: nat, srcSize: nat)
    requires dst != src && at + dstSize <= dst.Length && srcSize <= src.Length
    modifies dst
    ensures forall i :: 0 <= i < dst.Length ==>
      dst[i] == if at <= i < at + dstSize then (if i - at < srcSize then src[i - at] else 0) else old(dst[i])
  {
    var n := if srcSize < dstSize then srcSize else dstSize;
    MemCpy(dst, at, src, 0, n);
    for m := n to dstSize
      invariant forall i :: 0 <= i < dst.Length ==>
        dst[i] == if at <= i < at + m then (if i - at < srcSize then src[i - at] else 0) else old(dst[i])
    {
      dst[at + m] := 0;
    }
  }

  /** Clears the bits of the last byte that lie beyond the field. */
  method CutMisalignedTail(data: array<bv8>, offset: int, length: nat)
    requires length % 8 != 0 ==> 0 <= offset < data.Length
    modifies data
    ensures forall i :: 0 <= i < data.Length ==>
      data[i] == if i == offset && length % 8 != 0 then And(old(data[i]), Low(length % 8)) else old(data[i])
  {
    var remainder := length % 8;
    if remainder == 0 { return; }
    data[offset] := And(data[offset], Low(remainder));
  }

  // -- Reading ------------------------------------------------------------------------

  /** Byte by byte, what the aligned read leaves in the destination. */
  ghost predicate ReadAligned(before: seq<bv8>, after: seq<bv8>, src: seq<bv8>, from: nat, length: nat) {
    && |after| == |before| && RoundUp(length) <= |after| && from + RoundUp(length) <= |src|
    && forall i {:trigger after[i]} :: 0 <= i < |after| ==>
      after[i] ==
        if i >= RoundUp(length) then before[i] else CutByte(src[from + i], i, length)
  }

  /** A byte of the source, cut after the field's last bit. */
  function CutByte(b: bv8, i: nat, length: nat): bv8 {
    if i == RoundUp(length) - 1 && length % 8 != 0 then And(b, Low(length % 8)) else b
  }

  lemma CutBit(b: bv8, i: nat, length: nat, j: nat)
    requires i < RoundUp(length) && j < 8
    ensures Bit(CutByte(b, i, length), j) <==> 8 * i + j < length && Bit(b, j)
  {
    hide Bit, And, Low;
    AndBit(b, Low(length % 8), j);
    LowBit(length % 8, j);
  }

  lemma ReadAlignedIsCopy(before: seq<bv8>, after: seq<bv8>, src: seq<bv8>, from: nat, length: nat)
    requires ReadAligned(before, after, src, from, length) && 8 * from + length <= 8 * |src|
    ensures Copied(before, after, 0, 8 * RoundUp(length), src, 8 * from, length)
  {
    hide Bit, CutByte;
    forall k | 0 <= k < 8 * |after|
      ensures BitOf(after, k) == if k < 8 * RoundUp(length) then Source(src, 8 * from, length, k) else BitOf(before, k)
    {
      var i, j := k / 8, k % 8;
      if i < RoundUp(length) {
        CutBit(src[from + i], i, length, j);
        if k < length { At(src, from + i, j); }
      }
    }
  }

  /** Both paths read the same bits: the field's, then zeroes up to the next byte. */
  method ReadBufferField(backing: array<bv8>, index: nat, length: nat, dst: array<bv8>)
    requires dst != backing && length > 0 && index + length <= 8 * backing.Length && RoundUp(length) <= dst.Length
    modifies dst
    ensures Copied(old(dst[..]), dst[..], 0, 8 * RoundUp(length), backing[..], index, length)
  {
    if index % 8 == 0 {
      var count := RoundUp(length);
      MemCpy(dst, 0, backing, index / 8, count);
      CutMisalignedTail(dst, count - 1, length);
      assert ReadAligned(old(dst[..]), dst[..], backing[..], index / 8, length);
      ReadAlignedIsCopy(old(dst[..]), dst[..], backing[..], index / 8, length);
      return;
    }
    CopyBits(dst, 0, 8 * RoundUp(length), backing, index, length);
  }

  // -- Writing --------------------------------------------------------------------------

  /** The last byte of an aligned write: low bits from the source, high bits kept. */
  function Patched(value: bv8, last: bv8, tail: nat): bv8
    requires 0 < tail < 8
  {
    Or(Shr(Shl(value, 8 - tail), 8 - tail), Shl(Shr(last, tail), tail))
  }

  lemma PatchedBit(value: bv8, last: bv8, tail: nat, i: nat)
    requires 0 < tail < 8 && i < 8
    ensures Bit(Patched(value, last, tail), i) == if i < tail then Bit(value, i) else Bit(last, i)
  {
    hide Bit, Shl, Shr, Or;
    ShrBit(Shl(value, 8 - tail), 8 - tail, i);
    ShlBit(value, 8 - tail, i + 8 - tail);
    ShlBit(Shr(last, tail), tail, i);
    if i >= tail { ShrBit(last, tail, i - tail); }
    OrBit(Shr(Shl(value, 8 - tail), 8 - tail), Shl(Shr(last, tail), tail), i);
  }

  function Padded(src: seq<bv8>, i: nat): bv8 { if i < |src| then src[i] else 0 }

  ghost predicate WroteAligned(before: seq<bv8>, after: seq<bv8>, at: nat, length: nat, src: seq<bv8>) {
    && |after| == |before| && at + RoundUp(length) <= |after|
    && forall i {:trigger after[i]} :: 0 <= i < |after| ==>
      after[i] ==
        if i < at || i >= at + RoundUp(length) then before[i]
        else if i == at + RoundUp(length) - 1 && length % 8 != 0 then Patched(Padded(src, i - at), before[i], length % 8)
        else Padded(src, i - at)
  }

  lemma ZeroBit(i: nat)
    ensures !Bit(0, i)
  {}

  /** One byte of an aligned write, bit by bit. */
  lemma WroteAlignedByte(before: seq<bv8>, after: seq<bv8>, at: nat, length: nat, src: seq<bv8>, i: nat, j: nat)
    requires WroteAligned(before, after, at, length, src) && at <= i < at + RoundUp(length) && j < 8
    ensures Bit(after[i], j) == if 8 * (i - at) + j < length then Bit(Padded(src, i - at), j) else Bit(before[i], j)
  {
    hide Bit, Patched;
    if length % 8 != 0 { PatchedBit(Padded(src, i - at), before[i], length % 8, j); }
  }

  lemma PaddedBit(src: seq<bv8>, i: nat, j: nat)
    requires j < 8
    ensures Bit(Padded(src, i), j) == Source(src, 0, 8 * |src|, 8 * i + j)
  {
    hide Bit;
    ZeroBit(j);
    if i < |src| { At(src, i, j); }
  }

  lemma WroteAlignedIsCopy(before: seq<bv8>, after: seq<bv8>, at: nat, length: nat, src: seq<bv8>)
    requires WroteAligned(before, after, at, length, src)
    ensures Copied(before, after, 8 * at, length, src, 0, 8 * |src|)
  {
    hide Bit, Patched, Padded, Source;
    forall k | 0 <= k < 8 * |after|
      ensures BitOf(after, k) == if 8 * at <= k < 8 * at + length then Source(src, 0, 8 * |src|, k - 8 * at) else BitOf(before, k)
    {
      var i, j := k / 8, k % 8;
      if at <= i < at + RoundUp(length) {
        WroteAlignedByte(before, after, at, length, src, i, j);
        PaddedBit(src, i - at, j);
      }
    }
  }

  /** Both paths change exactly the field's bits, to the source's bits or zero past its end. */
  method WriteBufferField(backing: array<bv8>, index: nat, length: nat, src: array<bv8>)
    requires src != backing && length > 0 && index + length <= 8 * backing.Length
    modifies backing
    ensures Copied(old(backing[..]), backing[..], index, length, src[..], 0, 8 * src.Length)
  {
    if index % 8 == 0 {
      var at, count := index / 8, RoundUp(length);
      var last, tail := backing[at + count - 1], length % 8;
      MemCpyZerout(backing, at, src, count, src.Length);
      if tail != 0 {
        var shift := 8 - tail;
        backing[at + count - 1] := Shl(backing[at + count - 1], shift);
        backing[at + count - 1] := Shr(backing[at + count - 1], shift);
        backing[at + count - 1] := Or(backing[at + count - 1], Shl(Shr(last, tail), tail));
      }
      hide Bit, Shl, Shr, Or;
      assert WroteAligned(old(backing[..]), backing[..], at, length, src[..]);
      WroteAlignedIsCopy(old(backing[..]), backing[..], at, length, src[..]);
      return;
    }
    CopyBits(backing, index, length, src, 0, 8 * src.Length);
  }

  /** Reading back what was written yields the source cut to the field's length or
      extended with zeroes, and nothing outside the field changed. */
  lemma WriteThenRead(before: seq<bv8>, after: seq<bv8>, index: nat, length: nat, src: seq<bv8>, was: seq<bv8>, got: seq<bv8>, k: nat)
    requires index + length <= 8 * |before|
    requires Copied(before, after, index, length, src, 0, 8 * |src|)
    requires |after| == |before| && Copied(was, got, 0, 8 * RoundUp(length), after, index, length)
    requires RoundUp(length) <= |was|
    ensures k < 8 * RoundUp(length) ==> BitOf(got, k) == (k < length && k < 8 * |src| && BitOf(src, k))
  {
    if k < length { assert BitOf(after, index + k) == Source(src, 0, 8 * |src|, k); }
  }
}
