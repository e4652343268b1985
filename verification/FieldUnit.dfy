/**
 Field units: runs of bits inside an operation region that is only ever accessed
 in whole units of one, two, four or eight bytes.  The region is plain memory.
 */
module FieldUnit {
  import opened Bits
  import opened BitCopy
  import opened BufferField

  datatype UpdateRule = Preserve | WriteAsOnes | WriteAsZeroes

  datatype Field = Field(byteOffset: nat, bitOffset: nat, length: nat, width: nat, rule: UpdateRule)

  /** The first bit of the field in the region. */
  function Start(f: Field): nat { 8 * f.byteOffset + f.bitOffset }

  /** How many units the field touches. */
  function Units(f: Field): nat
    requires f.width > 0
  {
    (f.bitOffset + f.length + 8 * f.width - 1) / (8 * f.width)
  }

  /** What field creation guarantees, over a region large enough for it. */
  predicate Valid(f: Field, region: nat) {
    && f.width in {1, 2, 4, 8} && f.bitOffset < 8 * f.width
    && f.byteOffset + f.width <= region && f.byteOffset + Units(f) * f.width <= region
  }

  /** A field declared at a bit offset: the unit that holds its first bit, and the
      offset inside that unit. */
  function Declare(bitOffset: nat, length: nat, width: nat, rule: UpdateRule): Field
    requires width > 0
  {
    Field(bitOffset / 8 / width * width, bitOffset % (8 * width), length, width, rule)
  }

  lemma SplitOffset(b: nat)
    ensures 8 * (b / 8 / 2 * 2) + b % 16 == b
    ensures 8 * (b / 8 / 4 * 4) + b % 32 == b
    ensures 8 * (b / 8 / 8 * 8) + b % 64 == b
  {
    assert b / 8 / 2 == b / 16;
    assert b / 8 / 4 == b / 32;
    assert b / 8 / 8 == b / 64;
  }

  lemma DeclaredWhereAsked(bitOffset: nat, length: nat, width: nat, rule: UpdateRule)
    requires width in {1, 2, 4, 8}
    ensures var f := Declare(bitOffset, length, width, rule);
      Start(f) == bitOffset && f.bitOffset < 8 * width
  {
    SplitOffset(bitOffset);
    if width == 1 { } else if width == 2 { } else if width == 4 { } else { assert width == 8; }
  }

  // -- One access ------------------------------------------------------------------------

  /** The eight bytes of a word that holds one unit, zero-extended. */
  ghost predicate IsUnit(word: seq<bv8>, region: seq<bv8>, off: nat, width: nat)
    requires off + width <= |region|
  {
    |word| == 8 && forall i :: 0 <= i < 8 ==> word[i] == if i < width then region[off + i] else 0
  }

  method ReadUnit(region: array<bv8>, off: nat, width: nat, word: array<bv8>)
    requires word != region && word.Length == 8 && width <= 8 && off + width <= region.Length
    modifies word
    ensures IsUnit(word[..], region[..], off, width)
  {
    for i := 0 to 8
      invariant forall j :: 0 <= j < i ==> word[j] == if j < width then region[off + j] else 0
    {
      word[i] := if i < width then region[off + i] else 0;
    }
  }

  method WriteUnit(region: array<bv8>, off: nat, width: nat, word: array<bv8>)
    requires word != region && word.Length == 8 && width <= 8 && off + width <= region.Length
    modifies region
    ensures forall i :: 0 <= i < region.Length ==> region[i] == if off <= i < off + width then word[i - off] else old(region[i])
  {
    MemCpy(region, off, word, 0, width);
  }

  lemma UnitBit(word: seq<bv8>, region: seq<bv8>, off: nat, width: nat, j: nat)
    requires off + width <= |region| && width <= 8 && IsUnit(word, region, off, width) && j < 8 * width
    ensures BitOf(word, j) == BitOf(region, 8 * off + j)
  {
    hide Bit;
    assert (8 * off + j) / 8 == off + j / 8 && (8 * off + j) % 8 == j % 8;
  }

  // -- Reading ------------------------------------------------------------------------------

  /** The first `done` bits of the field are in the destination, followed by zeroes. */
  ghost predicate ReadSoFar(dst: seq<bv8>, region: seq<bv8>, start: nat, done: nat)
    requires start + done <= 8 * |region|
  {
    forall k :: 0 <= k < 8 * |dst| ==> BitOf(dst, k) == Source(region, start, done, k)
  }

  lemma ReadStep(before: seq<bv8>, after: seq<bv8>, word: seq<bv8>, region: seq<bv8>, start: nat, done: nat,
                 off: nat, width: nat, from: nat, n: nat)
    requires off + width <= |region| && width <= 8 && IsUnit(word, region, off, width)
    requires from + n <= 8 * width && start + done == 8 * off + from
    requires done > 0 ==> ReadSoFar(before, region, start, done)
    requires var at := if done < 8 * |before| then done else 8 * |before|;
      Copied(before, after, at, 8 * |before| - at, word, from, n)
    ensures ReadSoFar(after, region, start, done + n)
  {
    hide Bit, BitOf, IsUnit;
    forall k | 0 <= k < 8 * |after| ensures BitOf(after, k) == Source(region, start, done + n, k) {
      if k < done {
        assert BitOf(before, k) == Source(region, start, done, k);
      } else if k < done + n {
        UnitBit(word, region, off, width, from + k - done);
      }
    }
  }

  /** The units are just enough for the field. */
  lemma UnitsFit(f: Field)
    requires f.width in {1, 2, 4, 8}
    ensures f.bitOffset + f.length <= Units(f) * (8 * f.width)
    ensures f.bitOffset + f.length > 0 ==> Units(f) > 0 && (Units(f) - 1) * (8 * f.width) < f.bitOffset + f.length
    ensures 8 * (Units(f) * f.width) == Units(f) * (8 * f.width)
  {
    if f.width == 1 { } else if f.width == 2 { } else if f.width == 4 { }
  }

  lemma OneLess(n: int, w: nat)
    ensures (n - 1) * w == n * w - w
    ensures n > 0 ==> n * w >= w
  {}

  method ReadMisaligned(region: array<bv8>, f: Field, dst: array<bv8>)
    requires Valid(f, region.Length) && dst != region && f.bitOffset + f.length > 0
    modifies dst
    ensures Start(f) + f.length <= 8 * region.Length && ReadSoFar(dst[..], region[..], Start(f), f.length)
  {
    hide BitOf, Bit, Copied, ReadSoFar, IsUnit;
    var off, bitsLeft, widthBits := f.byteOffset, f.length, 8 * f.width;
    var out := new bv8[8];
    var srcIndex, dstIndex, dstLength := f.bitOffset, 0, 8 * dst.Length;
    var todo := Units(f);
    UnitsFit(f);
    ghost var room := todo * widthBits;  // bits in the units not read yet
    OneLess(todo, widthBits);
    while todo > 0
      invariant 0 <= todo && room == todo * widthBits && 0 <= bitsLeft <= f.length
      invariant 0 <= srcIndex < widthBits && srcIndex + bitsLeft <= room && (todo > 0 ==> room - widthBits < srcIndex + bitsLeft)
      invariant 0 <= off && 8 * off + room <= 8 * region.Length
      invariant todo > 0 ==> room >= widthBits && Start(f) + f.length - bitsLeft == 8 * off + srcIndex
      invariant dstIndex == (if f.length - bitsLeft < 8 * dst.Length then f.length - bitsLeft else 8 * dst.Length)
      invariant dstIndex + dstLength == 8 * dst.Length
      invariant todo == Units(f) ==> bitsLeft == f.length
      invariant Start(f) + f.length - bitsLeft <= 8 * region.Length
      invariant todo < Units(f) ==> ReadSoFar(dst[..], region[..], Start(f), f.length - bitsLeft)
    {
      OneLess(todo, widthBits);
      OneLess(todo - 1, widthBits);
      var srcLength := if bitsLeft < widthBits - srcIndex then bitsLeft else widthBits - srcIndex;
      ReadUnit(region, off, f.width, out);
      ghost var before := dst[..];
      CopyBits(dst, dstIndex, dstLength, out, srcIndex, srcLength);
      ReadStep(before, dst[..], out[..], region[..], Start(f), f.length - bitsLeft, off, f.width, srcIndex, srcLength);
      bitsLeft := bitsLeft - srcLength;
      srcIndex := 0;
      var delta := if dstLength < srcLength then dstLength else srcLength;
      dstIndex, dstLength := dstIndex + delta, dstLength - delta;
      off := off + f.width;
      todo := todo - 1;
      room := room - widthBits;
    }
  }

  ghost predicate ReadFast(dst: seq<bv8>, region: seq<bv8>, off: nat, length: nat)
    requires off + RoundUp(length) <= |region|
  {
    forall i {:trigger dst[i]} :: 0 <= i < |dst| ==>
      dst[i] ==
        if i >= RoundUp(length) then 0 else CutByte(region[off + i], i, length)
  }

  lemma ReadFastIsRead(dst: seq<bv8>, region: seq<bv8>, off: nat, length: nat)
    requires off + RoundUp(length) <= |region| && ReadFast(dst, region, off, length)
    ensures ReadSoFar(dst, region, 8 * off, length)
  {
    hide Bit, CutByte;
    forall k | 0 <= k < 8 * |dst| ensures BitOf(dst, k) == Source(region, 8 * off, length, k) {
      var i, j := k / 8, k % 8;
      ZeroBit(j);
      if i < RoundUp(length) {
        CutBit(region[off + i], i, length, j);
        if k < length { At(region, off + i, j); }
      }
    }
  }

  /** The single-access fast path and the general path read the same: the field's
      bits cut to the destination, or extended with zeroes. */
  method ReadFieldUnit(region: array<bv8>, f: Field, dst: array<bv8>)
    requires Valid(f, region.Length) && dst != region
    modifies dst
    ensures Start(f) + f.length <= 8 * region.Length && ReadSoFar(dst[..], region[..], Start(f), f.length)
  {
    hide Bit, BitOf, ReadSoFar, Low, And;
    var bytes := RoundUp(f.length);
    if f.bitOffset == 0 && bytes <= f.width {
      var out := new bv8[8];
      ReadUnit(region, f.byteOffset, f.width, out);
      MemCpyZerout(dst, 0, out, dst.Length, bytes);
      if dst.Length >= bytes { CutMisalignedTail(dst, bytes - 1, f.length); }
      assert ReadFast(dst[..], region[..], f.byteOffset, f.length);
      ReadFastIsRead(dst[..], region[..], f.byteOffset, f.length);
      return;
    }
    ReadMisaligned(region, f, dst);
  }

  // -- Writing --------------------------------------------------------------------------------

  /** The bits of `region` once the first `done` bits of the field are written and the
      units up to byte `end` have been touched. */
  function WrittenBit(f: Field, region: seq<bv8>, src: seq<bv8>, done: nat, end: nat, k: nat): bool
    requires k < 8 * |region|
  {
    if Start(f) <= k < Start(f) + done then Source(src, 0, 8 * |src|, k - Start(f))
    else if f.rule.Preserve? || k < 8 * f.byteOffset || k >= 8 * end then BitOf(region, k)
    else f.rule.WriteAsOnes?
  }

  ghost predicate Written(f: Field, before: seq<bv8>, after: seq<bv8>, src: seq<bv8>, done: nat, end: nat) {
    && |after| == |before|
    && forall k {:trigger BitOf(after, k)} :: 0 <= k < 8 * |after| ==> BitOf(after, k) == WrittenBit(f, before, src, done, end, k)
  }

  /** What a unit holds before the field's bits are put in. */
  ghost predicate Prepared(word: seq<bv8>, f: Field, region: seq<bv8>, off: nat, partial: bool)
    requires off + f.width <= |region|
  {
    |word| == 8 && (partial ==> forall j :: 0 <= j < 8 * f.width && j < 64 ==>
      BitOf(word, j) == if f.rule.Preserve? then BitOf(region, 8 * off + j) else f.rule.WriteAsOnes?)
  }

  ghost predicate Poked(before: seq<bv8>, after: seq<bv8>, off: nat, width: nat, word: seq<bv8>) {
    && |after| == |before| && |word| == 8 && width <= 8 && off + width <= |after|
    && forall i :: 0 <= i < |after| ==> after[i] == if off <= i < off + width then word[i - off] else before[i]
  }

  lemma PokedBit(before: seq<bv8>, after: seq<bv8>, off: nat, width: nat, word: seq<bv8>, k: nat)
    requires Poked(before, after, off, width, word) && k < 8 * |after|
    ensures BitOf(after, k) == if 8 * off <= k < 8 * (off + width) then BitOf(word, k - 8 * off) else BitOf(before, k)
  {
    hide Bit;
    if 8 * off <= k < 8 * (off + width) {
      assert (k - 8 * off) / 8 == k / 8 - off && (k - 8 * off) % 8 == k % 8;
    }
  }

  /** One unit, bit by bit: the field's bits, or what the unit held before. */
  lemma UnitAfter(f: Field, original: seq<bv8>, src: seq<bv8>, done: nat, off: nat, at: nat, n: nat, k: nat, held: bool)
    requires 8 * off <= k < 8 * (off + f.width) && k < 8 * |original| && f.byteOffset <= off && at + n <= 8 * f.width
    requires Start(f) + done == 8 * off + at && (at == 0 || done == 0)
    requires at != 0 || n < 8 * f.width ==>
      held == if f.rule.Preserve? then WrittenBit(f, original, src, done, off, k) else f.rule.WriteAsOnes?
    ensures WrittenBit(f, original, src, done + n, off + f.width, k) ==
      var j := k - 8 * off; if at <= j < at + n then Source(src, 0, 8 * |src|, done + j - at) else held
  {
    hide BitOf;
  }

  lemma WriteStepAt(f: Field, original: seq<bv8>, before: seq<bv8>, after: seq<bv8>, src: seq<bv8>,
                    start: seq<bv8>, word: seq<bv8>, done: nat, off: nat, at: nat, n: nat, k: nat)
    requires f.width in {1, 2, 4, 8} && off + f.width <= |original| && at + n <= 8 * f.width && f.byteOffset <= off
    requires Written(f, original, before, src, done, off)
    requires Prepared(start, f, before, off, at != 0 || n < 8 * f.width)
    requires var from := if done < 8 * |src| then done else 8 * |src|; Copied(start, word, at, n, src, from, 8 * |src| - from)
    requires Poked(before, after, off, f.width, word) && k < 8 * |after|
    requires Start(f) + done == 8 * off + at && (at == 0 || done == 0)
    ensures BitOf(after, k) == WrittenBit(f, original, src, done + n, off + f.width, k)
  {
    hide Bit, BitOf;
    PokedBit(before, after, off, f.width, word, k);
    assert BitOf(before, k) == WrittenBit(f, original, src, done, off, k);
    if 8 * off <= k < 8 * (off + f.width) {
      var j := k - 8 * off;
      UnitAfter(f, original, src, done, off, at, n, k, BitOf(start, j));
      var put := BitOf(word, j);
    }
  }

  /** Writing one more unit. */
  lemma WriteStep(f: Field, original: seq<bv8>, before: seq<bv8>, after: seq<bv8>, src: seq<bv8>,
                  start: seq<bv8>, word: seq<bv8>, done: nat, off: nat, at: nat, n: nat)
    requires f.width in {1, 2, 4, 8} && off + f.width <= |original| && at + n <= 8 * f.width && f.byteOffset <= off
    requires Written(f, original, before, src, done, off)
    requires Prepared(start, f, before, off, at != 0 || n < 8 * f.width)
    requires var from := if done < 8 * |src| then done else 8 * |src|; Copied(start, word, at, n, src, from, 8 * |src| - from)
    requires Poked(before, after, off, f.width, word)
    requires Start(f) + done == 8 * off + at && (at == 0 || done == 0)
    ensures Written(f, original, after, src, done + n, off + f.width)
  {
    assert |after| == |original|;
    hide Bit, BitOf, Poked, Prepared, Copied, WrittenBit;
    forall k | 0 <= k < 8 * |after| ensures BitOf(after, k) == WrittenBit(f, original, src, done + n, off + f.width, k) {
      WriteStepAt(f, original, before, after, src, start, word, done, off, at, n, k);
    }
  }

  lemma OnesBit(j: nat)
    requires j < 8
    ensures Bit(0xFF, j)
  {}

  /** The unit as it is before the field's bits go in: read back, all ones or all zeroes. */
  method Prepare(region: array<bv8>, f: Field, off: nat, partial: bool) returns (word: array<bv8>)
    requires f.width in {1, 2, 4, 8} && off + f.width <= region.Length
    ensures fresh(word) && word.Length == 8 && Prepared(word[..], f, region[..], off, partial)
  {
    word := new bv8[8](_ => 0);
    if partial {
      match f.rule {
        case Preserve =>
          ReadUnit(region, off, f.width, word);
          hide Bit, BitOf;
          forall j | 0 <= j < 8 * f.width ensures BitOf(word[..], j) == BitOf(region[..], 8 * off + j) {
            UnitBit(word[..], region[..], off, f.width, j);
          }
        case WriteAsOnes =>
          word := new bv8[8](_ => 0xFF);
          hide Bit;
          forall j | 0 <= j < 64 ensures BitOf(word[..], j) { OnesBit(j % 8); }
        case WriteAsZeroes =>
          hide Bit;
          forall j | 0 <= j < 64 ensures !BitOf(word[..], j) { ZeroBit(j % 8); }
      }
    }
  }

  /** The end of the units a write touches. */
  function TouchedEnd(f: Field): nat
    requires f.width > 0
  {
    f.byteOffset + if f.length == 0 then 0 else Units(f) * f.width
  }

  method WriteOneUnit(region: array<bv8>, f: Field, off: nat, at: nat, n: nat, src: array<bv8>, srcIndex: nat, srcLength: nat,
                      ghost original: seq<bv8>, ghost done: nat)
    requires src != region && f.width in {1, 2, 4, 8} && off + f.width <= region.Length && f.byteOffset <= off
    requires at + n <= 8 * f.width && Start(f) + done == 8 * off + at && (at == 0 || done == 0)
    requires srcIndex == (if done < 8 * src.Length then done else 8 * src.Length) && srcIndex + srcLength == 8 * src.Length
    requires Written(f, original, region[..], src[..], done, off)
    modifies region
    ensures Written(f, original, region[..], src[..], done + n, off + f.width)
  {
    var word := Prepare(region, f, off, at != 0 || n < 8 * f.width);
    ghost var start, before := word[..], region[..];
    CopyBits(word, at, n, src, srcIndex, srcLength);
    WriteUnit(region, off, f.width, word);
    hide Bit, BitOf, Copied, WrittenBit, Prepared;
    WriteStep(f, original, before, region[..], src[..], start, word[..], done, off, at, n);
  }

  /** A write puts the source's bits into the field; the other bits of the touched
      units are kept, set or cleared as the update rule says, all others are kept. */
  method WriteFieldUnit(region: array<bv8>, f: Field, src: array<bv8>)
    requires Valid(f, region.Length) && src != region
    modifies region
    ensures Written(f, old(region[..]), region[..], src[..], f.length, TouchedEnd(f))
  {
    hide Bit, BitOf, Written;
    ghost var original := region[..];
    var off, bitsLeft, widthBits := f.byteOffset, f.length, 8 * f.width;
    var at, srcIndex, srcLength := f.bitOffset, 0, 8 * src.Length;
    UnitsFit(f);
    ghost var todo := if f.length == 0 then 0 else Units(f);
    ghost var room := todo * widthBits;  // bits in the units not written yet
    NothingWritten(f, original, src[..]);
    while bitsLeft > 0
      invariant 0 <= todo && room == todo * widthBits && 0 <= bitsLeft <= f.length
      invariant 0 <= at < widthBits && (bitsLeft > 0 ==> room - widthBits < at + bitsLeft <= room) && (bitsLeft == 0 ==> room == 0)
      invariant f.byteOffset <= off && 8 * off + room == 8 * TouchedEnd(f)
      invariant bitsLeft > 0 ==> Start(f) + f.length - bitsLeft == 8 * off + at
      invariant at == 0 || bitsLeft == f.length
      invariant srcIndex == (if f.length - bitsLeft < 8 * src.Length then f.length - bitsLeft else 8 * src.Length)
      invariant srcIndex + srcLength == 8 * src.Length
      invariant Written(f, original, region[..], src[..], f.length - bitsLeft, off)
    {
      OneLess(todo, widthBits);
      OneLess(todo - 1, widthBits);
      var n := if widthBits - at < bitsLeft then widthBits - at else bitsLeft;
      WriteOneUnit(region, f, off, at, n, src, srcIndex, srcLength, original, f.length - bitsLeft);
      var delta := if srcLength < n then srcLength else n;
      srcIndex, srcLength := srcIndex + delta, srcLength - delta;
      bitsLeft := bitsLeft - n;
      at := 0;
      off := off + f.width;
      todo := todo - 1;
      room := room - widthBits;
    }
  }

  lemma NothingWritten(f: Field, region: seq<bv8>, src: seq<bv8>)
    ensures Written(f, region, region, src, 0, f.byteOffset)
  {}

  /** Reading back what was written yields the source cut to the field's length or
      extended with zeroes. */
  lemma WriteThenReadUnit(f: Field, before: seq<bv8>, after: seq<bv8>, src: seq<bv8>, got: seq<bv8>, k: nat)
    requires Valid(f, |before|) && Start(f) + f.length <= 8 * |before| && k < 8 * |got|
    requires Written(f, before, after, src, f.length, TouchedEnd(f)) && ReadSoFar(got, after, Start(f), f.length)
    ensures BitOf(got, k) == (k < f.length && k < 8 * |src| && BitOf(src, k))
  {
    if k < f.length { assert BitOf(after, Start(f) + k) == WrittenBit(f, before, src, f.length, TouchedEnd(f), Start(f) + k); }
  }
}
