/**
 Single bits of bytes, so that shifts and masks can be read as statements about
 bit positions.
 */
module Bits {

  /** Bit `i` of a byte. */
  function Bit(w: bv8, i: nat): bool {
    if i == 0 then w & 0x1 != 0
    else if i == 1 then w & 0x2 != 0
    else if i == 2 then w & 0x4 != 0
    else if i == 3 then w & 0x8 != 0
    else if i == 4 then w & 0x10 != 0
    else if i == 5 then w & 0x20 != 0
    else if i == 6 then w & 0x40 != 0
    else i == 7 && w & 0x80 != 0
  }

  /** Shifts by less than eight. */
  function Shl(w: bv8, s: nat): bv8
    requires s < 8
  {
    if s == 0 then w
    else if s == 1 then w << 1
    else if s == 2 then w << 2
    else if s == 3 then w << 3
    else if s == 4 then w << 4
    else if s == 5 then w << 5
    else if s == 6 then w << 6
    else w << 7
  }

  function Shr(w: bv8, s: nat): bv8
    requires s < 8
  {
    if s == 0 then w
    else if s == 1 then w >> 1
    else if s == 2 then w >> 2
    else if s == 3 then w >> 3
    else if s == 4 then w >> 4
    else if s == 5 then w >> 5
    else if s == 6 then w >> 6
    else w >> 7
  }

  /** The lowest `n` bits of a byte: (1 << n) - 1. */
  function Low(n: nat): bv8 {
    if n == 0 then 0
    else if n == 1 then 0x1
    else if n == 2 then 0x3
    else if n == 3 then 0x7
    else if n == 4 then 0xF
    else if n == 5 then 0x1F
    else if n == 6 then 0x3F
    else if n == 7 then 0x7F
    else 0xFF
  }

  lemma ShlBit(w: bv8, s: nat, i: nat)
    requires s < 8
    ensures Bit(Shl(w, s), i) <==> s <= i < 8 && Bit(w, i - s)
  {
    if i == 0 { } else if i == 1 { } else if i == 2 { } else if i == 3 { }
    else if i == 4 { } else if i == 5 { } else if i == 6 { } else if i == 7 { }
  }

  lemma ShrBit(w: bv8, s: nat, i: nat)
    requires s < 8
    ensures Bit(Shr(w, s), i) <==> Bit(w, i + s)
  {
    if i == 0 { } else if i == 1 { } else if i == 2 { } else if i == 3 { }
    else if i == 4 { } else if i == 5 { } else if i == 6 { } else if i == 7 { }
  }

  lemma LowBit(n: nat, i: nat)
    ensures Bit(Low(n), i) <==> i < n && i < 8
  {
    if i == 0 { } else if i == 1 { } else if i == 2 { } else if i == 3 { }
    else if i == 4 { } else if i == 5 { } else if i == 6 { } else if i == 7 { }
  }

  function And(a: bv8, b: bv8): bv8 { a & b }

  function Or(a: bv8, b: bv8): bv8 { a | b }

  function Not(a: bv8): bv8 { !a }

  lemma AndBit(a: bv8, b: bv8, i: nat)
    ensures Bit(And(a, b), i) <==> Bit(a, i) && Bit(b, i)
  {
    if i == 0 { } else if i == 1 { } else if i == 2 { } else if i == 3 { }
    else if i == 4 { } else if i == 5 { } else if i == 6 { } else if i == 7 { }
  }

  lemma OrBit(a: bv8, b: bv8, i: nat)
    ensures Bit(Or(a, b), i) <==> Bit(a, i) || Bit(b, i)
  {
    if i == 0 { } else if i == 1 { } else if i == 2 { } else if i == 3 { }
    else if i == 4 { } else if i == 5 { } else if i == 6 { } else if i == 7 { }
  }

  lemma NotBit(a: bv8, i: nat)
    ensures Bit(Not(a), i) <==> i < 8 && !Bit(a, i)
  {
    if i == 0 { } else if i == 1 { } else if i == 2 { } else if i == 3 { }
    else if i == 4 { } else if i == 5 { } else if i == 6 { } else if i == 7 { }
  }

  lemma OnlyEightBits(w: bv8, i: nat)
    ensures Bit(w, i) ==> i < 8
  {}

  /** Bits of `b` under the mask, bits of `a` elsewhere. */
  function Merge(a: bv8, b: bv8, mask: bv8): bv8 { Or(And(a, Not(mask)), And(b, mask)) }

  lemma MergeBit(a: bv8, b: bv8, mask: bv8, i: nat)
    requires i < 8
    ensures Bit(Merge(a, b, mask), i) == if Bit(mask, i) then Bit(b, i) else Bit(a, i)
  {
    hide Bit, And, Or, Not;
    NotBit(mask, i);
    AndBit(a, Not(mask), i);
    AndBit(b, mask, i);
    OrBit(And(a, Not(mask)), And(b, mask), i);
  }
}
