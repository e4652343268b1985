/**
 From native structures to descriptors: what the conversion programs write into the
 template.
 */
module ResourceEncoding {
  import opened ResourceCodec
  import opened ResourcePrograms

  // -- Bits --------------------------------------------------------------------------------

  lemma OrDigits(p: nat, m: nat, q: nat, n: nat)
    requires p < 2 && q < 2
    ensures Or(p + 2 * m, q + 2 * n) == (if p == 1 || q == 1 then 1 else 0) + 2 * Or(m, n)
  {
    var a, b := p + 2 * m, q + 2 * n;
    assert a % 2 == p && a / 2 == m && b % 2 == q && b / 2 == n;
  }

  lemma OrZero(v: nat)
    ensures Or(0, v) == v && Or(v, 0) == v
  {}

  lemma Twice(v: nat, p: nat)
    ensures v * (2 * p) == 2 * (v * p)
  {}

  /** Bits that do not overlap are added. */
  lemma {:induction false} OrAdd(a: nat, v: nat, k: nat)
    requires a < Pow2(k)
    ensures Or(a, v * Pow2(k)) == a + v * Pow2(k) && Or(v * Pow2(k), a) == a + v * Pow2(k)
  {
    hide Or;
    if k == 0 {
      OrZero(v * Pow2(0));
    } else {
      var half := v * Pow2(k - 1);
      Twice(v, Pow2(k - 1));
      OrAdd(a / 2, v, k - 1);
      OrDigits(a % 2, a / 2, 0, half);
      OrDigits(0, half, a % 2, a / 2);
    }
  }

  /** Merging a field into a byte. */
  lemma Merge(a: nat, v: nat, k: nat, pow: nat)
    requires pow == Pow2(k) && a < pow && a + v * pow < 256
    ensures Or(a, Shl(v, k)) % 256 == a + v * pow
  {
    OrAdd(a, v, k);
  }

  /** Setting one more bit of a mask. */
  lemma {:induction false} MaskSets(list: seq<nat>, x: nat, i: nat, width: nat)
    ensures Or(MaskOf(list, i, width), if i <= x < i + width then Pow2(x - i) else 0) == MaskOf(list + [x], i, width)
    decreases width
  {
    if width > 0 {
      MaskSets(list, x, i + 1, width - 1);
      var m := MaskOf(list, i + 1, width - 1);
      var bit := if i in list then 1 else 0;
      assert i in list + [x] <==> i in list || i == x;
      if x == i {
        OrDigits(bit, m, 1, 0);
        assert Pow2(0) == 1;
      } else if i < x < i + width {
        OrDigits(bit, m, 0, Pow2(x - i - 1));
        assert Pow2(x - i) == 2 * Pow2(x - (i + 1));
      } else {
        OrDigits(bit, m, 0, 0);
      }
    }
  }

  lemma MaskSetsOne(list: seq<nat>, x: nat, width: nat)
    requires x < width
    ensures Or(MaskOf(list, 0, width), Pow2(x)) == MaskOf(list + [x], 0, width)
  {
    MaskSets(list, x, 0, width);
    assert x - 0 == x;
    hide Or, MaskOf, Pow2;
  }

  lemma PackMore(list: seq<nat>, x: nat)
    ensures Pack(list + [x]) == Or(Pack(list), Pow2(x)) % 65536
  {
    hide Or, Pow2;
    assert (list + [x])[..|list|] == list;
  }

  lemma MaskFits(list: seq<nat>, width: nat)
    requires width <= 16
    ensures MaskOf(list, 0, width) < 65536
  {
    MaskBound(list, 0, width);
    PowersGrow(width, 16);
    Powers();
    hide Pow2, MaskOf;
  }

  /** The packing loop makes the mask of the list, whatever its order. */
  lemma {:induction false} PackIsMask(list: seq<nat>, width: nat)
    requires width <= 16 && forall i :: 0 <= i < |list| ==> list[i] < width
    ensures Pack(list) == MaskOf(list, 0, width) < 65536
  {
    hide Pow2, Or, MaskOf, Pack;
    MaskFits(list, width);
    if list == [] {
      NothingSet(0, width);
    } else {
      var n := |list| - 1;
      PackIsMask(list[..n], width);
      MaskSetsOne(list[..n], list[n], width);
      PackMore(list[..n], list[n]);
      assert list[..n] + [list[n]] == list;
    }
  }

  lemma {:induction false} NothingSet(i: nat, width: nat)
    ensures MaskOf([], i, width) == 0 && Pack([]) == 0
    decreases width
  {
    if width > 0 { NothingSet(i + 1, width - 1); }
  }

  lemma {:induction false} PowersGrow(a: nat, b: nat)
    requires a <= b
    ensures Pow2(a) <= Pow2(b)
  {
    if a < b { PowersGrow(a, b - 1); }
  }

  // -- Single steps --------------------------------------------------------------------------

  lemma AmlMerge(p: Program, pc: nat, n: Bytes, size: nat, d: Bytes)
    requires pc < |p| && (p[pc].code.BitField1? || p[pc].code.BitField2?) && p[pc].f1 < |d| && HEAD + p[pc].f2 < |n|
    ensures RunAml(p, pc, n, size, d) ==
      RunAml(p, pc + 1, n, size, d[p[pc].f1 := Or(d[p[pc].f1], Shl(n[HEAD + p[pc].f2], p[pc].f3)) % 256])
  {
    hide Or, Shl;
  }

  /** Merging into a byte that holds `a` makes it `v`. */
  lemma AmlMergeTo(p: Program, pc: nat, n: Bytes, size: nat, d: Bytes, at: nat, a: nat, v: nat)
    requires pc < |p| && (p[pc].code.BitField1? || p[pc].code.BitField2?) && p[pc].f1 == at < |d| && HEAD + p[pc].f2 < |n|
    requires v == Or(a, Shl(n[HEAD + p[pc].f2], p[pc].f3)) % 256
    ensures RunAml(p, pc, n, size, d[at := a]) == RunAml(p, pc + 1, n, size, d[at := v])
  {
    hide Or, Shl, RunAml;
    AmlMerge(p, pc, n, size, d[at := a]);
    assert d[at := a][at := v] == d[at := v];
  }

  lemma AmlField(p: Program, pc: nat, n: Bytes, size: nat, d: Bytes)
    requires pc < |p| && (p[pc].code.Field8? || p[pc].code.Field16? || p[pc].code.Field32?)
    requires p[pc].f1 + FieldBytes(p[pc]) <= |d| && HEAD + p[pc].f2 + FieldBytes(p[pc]) <= |n|
    ensures RunAml(p, pc, n, size, d) ==
      RunAml(p, pc + 1, n, size, Poke(d, p[pc].f1, n[HEAD + p[pc].f2..HEAD + p[pc].f2 + FieldBytes(p[pc])]))
  {
    hide FieldBytes;
  }

  /** A field copied right behind what has been written since `at`. */
  lemma AmlFieldMore(p: Program, pc: nat, n: Bytes, size: nat, d: Bytes, at: nat, done: Bytes, more: Bytes)
    requires pc < |p| && (p[pc].code.Field8? || p[pc].code.Field16? || p[pc].code.Field32?)
    requires HEAD + p[pc].f2 + FieldBytes(p[pc]) <= |n| && more == n[HEAD + p[pc].f2..HEAD + p[pc].f2 + FieldBytes(p[pc])]
    requires p[pc].f1 == at + |done| && at + |done| + |more| <= |d|
    ensures RunAml(p, pc, n, size, Poke(d, at, done)) == RunAml(p, pc + 1, n, size, Poke(d, at, done + more))
  {
    hide RunAml, FieldBytes;
    AmlField(p, pc, n, size, Poke(d, at, done));
    PokeMore(d, at, done, more);
  }

  lemma AmlSkip(p: Program, pc: nat, n: Bytes, size: nat, d: Bytes)
    requires pc < |p| && p[pc].code.SkipIfAmlSizeLess?
    ensures RunAml(p, pc, n, size, d) == RunAml(p, pc + 1 + (if size < p[pc].f1 then p[pc].f3 else 0), n, size, d)
  {}

  lemma AmlPack(p: Program, pc: nat, n: Bytes, size: nat, d: Bytes, list: Bytes)
    requires pc < |p| && (p[pc].code.PackedArray8? || p[pc].code.PackedArray16?) && p[pc].f1 + MaskBytes(p[pc]) <= |d|
    requires HEAD + p[pc].f3 < |n| && HEAD + p[pc].f2 + n[HEAD + p[pc].f3] <= |n|
    requires list == n[HEAD + p[pc].f2..HEAD + p[pc].f2 + n[HEAD + p[pc].f3]]
    ensures RunAml(p, pc, n, size, d) == RunAml(p, pc + 1, n, size, Poke(d, p[pc].f1, Put16(Pack(list))[..MaskBytes(p[pc])]))
  {
    hide Pack, Put16;
    assert Put16(Pack(list))[0..MaskBytes(p[pc])] == Put16(Pack(list))[..MaskBytes(p[pc])];
  }

  lemma AmlEnd(p: Program, pc: nat, n: Bytes, size: nat, d: Bytes)
    requires pc < |p| && p[pc].code.End?
    ensures RunAml(p, pc, n, size, d) == Done(d)
  {}

  // -- One resource ----------------------------------------------------------------------------

  /** The header of a descriptor. */
  function Heading(k: Kind, size: nat): (h: Bytes)
    ensures |h| == Header(k)
  {
    if Large(k) then [LargeTag(k)] + Put16(size) else [Or(SmallTag(k) * 8, size)]
  }

  function ConvertToAml(k: Kind, n: Bytes, size: nat, d: Bytes): Outcome {
    if |d| < Header(k) then Fault
    else
      var d0 := Poke(d, 0, Heading(k, size));
      var p := ToAmlProgram(k);
      if p == [] then Done(d0) else RunAml(p, 0, n, size, d0)
  }

  /** The body size chosen by looking at the native structure. */
  function BodySizeFor(k: Kind, n: Bytes): nat
    requires |n| >= NativeSize(k)
  {
    match k
    case KIrq => if (n[8] == DONT_CARE || n[8] == ONE_LESS) && n[9] == EDGE && n[10] == 0 && n[11] == 0 then 2 else 3
    case KStartDependent =>
      if (n[8] == DONT_CARE || n[8] == ONE_LESS) && n[9] == ACCEPTABLE && n[10] == ACCEPTABLE then 0 else 1
    case _ => BodySize(k)
  }

  lemma BodySizeChosen(r: Resource, n: Bytes)
    requires Holds(n, r)
    ensures BodySizeFor(KindOfNative(r), n) == AmlBodySize(r)
  {
    if r.Irq? || r.StartDependent? {
      assert n[8] == FieldAt(r, 0) && n[9] == FieldAt(r, 1) && n[10] == FieldAt(r, 2);
      if r.Irq? { assert n[11] == FieldAt(r, 3); }
    }
  }

  /** The short start of dependent functions skips one instruction too few: it also sets
      a bit in the byte after its descriptor. */
  predicate Spills(r: Resource) { r.StartDependent? && Short(r) }

  function Spilled(r: Resource, rest: Bytes): Bytes
    requires Spills(r) ==> rest != []
  {
    if Spills(r) then rest[0 := 4] else rest
  }

  /** Zeroed, except perhaps for the first byte. */
  ghost predicate Blank(d: Bytes) { forall i :: 1 <= i < |d| ==> d[i] == 0 }

  /** The interpreter writes the descriptor of the resource. */
  ghost predicate Encodes(r: Resource, n: Bytes, d: Bytes) {
    var len := |EncodeOne(r)|;
    && len + (if Spills(r) then 1 else 0) <= |d|
    && ConvertToAml(KindOfNative(r), n, AmlBodySize(r), d) == Done(EncodeOne(r) + Spilled(r, d[len..]))
  }

  lemma SmallHeading(k: Kind, size: nat)
    requires !Large(k) && size < 8
    ensures Heading(k, size) == [SmallTag(k) * 8 + size]
  {
    Powers2();
    OrAdd(size, SmallTag(k), 3);
  }

  lemma SmallEncoding(r: Resource)
    requires InRange(r) && !Large(KindOfNative(r))
    ensures EncodeOne(r) == Heading(KindOfNative(r), AmlBodySize(r)) + ToAml(r) && |ToAml(r)| == AmlBodySize(r)
  {
    BodyBack(r);
    hide ToAml, ToNative, InRange, Heading;
    SmallHeading(KindOfNative(r), AmlBodySize(r));
  }

  lemma LargeEncoding(r: Resource)
    requires InRange(r) && Large(KindOfNative(r))
    ensures EncodeOne(r) == Heading(KindOfNative(r), AmlBodySize(r)) + ToAml(r) && |ToAml(r)| == AmlBodySize(r)
  {
    BodyBack(r);
    hide ToAml, ToNative, InRange;
  }

  lemma Encoding(r: Resource)
    requires InRange(r)
    ensures EncodeOne(r) == Heading(KindOfNative(r), AmlBodySize(r)) + ToAml(r) && |ToAml(r)| == AmlBodySize(r)
    ensures |EncodeOne(r)| == Header(KindOfNative(r)) + AmlBodySize(r)
  {
    hide EncodeOne, ToAml, Heading, InRange;
    if Large(KindOfNative(r)) { LargeEncoding(r); } else { SmallEncoding(r); }
  }

  /** The buffer after the header has been written. */
  function Headed(k: Kind, size: nat, d: Bytes): (d0: Bytes)
    requires |d| >= Header(k)
    ensures |d0| == |d| && d0[..Header(k)] == Heading(k, size) && d0[Header(k)..] == d[Header(k)..]
  {
    Poke(d, 0, Heading(k, size))
  }

  lemma Assemble(d: Bytes, d0: Bytes, head: Bytes, body: Bytes)
    requires |d0| == |d| >= |head| + |body| && d0[..|head|] == head && d0[|head|..] == d[|head|..]
    ensures Poke(d0, |head|, body) == head + body + d[|head| + |body|..]
  {
    var h := |head|;
    assert forall i :: 0 <= i < h ==> d0[i] == d0[..h][i];
    assert forall i :: h <= i < |d| ==> d0[i] == d0[h..][i - h] && d[i] == d[h..][i - h];
  }

  /** A run that writes the body behind the header, and nothing else. */
  lemma Finish(r: Resource, n: Bytes, d: Bytes)
    requires InRange(r) && !Spills(r) && |d| >= |EncodeOne(r)| && ToAmlProgram(KindOfNative(r)) != []
    requires |d| >= Header(KindOfNative(r)) + |ToAml(r)|
    requires RunAml(ToAmlProgram(KindOfNative(r)), 0, n, AmlBodySize(r), Headed(KindOfNative(r), AmlBodySize(r), d)) ==
      Done(Poke(Headed(KindOfNative(r), AmlBodySize(r), d), Header(KindOfNative(r)), ToAml(r)))
    ensures Encodes(r, n, d)
  {
    Encoding(r);
    hide EncodeOne, ToAml, Heading, InRange, RunAml, ToAmlProgram, AmlBodySize, KindOfNative, Header, Spills, Poke;
    var k := KindOfNative(r);
    assert ConvertToAml(k, n, AmlBodySize(r), d) == RunAml(ToAmlProgram(k), 0, n, AmlBodySize(r), Headed(k, AmlBodySize(r), d));
    Assemble(d, Headed(k, AmlBodySize(r), d), Heading(k, AmlBodySize(r)), ToAml(r));
  }

  lemma FlagsMerge(t: nat, p: nat, s: nat, w: nat)
    requires t < 2 && p < 2 && s < 2 && w < 2
    ensures Or(0, Shl(t, 0)) % 256 == t && Or(t, Shl(p, 3)) % 256 == t + 8 * p
    ensures Or(t + 8 * p, Shl(s, 4)) % 256 == t + 8 * p + 16 * s
    ensures Or(t + 8 * p + 16 * s, Shl(w, 5)) % 256 == t + 8 * p + 16 * s + 32 * w
  {
    Powers2();
    hide Or, Pow2, Shl;
    Merge(0, t, 0, 1);
    Merge(t, p, 3, 8);
    Merge(t + 8 * p, s, 4, 16);
    Merge(t + 8 * p + 16 * s, w, 5, 32);
  }

  lemma DmaFlagsMerge(t: nat, m: nat, s: nat)
    requires t < 4 && m < 2 && s < 4
    ensures Or(0, Shl(t, 0)) % 256 == t && Or(t, Shl(m, 2)) % 256 == t + 4 * m
    ensures Or(t + 4 * m, Shl(s, 5)) % 256 == t + 4 * m + 32 * s
  {
    Powers2();
    hide Or, Pow2, Shl;
    Merge(0, t, 0, 1);
    Merge(t, m, 2, 4);
    Merge(t + 4 * m, s, 5, 32);
  }

  /** The list of a native structure, read back. */
  lemma ListAt(n: Bytes, r: Resource, at: nat, list: seq<nat>)
    requires Holds(n, r) && list == (if r.Irq? then r.irqs else if r.Dma? then r.channels else []) && (r.Irq? || r.Dma?)
    requires at == if r.Irq? then 14 else 12
    ensures at + |list| <= |n| && n[at..at + |list|] == list && n[at - 1] == |list|
  {
    assert n[at - 1] == FieldAt(r, at - 1 - HEAD);
    forall i | 0 <= i < |list| ensures n[at + i] == list[i] { assert n[at + i] == FieldAt(r, at + i - HEAD); }
  }

  lemma {:induction false} Below(list: seq<nat>, lo: nat, hi: nat)
    requires Ascending(list, lo, hi)
    ensures forall i :: 0 <= i < |list| ==> list[i] < hi
  {
    forall i | 0 <= i < |list| ensures list[i] < hi { AscendingMeans(list, lo, hi, i, i); }
  }

  lemma IrqMerges(n: Bytes, size: nat, d: Bytes, a: nat, b: nat, c: nat, e: nat)
    requires |n| >= 13 && |d| >= 4 && d[3] == 0
    requires a == Or(0, Shl(n[9], 0)) % 256 && b == Or(a, Shl(n[10], 3)) % 256
    requires c == Or(b, Shl(n[11], 4)) % 256 && e == Or(c, Shl(n[12], 5)) % 256
    ensures RunAml(IRQ_TO_AML, 2, n, size, d) == Done(d[3 := e])
  {
    hide RunAml, Or, Shl;
    assert d[3 := 0] == d;
    AmlMergeTo(IRQ_TO_AML, 2, n, size, d, 3, 0, a);
    AmlMergeTo(IRQ_TO_AML, 3, n, size, d, 3, a, b);
    AmlMergeTo(IRQ_TO_AML, 4, n, size, d, 3, b, c);
    AmlMergeTo(IRQ_TO_AML, 5, n, size, d, 3, c, e);
    AmlEnd(IRQ_TO_AML, 6, n, size, d[3 := e]);
  }

  lemma IrqFlagsRun(n: Bytes, size: nat, d: Bytes, t: nat, p: nat, s: nat, w: nat)
    requires |n| >= 13 && n[9] == t < 2 && n[10] == p < 2 && n[11] == s < 2 && n[12] == w < 2 && |d| >= 4 && d[3] == 0
    ensures RunAml(IRQ_TO_AML, 2, n, size, d) == Done(d[3 := t + 8 * p + 16 * s + 32 * w])
  {
    FlagsMerge(t, p, s, w);
    hide RunAml, Or, Shl;
    IrqMerges(n, size, d, t, t + 8 * p, t + 8 * p + 16 * s, t + 8 * p + 16 * s + 32 * w);
  }

  lemma IrqHeld(r: Resource, n: Bytes)
    requires r.Irq? && Holds(n, r)
    ensures |n| >= 14 + |r.irqs| && n[9] == r.triggering && n[10] == r.polarity && n[11] == r.sharing && n[12] == r.wake
    ensures n[13] == |r.irqs| && n[14..14 + |r.irqs|] == r.irqs
  {
    assert n[9] == FieldAt(r, 1) && n[10] == FieldAt(r, 2) && n[11] == FieldAt(r, 3) && n[12] == FieldAt(r, 4);
    ListAt(n, r, 14, r.irqs);
  }

  lemma IrqMaskRuns(n: Bytes, size: nat, d: Bytes, irqs: Bytes)
    requires |n| >= 14 + |irqs| && n[13] == |irqs| && n[14..14 + |irqs|] == irqs && |d| >= 3
    requires forall i :: 0 <= i < |irqs| ==> irqs[i] < 16
    ensures RunAml(IRQ_TO_AML, 0, n, size, d) ==
      RunAml(IRQ_TO_AML, if size < 3 then 6 else 2, n, size, Poke(d, 1, Put16(MaskOf(irqs, 0, 16))))
  {
    PackIsMask(irqs, 16);
    hide RunAml, Pack, MaskOf, Put16;
    AmlPack(IRQ_TO_AML, 0, n, size, d, irqs);
    var m := Put16(Pack(irqs));
    assert m[..2] == m;
    AmlSkip(IRQ_TO_AML, 1, n, size, Poke(d, 1, m));
  }

  lemma IrqFullRuns(n: Bytes, d: Bytes, irqs: Bytes, t: nat, p: nat, s: nat, w: nat)
    requires |n| >= 14 + |irqs| && n[13] == |irqs| && n[14..14 + |irqs|] == irqs && |d| >= 4 && d[3] == 0
    requires forall i :: 0 <= i < |irqs| ==> irqs[i] < 16
    requires n[9] == t < 2 && n[10] == p < 2 && n[11] == s < 2 && n[12] == w < 2
    ensures RunAml(IRQ_TO_AML, 0, n, 3, d) == Done(Poke(d, 1, Put16(MaskOf(irqs, 0, 16)) + [t + 8 * p + 16 * s + 32 * w]))
  {
    hide RunAml, MaskOf, Put16;
    var m, f := Put16(MaskOf(irqs, 0, 16)), t + 8 * p + 16 * s + 32 * w;
    IrqMaskRuns(n, 3, d, irqs);
    IrqFlagsRun(n, 3, Poke(d, 1, m), t, p, s, w);
    PokeByte(Poke(d, 1, m), 3, f);
    PokeMore(d, 1, m, [f]);
  }

  lemma IrqShortRuns(n: Bytes, d: Bytes, irqs: Bytes)
    requires |n| >= 14 + |irqs| && n[13] == |irqs| && n[14..14 + |irqs|] == irqs && |d| >= 3
    requires forall i :: 0 <= i < |irqs| ==> irqs[i] < 16
    ensures RunAml(IRQ_TO_AML, 0, n, 2, d) == Done(Poke(d, 1, Put16(MaskOf(irqs, 0, 16))))
  {
    hide RunAml, MaskOf, Put16;
    IrqMaskRuns(n, 2, d, irqs);
    AmlEnd(IRQ_TO_AML, 6, n, 2, Poke(d, 1, Put16(MaskOf(irqs, 0, 16))));
  }

  /** Room for the descriptor, zeroed behind the first byte. */
  ghost predicate Room(r: Resource, d: Bytes) { |d| >= |EncodeOne(r)| + (if Spills(r) then 1 else 0) && Blank(d) }

  lemma RoomFor(r: Resource, d: Bytes)
    requires InRange(r) && Room(r, d)
    ensures |d| >= Header(KindOfNative(r)) + AmlBodySize(r)
    ensures var d0 := Headed(KindOfNative(r), AmlBodySize(r), d); forall i :: Header(KindOfNative(r)) <= i < |d| ==> d0[i] == 0
  {
    Encoding(r);
    hide EncodeOne, InRange, ToAml, Heading, AmlBodySize;
    var h, d0 := Header(KindOfNative(r)), Headed(KindOfNative(r), AmlBodySize(r), d);
    forall i | h <= i < |d| ensures d0[i] == 0 { assert d0[i] == d0[h..][i - h] && d[i] == d[h..][i - h]; }
  }

  lemma IrqEncodes(r: Resource, n: Bytes, d: Bytes)
    requires r.Irq? && InRange(r) && Holds(n, r) && Room(r, d)
    ensures Encodes(r, n, d)
  {
    RoomFor(r, d);
    IrqHeld(r, n);
    Below(r.irqs, 0, 16);
    hide Encodes;
    if Short(r) { IrqShortEncodes(r, n, d); } else { IrqFullEncodes(r, n, d); }
  }

  lemma IrqShortEncodes(r: Resource, n: Bytes, d: Bytes)
    requires r.Irq? && InRange(r) && Short(r) && |d| >= |EncodeOne(r)| && |d| >= 3
    requires |n| >= 14 + |r.irqs| && n[13] == |r.irqs| && n[14..14 + |r.irqs|] == r.irqs
    requires forall i :: 0 <= i < |r.irqs| ==> r.irqs[i] < 16
    ensures Encodes(r, n, d)
  {
    hide RunAml, Heading, Put16, MaskOf, EncodeOne, Ascending, Encodes, Headed, Poke;
    NoFlags(r);
    IrqShortRuns(n, Headed(KIrq, 2, d), r.irqs);
    Finish(r, n, d);
  }

  lemma IrqFullEncodes(r: Resource, n: Bytes, d: Bytes)
    requires r.Irq? && InRange(r) && !Short(r) && |d| >= |EncodeOne(r)| && |d| >= 4 && Headed(KIrq, 3, d)[3] == 0
    requires |n| >= 14 + |r.irqs| && n[13] == |r.irqs| && n[14..14 + |r.irqs|] == r.irqs
    requires n[9] == r.triggering && n[10] == r.polarity && n[11] == r.sharing && n[12] == r.wake
    requires forall i :: 0 <= i < |r.irqs| ==> r.irqs[i] < 16
    ensures Encodes(r, n, d)
  {
    hide RunAml, Heading, Put16, MaskOf, EncodeOne, Ascending, Encodes, Headed, Poke;
    IrqFullRuns(n, Headed(KIrq, 3, d), r.irqs, r.triggering, r.polarity, r.sharing, r.wake);
    Finish(r, n, d);
  }

  lemma NoFlags(r: Resource)
    requires r.Irq? && Short(r)
    ensures ToAml(r) == Put16(MaskOf(r.irqs, 0, 16))
  {}

  lemma DmaHeld(r: Resource, n: Bytes)
    requires r.Dma? && Holds(n, r)
    ensures |n| >= 12 + |r.channels| && n[8] == r.transferType && n[9] == r.busMaster && n[10] == r.speed
    ensures n[11] == |r.channels| && n[12..12 + |r.channels|] == r.channels
  {
    assert n[8] == FieldAt(r, 0) && n[9] == FieldAt(r, 1) && n[10] == FieldAt(r, 2);
    ListAt(n, r, 12, r.channels);
  }

  lemma DmaMerges(n: Bytes, d: Bytes, a: nat, b: nat, c: nat)
    requires |n| >= 12 && |d| >= 3 && d[2] == 0
    requires a == Or(0, Shl(n[8], 0)) % 256 && b == Or(a, Shl(n[9], 2)) % 256 && c == Or(b, Shl(n[10], 5)) % 256
    ensures RunAml(DMA, 1, n, 2, d) == Done(d[2 := c])
  {
    hide RunAml, Or, Shl;
    assert d[2 := 0] == d;
    AmlMergeTo(DMA, 1, n, 2, d, 2, 0, a);
    AmlMergeTo(DMA, 2, n, 2, d, 2, a, b);
    AmlMergeTo(DMA, 3, n, 2, d, 2, b, c);
    AmlEnd(DMA, 4, n, 2, d[2 := c]);
  }

  lemma LowByte(m: nat)
    requires m < 256
    ensures Put16(m)[..1] == [m]
  {}

  lemma DmaMask(channels: seq<nat>)
    requires forall i :: 0 <= i < |channels| ==> channels[i] < 8
    ensures Pack(channels) == MaskOf(channels, 0, 8) < 256
  {
    PackIsMask(channels, 8);
    MaskBound(channels, 0, 8);
    Powers();
    hide Pack, MaskOf, Pow2;
  }

  lemma DmaMaskRuns(n: Bytes, d: Bytes, channels: Bytes)
    requires |n| >= 12 + |channels| && n[11] == |channels| && n[12..12 + |channels|] == channels && |d| >= 2
    requires forall i :: 0 <= i < |channels| ==> channels[i] < 8
    ensures RunAml(DMA, 0, n, 2, d) == RunAml(DMA, 1, n, 2, Poke(d, 1, [MaskOf(channels, 0, 8)]))
  {
    DmaMask(channels);
    hide RunAml, Pack, MaskOf, Put16;
    AmlPack(DMA, 0, n, 2, d, channels);
    LowByte(MaskOf(channels, 0, 8));
  }

  lemma DmaFlagsRun(n: Bytes, d: Bytes, t: nat, m: nat, s: nat)
    requires |n| >= 12 && |d| >= 3 && d[2] == 0 && n[8] == t < 4 && n[9] == m < 2 && n[10] == s < 4
    ensures RunAml(DMA, 1, n, 2, d) == Done(Poke(d, 2, [t + 4 * m + 32 * s]))
  {
    DmaFlagsMerge(t, m, s);
    hide RunAml, Or, Shl;
    DmaMerges(n, d, t, t + 4 * m, t + 4 * m + 32 * s);
    PokeByte(d, 2, t + 4 * m + 32 * s);
  }

  lemma DmaRuns(n: Bytes, d: Bytes, channels: Bytes, t: nat, m: nat, s: nat)
    requires |n| >= 12 + |channels| && n[11] == |channels| && n[12..12 + |channels|] == channels && |d| >= 3 && d[2] == 0
    requires forall i :: 0 <= i < |channels| ==> channels[i] < 8
    requires n[8] == t < 4 && n[9] == m < 2 && n[10] == s < 4
    ensures RunAml(DMA, 0, n, 2, d) == Done(Poke(d, 1, [MaskOf(channels, 0, 8), t + 4 * m + 32 * s]))
  {
    hide RunAml, MaskOf;
    var mask, f := MaskOf(channels, 0, 8), t + 4 * m + 32 * s;
    DmaMaskRuns(n, d, channels);
    DmaFlagsRun(n, Poke(d, 1, [mask]), t, m, s);
    PokeMore(d, 1, [mask], [f]);
    assert [mask] + [f] == [mask, f];
  }

  lemma DmaEncodes(r: Resource, n: Bytes, d: Bytes)
    requires r.Dma? && InRange(r) && Holds(n, r) && Room(r, d)
    ensures Encodes(r, n, d)
  {
    RoomFor(r, d);
    DmaHeld(r, n);
    Below(r.channels, 0, 8);
    hide Encodes, Holds, Room;
    DmaCore(r, n, d);
  }

  lemma DmaCore(r: Resource, n: Bytes, d: Bytes)
    requires r.Dma? && InRange(r) && |d| >= |EncodeOne(r)| && |d| >= 3 && Headed(KDma, 2, d)[2] == 0
    requires |n| >= 12 + |r.channels| && n[11] == |r.channels| && n[12..12 + |r.channels|] == r.channels
    requires n[8] == r.transferType && n[9] == r.busMaster && n[10] == r.speed
    requires forall i :: 0 <= i < |r.channels| ==> r.channels[i] < 8
    ensures Encodes(r, n, d)
  {
    hide RunAml, Heading, MaskOf, EncodeOne, Ascending, Encodes, Headed, Poke;
    DmaRuns(n, Headed(KDma, 2, d), r.channels, r.transferType, r.busMaster, r.speed);
    Finish(r, n, d);
  }

  lemma StartHeld(r: Resource, n: Bytes)
    requires r.StartDependent? && Holds(n, r)
    ensures |n| >= 11 && n[9] == r.compatibility && n[10] == r.performance
  {
    assert n[9] == FieldAt(r, 1) && n[10] == FieldAt(r, 2);
  }

  lemma StartFlagsMerge(c: nat, p: nat)
    requires c < 4 && p < 4
    ensures Or(0, Shl(c, 0)) % 256 == c && Or(c, Shl(p, 2)) % 256 == c + 4 * p && Or(0, Shl(p, 2)) % 256 == 4 * p
  {
    Powers2();
    hide Or, Pow2, Shl;
    Merge(0, c, 0, 1);
    Merge(c, p, 2, 4);
    Merge(0, p, 2, 4);
  }

  /** Without the flags byte, the second of the two instructions still runs. */
  lemma StartRuns(n: Bytes, d: Bytes, size: nat, c: nat, p: nat)
    requires |n| >= 11 && n[9] == c < 4 && n[10] == p < 4 && |d| >= 2 && d[1] == 0 && size <= 1
    ensures RunAml(START_TO_AML, 0, n, size, d) == Done(d[1 := if size == 0 then 4 * p else c + 4 * p])
  {
    StartFlagsMerge(c, p);
    hide RunAml, Or, Shl;
    assert d[1 := 0] == d;
    AmlSkip(START_TO_AML, 0, n, size, d);
    if size == 0 {
      AmlMergeTo(START_TO_AML, 2, n, size, d, 1, 0, 4 * p);
      AmlEnd(START_TO_AML, 3, n, size, d[1 := 4 * p]);
    } else {
      AmlMergeTo(START_TO_AML, 1, n, size, d, 1, 0, c);
      AmlMergeTo(START_TO_AML, 2, n, size, d, 1, c, c + 4 * p);
      AmlEnd(START_TO_AML, 3, n, size, d[1 := c + 4 * p]);
    }
  }

  lemma StartEncodes(r: Resource, n: Bytes, d: Bytes)
    requires r.StartDependent? && InRange(r) && Holds(n, r) && Room(r, d)
    ensures Encodes(r, n, d)
  {
    RoomFor(r, d);
    StartHeld(r, n);
    hide Encodes, Holds;
    if Short(r) { StartShort(r, n, d); } else { StartFull(r, n, d); }
  }

  lemma StartFull(r: Resource, n: Bytes, d: Bytes)
    requires r.StartDependent? && InRange(r) && !Short(r) && |d| >= |EncodeOne(r)| && |d| >= 2 && Headed(KStartDependent, 1, d)[1] == 0
    requires |n| >= 11 && n[9] == r.compatibility && n[10] == r.performance
    ensures Encodes(r, n, d)
  {
    hide RunAml, Heading, EncodeOne, Headed, Encodes, Poke;
    var d0, f := Headed(KStartDependent, 1, d), r.compatibility + 4 * r.performance;
    StartRuns(n, d0, 1, r.compatibility, r.performance);
    PokeByte(d0, 1, f);
    Finish(r, n, d);
  }

  lemma StartShort(r: Resource, n: Bytes, d: Bytes)
    requires r.StartDependent? && InRange(r) && Short(r) && |d| >= 2 && Headed(KStartDependent, 0, d)[1] == 0
    requires |n| >= 11 && n[9] == r.compatibility && n[10] == r.performance
    ensures Encodes(r, n, d)
  {
    Encoding(r);
    HeadedIs(KStartDependent, 0, d);
    var head, d0 := Heading(KStartDependent, 0), Headed(KStartDependent, 0, d);
    StartRuns(n, d0, 0, ACCEPTABLE, ACCEPTABLE);
    hide RunAml, Heading, Headed, EncodeOne, Poke;
    assert ToAml(r) == [];
    assert EncodeOne(r) == head;
    SpillsOver(d, d0, head);
  }

  lemma SpillsOver(d: Bytes, d0: Bytes, head: Bytes)
    requires |head| == 1 && |d0| == |d| >= 2 && d0[..1] == head && d0[1..] == d[1..]
    ensures d0[1 := 4] == head + d[1..][0 := 4]
  {
    var e := d0[1 := 4];
    assert e == e[..1] + e[1..] && e[..1] == d0[..1] && e[1..] == d0[1..][0 := 4];
  }

  lemma HeadedIs(k: Kind, size: nat, d: Bytes)
    requires |d| >= Header(k)
    ensures Headed(k, size, d) == Poke(d, 0, Heading(k, size))
  {}

  lemma IoHeld(r: Resource, n: Bytes)
    requires r.Io? && Holds(n, r)
    ensures |n| >= 16 && n[8] == r.decode && n[10..16] == Put16(r.minimum) + Put16(r.maximum) + [r.alignment, r.length]
  {
    hide Put16;
    assert n[8] == FieldAt(r, 0);
    forall i | 10 <= i < 16 ensures n[i] == (Put16(r.minimum) + Put16(r.maximum) + [r.alignment, r.length])[i - 10] {
      assert n[i] == FieldAt(r, i - HEAD);
    }
  }

  lemma FirstMerge(v: nat)
    requires v < 2
    ensures Or(0, Shl(v, 0)) % 256 == v
  {
    Powers2();
    hide Or, Pow2, Shl;
    Merge(0, v, 0, 1);
  }

  lemma IoFieldsRun(n: Bytes, d: Bytes)
    requires |n| >= 16 && |d| >= 8
    ensures RunAml(IO, 1, n, 7, d) == Done(Poke(d, 2, n[10..16]))
  {
    hide RunAml;
    PokeNone(d, 2);
    AmlFieldMore(IO, 1, n, 7, d, 2, [], n[10..12]);
    assert [] + n[10..12] == n[10..12];
    AmlFieldMore(IO, 2, n, 7, d, 2, n[10..12], n[12..14]);
    assert n[10..12] + n[12..14] == n[10..14];
    AmlFieldMore(IO, 3, n, 7, d, 2, n[10..14], n[14..15]);
    assert n[10..14] + n[14..15] == n[10..15];
    AmlFieldMore(IO, 4, n, 7, d, 2, n[10..15], n[15..16]);
    assert n[10..15] + n[15..16] == n[10..16];
    AmlEnd(IO, 5, n, 7, Poke(d, 2, n[10..16]));
  }

  lemma IoRuns(n: Bytes, d: Bytes)
    requires |n| >= 16 && n[8] < 2 && |d| >= 8 && d[1] == 0
    ensures RunAml(IO, 0, n, 7, d) == Done(Poke(d, 1, [n[8]] + n[10..16]))
  {
    FirstMerge(n[8]);
    hide RunAml, Or, Shl;
    assert d[1 := 0] == d;
    AmlMergeTo(IO, 0, n, 7, d, 1, 0, n[8]);
    PokeByte(d, 1, n[8]);
    IoFieldsRun(n, Poke(d, 1, [n[8]]));
    PokeMore(d, 1, [n[8]], n[10..16]);
  }

  lemma IoEncodes(r: Resource, n: Bytes, d: Bytes)
    requires r.Io? && InRange(r) && Holds(n, r) && Room(r, d)
    ensures Encodes(r, n, d)
  {
    RoomFor(r, d);
    IoHeld(r, n);
    hide RunAml, Heading, Holds, EncodeOne, Put16, Encodes, Headed, Poke;
    assert ToAml(r) == [n[8]] + n[10..16];
    IoRuns(n, Headed(KIo, 7, d));
    Finish(r, n, d);
  }

  lemma FixedIoHeld(r: Resource, n: Bytes)
    requires r.FixedIo? && Holds(n, r)
    ensures |n| >= 12 && n[8..11] == ToAml(r)
  {
    hide Put16;
    forall i | 8 <= i < 11 ensures n[i] == ToAml(r)[i - 8] { assert n[i] == FieldAt(r, i - HEAD); }
  }

  lemma FixedIoRuns(n: Bytes, d: Bytes)
    requires |n| >= 12 && |d| >= 4
    ensures RunAml(FIXED_IO, 0, n, 3, d) == Done(Poke(d, 1, n[8..11]))
  {
    hide RunAml;
    PokeNone(d, 1);
    AmlFieldMore(FIXED_IO, 0, n, 3, d, 1, [], n[8..10]);
    assert [] + n[8..10] == n[8..10];
    AmlFieldMore(FIXED_IO, 1, n, 3, d, 1, n[8..10], n[10..11]);
    assert n[8..10] + n[10..11] == n[8..11];
    AmlEnd(FIXED_IO, 2, n, 3, Poke(d, 1, n[8..11]));
  }

  lemma FixedIoEncodes(r: Resource, n: Bytes, d: Bytes)
    requires r.FixedIo? && InRange(r) && Holds(n, r) && Room(r, d)
    ensures Encodes(r, n, d)
  {
    RoomFor(r, d);
    FixedIoHeld(r, n);
    hide RunAml, Heading, ToAml, Holds, EncodeOne, Encodes, Headed, Poke;
    FixedIoRuns(n, Headed(KFixedIo, 3, d));
    Finish(r, n, d);
  }

  lemma FixedDmaHeld(r: Resource, n: Bytes)
    requires r.FixedDma? && Holds(n, r)
    ensures |n| >= 14 && n[8..13] == ToAml(r)
  {
    hide Put16;
    forall i | 8 <= i < 13 ensures n[i] == ToAml(r)[i - 8] { assert n[i] == FieldAt(r, i - HEAD); }
  }

  lemma FixedDmaRuns(n: Bytes, d: Bytes)
    requires |n| >= 14 && |d| >= 6
    ensures RunAml(FIXED_DMA, 0, n, 5, d) == Done(Poke(d, 1, n[8..13]))
  {
    hide RunAml;
    PokeNone(d, 1);
    AmlFieldMore(FIXED_DMA, 0, n, 5, d, 1, [], n[8..10]);
    assert [] + n[8..10] == n[8..10];
    AmlFieldMore(FIXED_DMA, 1, n, 5, d, 1, n[8..10], n[10..12]);
    assert n[8..10] + n[10..12] == n[8..12];
    AmlFieldMore(FIXED_DMA, 2, n, 5, d, 1, n[8..12], n[12..13]);
    assert n[8..12] + n[12..13] == n[8..13];
    AmlEnd(FIXED_DMA, 3, n, 5, Poke(d, 1, n[8..13]));
  }

  lemma FixedDmaEncodes(r: Resource, n: Bytes, d: Bytes)
    requires r.FixedDma? && InRange(r) && Holds(n, r) && Room(r, d)
    ensures Encodes(r, n, d)
  {
    RoomFor(r, d);
    FixedDmaHeld(r, n);
    hide RunAml, Heading, ToAml, Holds, EncodeOne, Encodes, Headed, Poke;
    FixedDmaRuns(n, Headed(KFixedDma, 5, d));
    Finish(r, n, d);
  }

  lemma Memory24Held(r: Resource, n: Bytes)
    requires r.Memory24? && Holds(n, r)
    ensures |n| >= 18 && ToAml(r) == [n[8]] + n[10..18]
  {
    hide Put16, Put32;
    assert n[8] == FieldAt(r, 0);
    forall i | 10 <= i < 18 ensures n[i] == ToAml(r)[1 + i - 10] { assert n[i] == FieldAt(r, i - HEAD); }
  }

  lemma Memory32Held(r: Resource, n: Bytes)
    requires r.Memory32? && Holds(n, r)
    ensures |n| >= 28 && ToAml(r) == [n[8]] + n[12..28]
  {
    hide Put16, Put32;
    assert n[8] == FieldAt(r, 0);
    forall i | 12 <= i < 28 ensures n[i] == ToAml(r)[1 + i - 12] { assert n[i] == FieldAt(r, i - HEAD); }
  }

  lemma FixedMemoryHeld(r: Resource, n: Bytes)
    requires r.FixedMemory? && Holds(n, r)
    ensures |n| >= 20 && ToAml(r) == [n[8]] + n[12..20]
  {
    hide Put16, Put32;
    assert n[8] == FieldAt(r, 0);
    forall i | 12 <= i < 20 ensures n[i] == ToAml(r)[1 + i - 12] { assert n[i] == FieldAt(r, i - HEAD); }
  }

  lemma StatusBit(r: Resource)
    requires Large(KindOfNative(r)) && InRange(r)
    ensures |ToAml(r)| > 0 && ToAml(r)[0] < 2
  {
    hide Put16, Put32;
  }

  lemma MemoryFirst(p: Program, n: Bytes, size: nat, d: Bytes)
    requires |p| > 1 && p[0] == Insn(BitField1, 3, 0, 0) && |n| > 8 && n[8] < 2 && |d| > 3 && d[3] == 0
    ensures RunAml(p, 0, n, size, d) == RunAml(p, 1, n, size, Poke(d, 3, [n[8]]))
  {
    FirstMerge(n[8]);
    hide RunAml, Or, Shl;
    assert d[3 := 0] == d;
    AmlMergeTo(p, 0, n, size, d, 3, 0, n[8]);
    PokeByte(d, 3, n[8]);
  }

  lemma Memory24Runs(n: Bytes, d: Bytes)
    requires |n| >= 18 && n[8] < 2 && |d| >= 12 && d[3] == 0
    ensures RunAml(MEMORY24, 0, n, 9, d) == Done(Poke(d, 3, [n[8]] + n[10..18]))
  {
    hide RunAml, Poke;
    MemoryFirst(MEMORY24, n, 9, d);
    AmlFieldMore(MEMORY24, 1, n, 9, d, 3, [n[8]], n[10..18]);
    AmlEnd(MEMORY24, 2, n, 9, Poke(d, 3, [n[8]] + n[10..18]));
  }

  lemma Memory32Runs(n: Bytes, d: Bytes)
    requires |n| >= 28 && n[8] < 2 && |d| >= 20 && d[3] == 0
    ensures RunAml(MEMORY32, 0, n, 17, d) == Done(Poke(d, 3, [n[8]] + n[12..28]))
  {
    hide RunAml, Poke;
    MemoryFirst(MEMORY32, n, 17, d);
    AmlFieldMore(MEMORY32, 1, n, 17, d, 3, [n[8]], n[12..28]);
    AmlEnd(MEMORY32, 2, n, 17, Poke(d, 3, [n[8]] + n[12..28]));
  }

  lemma FixedMemoryFields(n: Bytes, d: Bytes)
    requires |n| >= 20 && |d| >= 12
    ensures RunAml(FIXED_MEMORY, 1, n, 9, d) == Done(Poke(d, 4, n[12..20]))
  {
    hide RunAml;
    PokeNone(d, 4);
    AmlFieldMore(FIXED_MEMORY, 1, n, 9, d, 4, [], n[12..16]);
    assert [] + n[12..16] == n[12..16];
    AmlFieldMore(FIXED_MEMORY, 2, n, 9, d, 4, n[12..16], n[16..20]);
    assert n[12..16] + n[16..20] == n[12..20];
    AmlEnd(FIXED_MEMORY, 3, n, 9, Poke(d, 4, n[12..20]));
  }

  lemma FixedMemoryRuns(n: Bytes, d: Bytes)
    requires |n| >= 20 && n[8] < 2 && |d| >= 12 && d[3] == 0
    ensures RunAml(FIXED_MEMORY, 0, n, 9, d) == Done(Poke(d, 3, [n[8]] + n[12..20]))
  {
    hide RunAml;
    MemoryFirst(FIXED_MEMORY, n, 9, d);
    FixedMemoryFields(n, Poke(d, 3, [n[8]]));
    PokeMore(d, 3, [n[8]], n[12..20]);
  }

  lemma Memory24Encodes(r: Resource, n: Bytes, d: Bytes)
    requires r.Memory24? && InRange(r) && Holds(n, r) && Room(r, d)
    ensures Encodes(r, n, d)
  {
    RoomFor(r, d);
    StatusBit(r);
    Memory24Held(r, n);
    hide RunAml, Heading, ToAml, Holds, EncodeOne, Encodes, Headed, Poke, InRange, FieldAt;
    Memory24Runs(n, Headed(KMemory24, 9, d));
    Finish(r, n, d);
  }

  lemma Memory32Encodes(r: Resource, n: Bytes, d: Bytes)
    requires r.Memory32? && InRange(r) && Holds(n, r) && Room(r, d)
    ensures Encodes(r, n, d)
  {
    RoomFor(r, d);
    StatusBit(r);
    Memory32Held(r, n);
    hide RunAml, Heading, ToAml, Holds, EncodeOne, Encodes, Headed, Poke, InRange, FieldAt;
    Memory32Runs(n, Headed(KMemory32, 17, d));
    Finish(r, n, d);
  }

  lemma FixedMemoryEncodes(r: Resource, n: Bytes, d: Bytes)
    requires r.FixedMemory? && InRange(r) && Holds(n, r) && Room(r, d)
    ensures Encodes(r, n, d)
  {
    RoomFor(r, d);
    StatusBit(r);
    FixedMemoryHeld(r, n);
    hide RunAml, Heading, ToAml, Holds, EncodeOne, Encodes, Headed, Poke, InRange, FieldAt;
    FixedMemoryRuns(n, Headed(KFixedMemory, 9, d));
    Finish(r, n, d);
  }

  lemma EmptyEncodes(r: Resource, n: Bytes, d: Bytes)
    requires (r.EndDependent? || r.EndTag?) && Room(r, d)
    ensures Encodes(r, n, d)
  {
    RoomFor(r, d);
    Encoding(r);
    hide Heading, EncodeOne;
    var k := KindOfNative(r);
    var d0, len := Headed(k, AmlBodySize(r), d), |EncodeOne(r)|;
    assert d0[len..] == d[len..] by { assert d0[len..] == d0[1..][len - 1..] && d[len..] == d[1..][len - 1..]; }
    assert d0 == d0[..1] + d0[1..len] + d0[len..] && d0[1..len] == ToAml(r);
  }

  /** Every native resource, whatever its padding: its program runs without reaching
      outside the structure or the template and writes the descriptor of the resource. */
  lemma ProgramEncodes(r: Resource, n: Bytes, d: Bytes)
    requires InRange(r) && Holds(n, r) && Room(r, d)
    ensures Encodes(r, n, d)
  {
    hide Encodes, InRange, Holds, EncodeOne, Room;
    match r
    case Irq(_, _, _, _, _, _) => IrqEncodes(r, n, d);
    case Dma(_, _, _, _) => DmaEncodes(r, n, d);
    case StartDependent(_, _, _) => StartEncodes(r, n, d);
    case Io(_, _, _, _, _) => IoEncodes(r, n, d);
    case FixedIo(_, _) => FixedIoEncodes(r, n, d);
    case FixedDma(_, _, _) => FixedDmaEncodes(r, n, d);
    case Memory24(_, _, _, _, _) => Memory24Encodes(r, n, d);
    case Memory32(_, _, _, _, _) => Memory32Encodes(r, n, d);
    case FixedMemory(_, _, _) => FixedMemoryEncodes(r, n, d);
    case EndDependent => EmptyEncodes(r, n, d);
    case EndTag => EmptyEncodes(r, n, d);
  }
}
