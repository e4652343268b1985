/**
 The conversion programs between resource descriptors and native structures: the
 instructions, the tables, and the two interpreters as functions.
 */
module ResourcePrograms {
  import opened Common
  import opened ResourceCodec

  datatype Op =
    | End
    | PackedArray8 | PackedArray16
    | BitField1 | BitField2
    | Field8 | Field16 | Field32
    | SkipIfAmlSizeLess
    | SetToImm

  /** `f1` is an offset in the descriptor or the first argument, `f2` an offset in the
      native structure, `f3` an immediate value, a bit index or another offset. */
  datatype Insn = Insn(code: Op, f1: nat, f2: nat, f3: nat)

  type Program = seq<Insn>

  const STOP := Insn(End, 0, 0, 0)

  const DONT_CARE := 0
  const ONE_LESS := 1
  const FULL := 2

  const IRQ_TO_NATIVE: Program := [
    Insn(PackedArray16, 1, 6, 5),
    Insn(SkipIfAmlSizeLess, 3, 0, 6),
    Insn(SetToImm, 0, 0, FULL),
    Insn(BitField1, 3, 1, 0),
    Insn(BitField1, 3, 2, 3),
    Insn(BitField1, 3, 3, 4),
    Insn(BitField1, 3, 4, 5),
    STOP,
    Insn(SetToImm, 0, 0, ONE_LESS),
    Insn(SetToImm, 0, 1, EDGE),
    STOP]

  const IRQ_TO_AML: Program := [
    Insn(PackedArray16, 1, 6, 5),
    Insn(SkipIfAmlSizeLess, 3, 0, 4),
    Insn(BitField1, 3, 1, 0),
    Insn(BitField1, 3, 2, 3),
    Insn(BitField1, 3, 3, 4),
    Insn(BitField1, 3, 4, 5),
    STOP]

  const DMA: Program := [
    Insn(PackedArray8, 1, 4, 3),
    Insn(BitField2, 2, 0, 0),
    Insn(BitField1, 2, 1, 2),
    Insn(BitField2, 2, 2, 5),
    STOP]

  const START_TO_NATIVE: Program := [
    Insn(SkipIfAmlSizeLess, 1, 0, 4),
    Insn(SetToImm, 0, 0, FULL),
    Insn(BitField2, 1, 1, 0),
    Insn(BitField2, 1, 2, 2),
    STOP,
    Insn(SetToImm, 0, 0, ONE_LESS),
    Insn(SetToImm, 0, 1, ACCEPTABLE),
    Insn(SetToImm, 0, 2, ACCEPTABLE),
    STOP]

  const START_TO_AML: Program := [
    Insn(SkipIfAmlSizeLess, 1, 0, 1),
    Insn(BitField2, 1, 1, 0),
    Insn(BitField2, 1, 2, 2),
    STOP]

  const IO: Program := [
    Insn(BitField1, 1, 0, 0),
    Insn(Field16, 2, 2, 0),
    Insn(Field16, 4, 4, 0),
    Insn(Field8, 6, 6, 0),
    Insn(Field8, 7, 7, 0),
    STOP]

  const FIXED_IO: Program := [
    Insn(Field16, 1, 0, 0),
    Insn(Field8, 3, 2, 0),
    STOP]

  const FIXED_DMA: Program := [
    Insn(Field16, 1, 0, 0),
    Insn(Field16, 3, 2, 0),
    Insn(Field8, 5, 4, 0),
    STOP]

  const MEMORY24: Program := [
    Insn(BitField1, 3, 0, 0),
    Insn(Field16, 4, 2, 4),
    STOP]

  const MEMORY32: Program := [
    Insn(BitField1, 3, 0, 0),
    Insn(Field32, 4, 4, 4),
    STOP]

  const FIXED_MEMORY: Program := [
    Insn(BitField1, 3, 0, 0),
    Insn(Field32, 4, 4, 0),
    Insn(Field32, 8, 8, 0),
    STOP]

  /** The empty program stands for the missing one of the kinds that hold nothing. */
  function ToNativeProgram(k: Kind): Program {
    match k
    case KIrq => IRQ_TO_NATIVE case KDma => DMA case KStartDependent => START_TO_NATIVE
    case KIo => IO case KFixedIo => FIXED_IO case KFixedDma => FIXED_DMA
    case KMemory24 => MEMORY24 case KMemory32 => MEMORY32 case KFixedMemory => FIXED_MEMORY
    case _ => []
  }

  function ToAmlProgram(k: Kind): Program {
    match k
    case KIrq => IRQ_TO_AML case KStartDependent => START_TO_AML
    case _ => ToNativeProgram(k)
  }

  // -- What the instructions do ---------------------------------------------------------

  /** A run either ends, or it reaches outside one of its buffers or of its program. */
  datatype Outcome = Done(bytes: Bytes) | Fault

  /** Copying some bytes to an offset. */
  function Poke(n: Bytes, at: nat, src: Bytes): (r: Bytes)
    requires at + |src| <= |n|
    ensures |r| == |n| && forall i :: 0 <= i < |n| ==> r[i] == if at <= i < at + |src| then src[i - at] else n[i]
  {
    n[..at] + src + n[at + |src|..]
  }

  function Store(n: Bytes, at: nat, v: nat): Outcome { if at < |n| then Done(n[at := v]) else Fault }

  function Copy(n: Bytes, at: nat, src: Bytes, from: nat, count: nat): Outcome {
    if from + count <= |src| && at + count <= |n| then Done(Poke(n, at, src[from..from + count])) else Fault
  }

  /** Native fields come after the type and the length of the resource. */
  const HEAD := 8

  /** How many bytes a field instruction copies, the accumulator being zero. */
  function FieldBytes(i: Insn): nat {
    (match i.code case Field8 => 1 case Field16 => 2 case _ => 4) * Max(1, if i.f3 == 0xFF then 0 else i.f3)
  }

  function FieldWidth(i: Insn): nat { if i.code.BitField1? then 1 else 2 }

  /** The mask at the front of the bytes. */
  function MaskAt(i: Insn, d: Bytes): (v: nat)
    requires i.f1 + MaskBytes(i) <= |d|
  {
    if i.code.PackedArray16? then Le16(d, i.f1) else d[i.f1]
  }

  function MaskBytes(i: Insn): nat { if i.code.PackedArray16? then 2 else 1 }

  /** One instruction on the way from descriptor `d` to native structure `n`. */
  function ExecNative(i: Insn, d: Bytes, n: Bytes): Outcome {
    var at := HEAD + i.f2;
    match i.code
    case PackedArray8 => ExecUnpack(i, d, n)
    case PackedArray16 => ExecUnpack(i, d, n)
    case BitField1 => if i.f1 < |d| then Store(n, at, d[i.f1] / Pow2(i.f3) % Pow2(FieldWidth(i))) else Fault
    case BitField2 => if i.f1 < |d| then Store(n, at, d[i.f1] / Pow2(i.f3) % Pow2(FieldWidth(i))) else Fault
    case Field8 => Copy(n, at, d, i.f1, FieldBytes(i))
    case Field16 => Copy(n, at, d, i.f1, FieldBytes(i))
    case Field32 => Copy(n, at, d, i.f1, FieldBytes(i))
    case SetToImm => Store(n, at, i.f3)
    case SkipIfAmlSizeLess => Done(n)
    case End => Done(n)
  }

  function ExecUnpack(i: Insn, d: Bytes, n: Bytes): Outcome {
    if i.f1 + MaskBytes(i) > |d| then Fault
    else
      var list := BitsOf(MaskAt(i, d), 0, 8 * MaskBytes(i));
      if HEAD + i.f2 + |list| <= |n| then Store(Poke(n, HEAD + i.f2, list), HEAD + i.f3, |list|) else Fault
  }

  function Next(pc: nat, i: Insn, size: nat): nat {
    pc + 1 + if i.code.SkipIfAmlSizeLess? && size < i.f1 then i.f3 else 0
  }

  /** Running a program from `pc` on; `size` is the length of the descriptor's body. */
  function RunNative(p: Program, pc: nat, d: Bytes, size: nat, n: Bytes): Outcome
    decreases |p| - pc
  {
    if pc >= |p| then Fault
    else if p[pc].code.End? then Done(n)
    else
      var e := ExecNative(p[pc], d, n);
      if e.Fault? then Fault else RunNative(p, Next(pc, p[pc], size), d, size, e.bytes)
  }

  function Or(a: nat, b: nat): nat {
    if a == 0 then b else if b == 0 then a
    else (if a % 2 == 1 || b % 2 == 1 then 1 else 0) + 2 * Or(a / 2, b / 2)
  }

  function Shl(v: nat, bits: nat): nat { v * Pow2(bits) }

  /** The 16-bit mask with the listed bits set. */
  function Pack(list: seq<nat>): nat {
    if list == [] then 0 else Or(Pack(list[..|list|-1]), Pow2(list[|list|-1])) % 65536
  }

  /** One instruction on the way from native structure `n` to descriptor `d`. */
  function ExecAml(i: Insn, n: Bytes, d: Bytes): Outcome {
    var from := HEAD + i.f2;
    match i.code
    case PackedArray8 => ExecPack(i, n, d)
    case PackedArray16 => ExecPack(i, n, d)
    case BitField1 => ExecMerge(i, n, d)
    case BitField2 => ExecMerge(i, n, d)
    case Field8 => Copy(d, i.f1, n, from, FieldBytes(i))
    case Field16 => Copy(d, i.f1, n, from, FieldBytes(i))
    case Field32 => Copy(d, i.f1, n, from, FieldBytes(i))
    case SetToImm => Store(d, i.f1, i.f3)
    case SkipIfAmlSizeLess => Done(d)
    case End => Done(d)
  }

  function ExecPack(i: Insn, n: Bytes, d: Bytes): Outcome {
    if HEAD + i.f3 >= |n| || HEAD + i.f2 + n[HEAD + i.f3] > |n| then Fault
    else
      var mask := Pack(n[HEAD + i.f2..HEAD + i.f2 + n[HEAD + i.f3]]);
      Copy(d, i.f1, Put16(mask), 0, MaskBytes(i))
  }

  function ExecMerge(i: Insn, n: Bytes, d: Bytes): Outcome {
    if HEAD + i.f2 >= |n| || i.f1 >= |d| then Fault
    else Store(d, i.f1, Or(d[i.f1], Shl(n[HEAD + i.f2], i.f3)) % 256)
  }

  function RunAml(p: Program, pc: nat, n: Bytes, size: nat, d: Bytes): Outcome
    decreases |p| - pc
  {
    if pc >= |p| then Fault
    else if p[pc].code.End? then Done(d)
    else
      var e := ExecAml(p[pc], n, d);
      if e.Fault? then Fault else RunAml(p, Next(pc, p[pc], size), n, size, e.bytes)
  }

  // -- Native structures in memory ----------------------------------------------------------

  /** The source's resource type values. */
  function TypeCode(k: Kind): nat {
    match k
    case KIrq => 0 case KDma => 2 case KFixedDma => 3 case KIo => 4 case KFixedIo => 5
    case KMemory24 => 10 case KMemory32 => 11 case KFixedMemory => 12
    case KStartDependent => 13 case KEndDependent => 14 case KEnd => 29
    case KUnknown => 255
  }

  function LengthCode(l: LengthKind): nat { match l case DontCare => DONT_CARE case OneLess => ONE_LESS case Full => FULL }

  /** Byte `i` of the structure that holds a resource; padding is zero. */
  function FieldAt(r: Resource, i: nat): nat {
    match r
    case Irq(irqs, l, t, p, s, w) =>
      if i == 0 then LengthCode(l) else if i == 1 then t else if i == 2 then p else if i == 3 then s else if i == 4 then w
      else if i == 5 then |irqs| else if i < 6 + |irqs| then irqs[i - 6] else 0
    case Dma(channels, t, m, s) =>
      if i == 0 then t else if i == 1 then m else if i == 2 then s else if i == 3 then |channels|
      else if i < 4 + |channels| then channels[i - 4] else 0
    case StartDependent(l, c, p) => if i == 0 then LengthCode(l) else if i == 1 then c else if i == 2 then p else 0
    case Io(d, lo, hi, a, n) =>
      if i == 0 then d else if 2 <= i < 4 then Put16(lo)[i - 2] else if 4 <= i < 6 then Put16(hi)[i - 4]
      else if i == 6 then a else if i == 7 then n else 0
    case FixedIo(a, n) => if i < 2 then Put16(a)[i] else if i == 2 then n else 0
    case FixedDma(l, c, w) => if i < 2 then Put16(l)[i] else if i < 4 then Put16(c)[i - 2] else if i == 4 then w else 0
    case Memory24(s, lo, hi, a, n) =>
      if i == 0 then s else if 2 <= i < 10 then (Put16(lo) + Put16(hi) + Put16(a) + Put16(n))[i - 2] else 0
    case Memory32(s, lo, hi, a, n) =>
      if i == 0 then s else if 4 <= i < 20 then (Put32(lo) + Put32(hi) + Put32(a) + Put32(n))[i - 4] else 0
    case FixedMemory(s, b, n) =>
      if i == 0 then s else if 4 <= i < 8 then Put32(b)[i - 4] else if 8 <= i < 12 then Put32(n)[i - 8] else 0
    case EndDependent => 0
    case EndTag => 0
  }

  /** Bytes of the structure that hold nothing. */
  predicate Padding(k: Kind, i: nat) {
    match k
    case KIo => i == 1
    case KFixedIo => i == 3
    case KFixedDma => i == 5
    case KMemory24 => i == 1
    case KMemory32 => 1 <= i < 4
    case KFixedMemory => 1 <= i < 4
    case _ => false
  }

  /** The resource in memory, as the decoder leaves it. */
  function Layout(r: Resource): Bytes {
    var len := Length(r);
    Put32(TypeCode(KindOfNative(r))) + Put32(len) + seq(if len < HEAD then 0 else len - HEAD, i requires 0 <= i => FieldAt(r, i))
  }

  /** `n` holds resource `r`, whatever is in its padding. */
  ghost predicate Holds(n: Bytes, r: Resource) {
    && |n| >= NativeSize(KindOfNative(r)) + Entries(r)
    && Le32(n, 0) == TypeCode(KindOfNative(r)) && Le32(n, 4) == |n|
    && forall i :: HEAD <= i < NativeSize(KindOfNative(r)) + Entries(r) && !Padding(KindOfNative(r), i - HEAD) ==> n[i] == FieldAt(r, i - HEAD)
  }

  // -- From the descriptor to memory -----------------------------------------------------------

  function Zeros(n: nat): (z: Bytes)
    ensures |z| == n && forall i :: 0 <= i < n ==> z[i] == 0
  {
    seq(n, _ => 0)
  }

  /** A zeroed native buffer with its type and length filled in. */
  function Start(k: Kind, len: nat): Bytes
    requires len >= HEAD
  {
    Put32(TypeCode(k)) + Put32(len) + Zeros(len - HEAD)
  }

  function ConvertToNative(k: Kind, d: Bytes, size: nat, n: Bytes): Outcome {
    var p := ToNativeProgram(k);
    if p == [] then Done(n) else RunNative(p, 0, d, size, n)
  }

  /** A whole descriptor with a body of a fitting size. */
  ghost predicate Descriptor(k: Kind, d: Bytes) {
    !k.KUnknown? && |d| >= Header(k) && SizeFits(k, |d| - Header(k)) && InBytes(d)
  }

  function BodyOf(k: Kind, d: Bytes): Bytes
    requires |d| >= Header(k)
  {
    d[Header(k)..]
  }

  /** The interpreter makes of the descriptor what it means. */
  ghost predicate Converts(k: Kind, d: Bytes)
    requires Descriptor(k, d)
  {
    var r := ToNative(k, BodyOf(k, d));
    Length(r) >= HEAD && ConvertToNative(k, d, |d| - Header(k), Start(k, Length(r))) == Done(Layout(r))
  }

  lemma Powers2()
    ensures Pow2(0) == 1 && Pow2(1) == 2 && Pow2(2) == 4 && Pow2(3) == 8 && Pow2(4) == 16 && Pow2(5) == 32
  {
    assert Pow2(3) == 8;
  }

  lemma LengthFits(r: Resource)
    ensures Length(r) >= NativeSize(KindOfNative(r)) + Entries(r) && Length(r) >= HEAD
  {}

  // Single steps.

  lemma NativeBit(p: Program, pc: nat, d: Bytes, size: nat, n: Bytes)
    requires pc < |p| && (p[pc].code.BitField1? || p[pc].code.BitField2?) && p[pc].f1 < |d| && HEAD + p[pc].f2 < |n|
    ensures RunNative(p, pc, d, size, n) ==
      RunNative(p, pc + 1, d, size, n[HEAD + p[pc].f2 := d[p[pc].f1] / Pow2(p[pc].f3) % Pow2(FieldWidth(p[pc]))])
  {}

  lemma NativeField(p: Program, pc: nat, d: Bytes, size: nat, n: Bytes)
    requires pc < |p| && (p[pc].code.Field8? || p[pc].code.Field16? || p[pc].code.Field32?)
    requires p[pc].f1 + FieldBytes(p[pc]) <= |d| && HEAD + p[pc].f2 + FieldBytes(p[pc]) <= |n|
    ensures RunNative(p, pc, d, size, n) ==
      RunNative(p, pc + 1, d, size, Poke(n, HEAD + p[pc].f2, d[p[pc].f1..p[pc].f1 + FieldBytes(p[pc])]))
  {
    hide FieldBytes;
  }

  lemma NativeImm(p: Program, pc: nat, d: Bytes, size: nat, n: Bytes)
    requires pc < |p| && p[pc].code.SetToImm? && HEAD + p[pc].f2 < |n|
    ensures RunNative(p, pc, d, size, n) == RunNative(p, pc + 1, d, size, n[HEAD + p[pc].f2 := p[pc].f3])
  {}

  lemma NativeSkip(p: Program, pc: nat, d: Bytes, size: nat, n: Bytes)
    requires pc < |p| && p[pc].code.SkipIfAmlSizeLess?
    ensures RunNative(p, pc, d, size, n) == RunNative(p, pc + 1 + (if size < p[pc].f1 then p[pc].f3 else 0), d, size, n)
  {}

  lemma NativeUnpack(p: Program, pc: nat, d: Bytes, size: nat, n: Bytes)
    requires pc < |p| && (p[pc].code.PackedArray8? || p[pc].code.PackedArray16?) && p[pc].f1 + MaskBytes(p[pc]) <= |d|
    requires HEAD + p[pc].f2 + |BitsOf(MaskAt(p[pc], d), 0, 8 * MaskBytes(p[pc]))| <= |n| && HEAD + p[pc].f3 < |n|
    ensures var list := BitsOf(MaskAt(p[pc], d), 0, 8 * MaskBytes(p[pc]));
      RunNative(p, pc, d, size, n) == RunNative(p, pc + 1, d, size, Poke(n, HEAD + p[pc].f2, list)[HEAD + p[pc].f3 := |list|])
  {
    hide BitsOf;
  }

  lemma NativeEnd(p: Program, pc: nat, d: Bytes, size: nat, n: Bytes)
    requires pc < |p| && p[pc].code.End?
    ensures RunNative(p, pc, d, size, n) == Done(n)
  {}

  lemma PokeMore(n: Bytes, at: nat, a: Bytes, b: Bytes)
    requires at + |a| + |b| <= |n|
    ensures Poke(Poke(n, at, a), at + |a|, b) == Poke(n, at, a + b)
  {}

  lemma PokeNone(n: Bytes, at: nat)
    requires at <= |n|
    ensures Poke(n, at, []) == n
  {}

  lemma PokeByte(n: Bytes, at: nat, v: nat)
    requires at < |n|
    ensures n[at := v] == Poke(n, at, [v])
  {}

  /** A field copied right behind what has been written since `at`. */
  lemma NativeFieldMore(p: Program, pc: nat, d: Bytes, size: nat, n: Bytes, at: nat, done: Bytes, more: Bytes)
    requires pc < |p| && (p[pc].code.Field8? || p[pc].code.Field16? || p[pc].code.Field32?)
    requires p[pc].f1 + FieldBytes(p[pc]) <= |d| && more == d[p[pc].f1..p[pc].f1 + FieldBytes(p[pc])]
    requires HEAD + p[pc].f2 == at + |done| && at + |done| + |more| <= |n|
    ensures RunNative(p, pc, d, size, Poke(n, at, done)) == RunNative(p, pc + 1, d, size, Poke(n, at, done + more))
  {
    hide RunNative, FieldBytes;
    NativeField(p, pc, d, size, Poke(n, at, done));
    PokeMore(n, at, done, more);
  }

  lemma StartShape(k: Kind, len: nat)
    requires len >= HEAD
    ensures |Start(k, len)| == len && forall i :: HEAD <= i < len ==> Start(k, len)[i] == 0
  {}

  /** A buffer with the header of the resource and its fields is the resource. */
  lemma LayoutIs(r: Resource, n: Bytes)
    requires Length(r) >= HEAD && |n| == Length(r)
    requires forall i :: 0 <= i < HEAD ==> n[i] == Start(KindOfNative(r), Length(r))[i]
    requires forall i :: HEAD <= i < |n| ==> n[i] == FieldAt(r, i - HEAD)
    ensures n == Layout(r)
  {
    hide Put32, Length, FieldAt;
  }

  lemma IrqFullRuns(d: Bytes, n0: Bytes, list: Bytes) returns (n: Bytes)
    requires |d| == 4 && list == BitsOf(Le16(d, 1), 0, 16) && |n0| >= 14 + |list|
    ensures RunNative(IRQ_TO_NATIVE, 0, d, 3, n0) == Done(n) && |n| == |n0|
    ensures n[8..14] == [FULL, d[3] % 2, d[3] / 8 % 2, d[3] / 16 % 2, d[3] / 32 % 2, |list|]
    ensures n[14..14 + |list|] == list
    ensures forall i :: 0 <= i < |n| && !(8 <= i < 14 + |list|) ==> n[i] == n0[i]
  {
    hide RunNative, BitsOf, Pow2;
    Powers2();
    var p := IRQ_TO_NATIVE;
    NativeUnpack(p, 0, d, 3, n0);
    n := Poke(n0, 14, list)[13 := |list|];
    NativeSkip(p, 1, d, 3, n);
    NativeImm(p, 2, d, 3, n);
    n := n[8 := FULL];
    NativeBit(p, 3, d, 3, n);
    n := n[9 := d[3] / 1 % 2];
    NativeBit(p, 4, d, 3, n);
    n := n[10 := d[3] / 8 % 2];
    NativeBit(p, 5, d, 3, n);
    n := n[11 := d[3] / 16 % 2];
    NativeBit(p, 6, d, 3, n);
    n := n[12 := d[3] / 32 % 2];
    NativeEnd(p, 7, d, 3, n);
  }

  lemma IrqShortRuns(d: Bytes, n0: Bytes, list: Bytes) returns (n: Bytes)
    requires |d| == 3 && list == BitsOf(Le16(d, 1), 0, 16) && |n0| >= 14 + |list|
    ensures RunNative(IRQ_TO_NATIVE, 0, d, 2, n0) == Done(n) && |n| == |n0|
    ensures n[8] == ONE_LESS && n[9] == EDGE && n[13] == |list|
    ensures n[14..14 + |list|] == list
    ensures forall i :: 0 <= i < |n| && !(8 <= i < 10) && !(13 <= i < 14 + |list|) ==> n[i] == n0[i]
  {
    hide RunNative, BitsOf;
    var p := IRQ_TO_NATIVE;
    NativeUnpack(p, 0, d, 2, n0);
    n := Poke(n0, 14, list)[13 := |list|];
    NativeSkip(p, 1, d, 2, n);
    NativeImm(p, 8, d, 2, n);
    n := n[8 := ONE_LESS];
    NativeImm(p, 9, d, 2, n);
    n := n[9 := EDGE];
    NativeEnd(p, 10, d, 2, n);
  }

  lemma IrqMeans(d: Bytes, list: Bytes)
    requires Descriptor(KIrq, d) && list == BitsOf(Le16(d, 1), 0, 16)
    ensures ToNative(KIrq, BodyOf(KIrq, d)) ==
      if |d| == 4 then Irq(list, Full, d[3] % 2, d[3] / 8 % 2, d[3] / 16 % 2, d[3] / 32 % 2) else Irq(list, OneLess, EDGE, 0, 0, 0)
  {
    hide BitsOf;
  }

  lemma IrqConverts(d: Bytes)
    requires Descriptor(KIrq, d)
    ensures Converts(KIrq, d)
  {
    hide ToNative, RunNative, BitsOf, Start, Layout, Length;
    var r, list := ToNative(KIrq, BodyOf(KIrq, d)), BitsOf(Le16(d, 1), 0, 16);
    IrqMeans(d, list);
    LengthFits(r);
    StartShape(KIrq, Length(r));
    var n0 := Start(KIrq, Length(r));
    var n;
    if |d| == 4 {
      n := IrqFullRuns(d, n0, list);
      assert forall i :: 8 <= i < 14 ==> n[i] == n[8..14][i - 8];
    } else {
      n := IrqShortRuns(d, n0, list);
    }
    assert forall i :: 14 <= i < 14 + |list| ==> n[i] == n[14..14 + |list|][i - 14];
    LayoutIs(r, n);
  }

  lemma DmaRuns(d: Bytes, n0: Bytes, list: Bytes) returns (n: Bytes)
    requires |d| == 3 && list == BitsOf(d[1], 0, 8) && |n0| >= 12 + |list|
    ensures RunNative(DMA, 0, d, 2, n0) == Done(n) && |n| == |n0|
    ensures n[8..12] == [d[2] % 4, d[2] / 4 % 2, d[2] / 32 % 4, |list|]
    ensures n[12..12 + |list|] == list
    ensures forall i :: 0 <= i < |n| && !(8 <= i < 12 + |list|) ==> n[i] == n0[i]
  {
    hide RunNative, BitsOf, Pow2;
    Powers2();
    var p := DMA;
    NativeUnpack(p, 0, d, 2, n0);
    n := Poke(n0, 12, list)[11 := |list|];
    NativeBit(p, 1, d, 2, n);
    n := n[8 := d[2] / 1 % 4];
    NativeBit(p, 2, d, 2, n);
    n := n[9 := d[2] / 4 % 2];
    NativeBit(p, 3, d, 2, n);
    n := n[10 := d[2] / 32 % 4];
    NativeEnd(p, 4, d, 2, n);
  }

  lemma DmaMeans(d: Bytes, list: Bytes)
    requires Descriptor(KDma, d) && list == BitsOf(d[1], 0, 8)
    ensures ToNative(KDma, BodyOf(KDma, d)) == Dma(list, d[2] % 4, d[2] / 4 % 2, d[2] / 32 % 4)
  {
    hide BitsOf;
  }

  lemma DmaConverts(d: Bytes)
    requires Descriptor(KDma, d)
    ensures Converts(KDma, d)
  {
    hide ToNative, RunNative, BitsOf, Start, Layout, Length;
    var r, list := ToNative(KDma, BodyOf(KDma, d)), BitsOf(d[1], 0, 8);
    DmaMeans(d, list);
    LengthFits(r);
    StartShape(KDma, Length(r));
    var n := DmaRuns(d, Start(KDma, Length(r)), list);
    assert forall i :: 8 <= i < 12 ==> n[i] == n[8..12][i - 8];
    assert forall i :: 12 <= i < 12 + |list| ==> n[i] == n[12..12 + |list|][i - 12];
    LayoutIs(r, n);
  }

  lemma StartRuns(d: Bytes, n0: Bytes) returns (n: Bytes)
    requires 1 <= |d| <= 2 && |n0| >= 11
    ensures RunNative(START_TO_NATIVE, 0, d, |d| - 1, n0) == Done(n) && |n| == |n0|
    ensures n[8..11] == if |d| == 1 then [ONE_LESS, ACCEPTABLE, ACCEPTABLE] else [FULL, d[1] % 4, d[1] / 4 % 4]
    ensures forall i :: 0 <= i < |n| && !(8 <= i < 11) ==> n[i] == n0[i]
  {
    hide RunNative, Pow2;
    Powers2();
    var p, size := START_TO_NATIVE, |d| - 1;
    NativeSkip(p, 0, d, size, n0);
    if |d| == 1 {
      NativeImm(p, 5, d, size, n0);
      n := n0[8 := ONE_LESS];
      NativeImm(p, 6, d, size, n);
      n := n[9 := ACCEPTABLE];
      NativeImm(p, 7, d, size, n);
      n := n[10 := ACCEPTABLE];
      NativeEnd(p, 8, d, size, n);
    } else {
      NativeImm(p, 1, d, size, n0);
      n := n0[8 := FULL];
      NativeBit(p, 2, d, size, n);
      n := n[9 := d[1] / 1 % 4];
      NativeBit(p, 3, d, size, n);
      n := n[10 := d[1] / 4 % 4];
      NativeEnd(p, 4, d, size, n);
    }
  }

  lemma StartConverts(d: Bytes)
    requires Descriptor(KStartDependent, d)
    ensures Converts(KStartDependent, d)
  {
    var r := ToNative(KStartDependent, BodyOf(KStartDependent, d));
    hide ToNative, RunNative, Start, Layout, Length;
    LengthFits(r);
    StartShape(KStartDependent, Length(r));
    var n := StartRuns(d, Start(KStartDependent, Length(r)));
    assert forall i :: 8 <= i < 11 ==> n[i] == n[8..11][i - 8];
    LayoutIs(r, n);
  }

  lemma PutLe16(d: Bytes, at: nat)
    requires InBytes(d) && at + 2 <= |d|
    ensures Put16(Le16(d, at)) == d[at..at + 2]
  {}

  lemma PutLe32(d: Bytes, at: nat)
    requires InBytes(d) && at + 4 <= |d|
    ensures Put32(Le32(d, at)) == d[at..at + 4]
  {
    var lo, hi := Le16(d, at), Le16(d, at + 2);
    assert lo < 65536;
    PutLe16(d, at);
    PutLe16(d, at + 2);
    assert Le32(d, at) % 65536 == lo && Le32(d, at) / 65536 == hi;
    hide Put16, Le16;
  }

  lemma IoRuns(d: Bytes, n: Bytes)
    requires |d| == 8 && |n| >= 16
    ensures RunNative(IO, 0, d, 7, n) == Done(Poke(n[8 := d[1] % 2], 10, d[2..8]))
  {
    hide RunNative, Pow2;
    Powers2();
    NativeBit(IO, 0, d, 7, n);
    var n1 := n[8 := d[1] % 2];
    assert d[1] / 1 == d[1];
    PokeNone(n1, 10);
    NativeFieldMore(IO, 1, d, 7, n1, 10, [], d[2..4]);
    assert [] + d[2..4] == d[2..4];
    NativeFieldMore(IO, 2, d, 7, n1, 10, d[2..4], d[4..6]);
    assert d[2..4] + d[4..6] == d[2..6];
    NativeFieldMore(IO, 3, d, 7, n1, 10, d[2..6], d[6..7]);
    assert d[2..6] + d[6..7] == d[2..7];
    NativeFieldMore(IO, 4, d, 7, n1, 10, d[2..7], d[7..8]);
    assert d[2..7] + d[7..8] == d[2..8];
    NativeEnd(IO, 5, d, 7, Poke(n1, 10, d[2..8]));
  }

  lemma IoMeans(d: Bytes)
    requires Descriptor(KIo, d)
    ensures ToNative(KIo, BodyOf(KIo, d)) == Io(d[1] % 2, Le16(d, 2), Le16(d, 4), d[6], d[7])
  {}

  lemma IoConverts(d: Bytes)
    requires Descriptor(KIo, d)
    ensures Converts(KIo, d)
  {
    IoMeans(d);
    hide ToNative, RunNative, Start, Layout, Length, Put16, Le16;
    var r := ToNative(KIo, BodyOf(KIo, d));
    LengthFits(r);
    StartShape(KIo, Length(r));
    PutLe16(d, 2);
    PutLe16(d, 4);
    var n0 := Start(KIo, Length(r));
    IoRuns(d, n0);
    LayoutIs(r, Poke(n0[8 := d[1] % 2], 10, d[2..8]));
  }

  lemma FixedIoRuns(d: Bytes, n: Bytes)
    requires |d| == 4 && |n| >= 12
    ensures RunNative(FIXED_IO, 0, d, 3, n) == Done(Poke(n, 8, d[1..4]))
  {
    hide RunNative;
    PokeNone(n, 8);
    NativeFieldMore(FIXED_IO, 0, d, 3, n, 8, [], d[1..3]);
    assert [] + d[1..3] == d[1..3];
    NativeFieldMore(FIXED_IO, 1, d, 3, n, 8, d[1..3], d[3..4]);
    assert d[1..3] + d[3..4] == d[1..4];
    NativeEnd(FIXED_IO, 2, d, 3, Poke(n, 8, d[1..4]));
  }

  lemma FixedIoConverts(d: Bytes)
    requires Descriptor(KFixedIo, d)
    ensures Converts(KFixedIo, d)
  {
    assert ToNative(KFixedIo, BodyOf(KFixedIo, d)) == FixedIo(Le16(d, 1), d[3]);
    hide ToNative, RunNative, Start, Layout, Length, Put16, Le16;
    var r := ToNative(KFixedIo, BodyOf(KFixedIo, d));
    LengthFits(r);
    StartShape(KFixedIo, Length(r));
    PutLe16(d, 1);
    var n0 := Start(KFixedIo, Length(r));
    FixedIoRuns(d, n0);
    LayoutIs(r, Poke(n0, 8, d[1..4]));
  }

  lemma FixedDmaRuns(d: Bytes, n: Bytes)
    requires |d| == 6 && |n| >= 14
    ensures RunNative(FIXED_DMA, 0, d, 5, n) == Done(Poke(n, 8, d[1..6]))
  {
    hide RunNative;
    PokeNone(n, 8);
    NativeFieldMore(FIXED_DMA, 0, d, 5, n, 8, [], d[1..3]);
    assert [] + d[1..3] == d[1..3];
    NativeFieldMore(FIXED_DMA, 1, d, 5, n, 8, d[1..3], d[3..5]);
    assert d[1..3] + d[3..5] == d[1..5];
    NativeFieldMore(FIXED_DMA, 2, d, 5, n, 8, d[1..5], d[5..6]);
    assert d[1..5] + d[5..6] == d[1..6];
    NativeEnd(FIXED_DMA, 3, d, 5, Poke(n, 8, d[1..6]));
  }

  lemma FixedDmaConverts(d: Bytes)
    requires Descriptor(KFixedDma, d)
    ensures Converts(KFixedDma, d)
  {
    assert ToNative(KFixedDma, BodyOf(KFixedDma, d)) == FixedDma(Le16(d, 1), Le16(d, 3), d[5]);
    hide ToNative, RunNative, Start, Layout, Length, Put16, Le16;
    var r := ToNative(KFixedDma, BodyOf(KFixedDma, d));
    LengthFits(r);
    StartShape(KFixedDma, Length(r));
    PutLe16(d, 1);
    PutLe16(d, 3);
    var n0 := Start(KFixedDma, Length(r));
    FixedDmaRuns(d, n0);
    LayoutIs(r, Poke(n0, 8, d[1..6]));
  }

  lemma Memory24Converts(d: Bytes)
    requires Descriptor(KMemory24, d)
    ensures Converts(KMemory24, d)
  {
    assert ToNative(KMemory24, BodyOf(KMemory24, d)) == Memory24(d[3] % 2, Le16(d, 4), Le16(d, 6), Le16(d, 8), Le16(d, 10));
    hide ToNative, RunNative, Start, Layout, Length, Put16, Le16, Pow2;
    Powers2();
    var r := ToNative(KMemory24, BodyOf(KMemory24, d));
    LengthFits(r);
    StartShape(KMemory24, Length(r));
    PutLe16(d, 4);
    PutLe16(d, 6);
    PutLe16(d, 8);
    PutLe16(d, 10);
    assert Put16(Le16(d, 4)) + Put16(Le16(d, 6)) + Put16(Le16(d, 8)) + Put16(Le16(d, 10)) == d[4..12];
    var n0 := Start(KMemory24, Length(r));
    NativeBit(MEMORY24, 0, d, 9, n0);
    var n := n0[8 := d[3] / 1 % 2];
    NativeField(MEMORY24, 1, d, 9, n);
    n := Poke(n, 10, d[4..12]);
    NativeEnd(MEMORY24, 2, d, 9, n);
    LayoutIs(r, n);
  }

  lemma Memory32Converts(d: Bytes)
    requires Descriptor(KMemory32, d)
    ensures Converts(KMemory32, d)
  {
    assert ToNative(KMemory32, BodyOf(KMemory32, d)) == Memory32(d[3] % 2, Le32(d, 4), Le32(d, 8), Le32(d, 12), Le32(d, 16));
    hide ToNative, RunNative, Start, Layout, Length, Put32, Le32, Pow2;
    Powers2();
    var r := ToNative(KMemory32, BodyOf(KMemory32, d));
    LengthFits(r);
    StartShape(KMemory32, Length(r));
    PutLe32(d, 4);
    PutLe32(d, 8);
    PutLe32(d, 12);
    PutLe32(d, 16);
    assert Put32(Le32(d, 4)) + Put32(Le32(d, 8)) + Put32(Le32(d, 12)) + Put32(Le32(d, 16)) == d[4..20];
    var n0 := Start(KMemory32, Length(r));
    NativeBit(MEMORY32, 0, d, 17, n0);
    var n := n0[8 := d[3] / 1 % 2];
    NativeField(MEMORY32, 1, d, 17, n);
    n := Poke(n, 12, d[4..20]);
    NativeEnd(MEMORY32, 2, d, 17, n);
    LayoutIs(r, n);
  }

  lemma FixedMemoryConverts(d: Bytes)
    requires Descriptor(KFixedMemory, d)
    ensures Converts(KFixedMemory, d)
  {
    assert ToNative(KFixedMemory, BodyOf(KFixedMemory, d)) == FixedMemory(d[3] % 2, Le32(d, 4), Le32(d, 8));
    hide ToNative, RunNative, Start, Layout, Length, Put32, Le32, Pow2;
    Powers2();
    var r := ToNative(KFixedMemory, BodyOf(KFixedMemory, d));
    LengthFits(r);
    StartShape(KFixedMemory, Length(r));
    PutLe32(d, 4);
    PutLe32(d, 8);
    var n0 := Start(KFixedMemory, Length(r));
    NativeBit(FIXED_MEMORY, 0, d, 9, n0);
    var n := n0[8 := d[3] / 1 % 2];
    NativeField(FIXED_MEMORY, 1, d, 9, n);
    n := Poke(n, 12, d[4..8]);
    NativeField(FIXED_MEMORY, 2, d, 9, n);
    n := Poke(n, 16, d[8..12]);
    NativeEnd(FIXED_MEMORY, 3, d, 9, n);
    LayoutIs(r, n);
  }

  /** Every descriptor: its program runs without reaching outside the descriptor or the
      native structure, and leaves in memory exactly the resource the descriptor means. */
  lemma ProgramConverts(k: Kind, d: Bytes)
    requires Descriptor(k, d)
    ensures Converts(k, d)
  {
    hide Converts;
    match k
    case KIrq => IrqConverts(d);
    case KDma => DmaConverts(d);
    case KStartDependent => StartConverts(d);
    case KIo => IoConverts(d);
    case KFixedIo => FixedIoConverts(d);
    case KFixedDma => FixedDmaConverts(d);
    case KMemory24 => Memory24Converts(d);
    case KMemory32 => Memory32Converts(d);
    case KFixedMemory => FixedMemoryConverts(d);
    case KEndDependent => EmptyConverts(k, d);
    case KEnd => EmptyConverts(k, d);
  }

  lemma EmptyConverts(k: Kind, d: Bytes)
    requires Descriptor(k, d) && (k.KEndDependent? || k.KEnd?)
    ensures Converts(k, d)
  {
    var r := ToNative(k, BodyOf(k, d));
    hide Put32;
    LayoutIs(r, Start(k, Length(r)));
  }
}
