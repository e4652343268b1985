/**
 ACPI resource templates (section 6.4 of ACPI 6.5): converting the descriptors to
 native resources and back.
 */
module ResourceCodec {

  type Bytes = seq<nat>

  ghost predicate InBytes(s: Bytes) { forall i :: 0 <= i < |s| ==> s[i] < 256 }

  // -- Masks and lists ------------------------------------------------------------------

  /** The positions of the set bits of `v`, lowest first, counting from `i`. */
  function BitsOf(v: nat, i: nat, width: nat): seq<nat>
    decreases width
  {
    if width == 0 then [] else (if v % 2 == 1 then [i] else []) + BitsOf(v / 2, i + 1, width - 1)
  }

  /** The value whose bit `k` is set exactly when `i + k` is listed. */
  function MaskOf(list: seq<nat>, i: nat, width: nat): nat
    decreases width
  {
    if width == 0 then 0 else (if i in list then 1 else 0) + 2 * MaskOf(list, i + 1, width - 1)
  }

  function Pow2(n: nat): (r: nat)
    ensures r > 0
  {
    if n == 0 then 1 else 2 * Pow2(n - 1)
  }

  /** Strictly ascending, between `lo` and `hi`. */
  ghost predicate Ascending(list: seq<nat>, lo: nat, hi: nat) {
    list != [] ==> lo <= list[0] < hi && Ascending(list[1..], list[0] + 1, hi)
  }

  lemma {:induction false} AscendingMeans(list: seq<nat>, lo: nat, hi: nat, i: nat, j: nat)
    requires Ascending(list, lo, hi) && i <= j < |list|
    ensures lo <= list[i] < hi && (i < j ==> list[i] < list[j])
    decreases |list|
  {
    if i > 0 {
      AscendingMeans(list[1..], list[0] + 1, hi, i - 1, j - 1);
    } else if j > 0 {
      AscendingMeans(list[1..], list[0] + 1, hi, 0, j - 1);
      AscendingMeans(list[1..], list[0] + 1, hi, j - 1, j - 1);
    }
  }

  /** A mask becomes a strictly ascending list. */
  lemma {:induction false} BitsAscend(v: nat, i: nat, width: nat)
    ensures Ascending(BitsOf(v, i, width), i, i + width)
    decreases width
  {
    if width > 0 {
      var rest := BitsOf(v / 2, i + 1, width - 1);
      BitsAscend(v / 2, i + 1, width - 1);
      assert ([i] + rest)[1..] == rest && [] + rest == rest;
    }
  }

  /** Nothing below the bound is listed. */
  lemma NotBelow(list: seq<nat>, lo: nat, hi: nat, x: nat)
    requires Ascending(list, lo, hi) && x in list
    ensures lo <= x < hi
  {
    var p :| 0 <= p < |list| && list[p] == x;
    AscendingMeans(list, lo, hi, p, p);
  }

  lemma {:induction false} MaskSame(a: seq<nat>, b: seq<nat>, i: nat, width: nat)
    requires forall k :: i <= k < i + width ==> (k in a <==> k in b)
    ensures MaskOf(a, i, width) == MaskOf(b, i, width)
    decreases width
  {
    if width > 0 { MaskSame(a, b, i + 1, width - 1); }
  }

  /** The list becomes the mask again. */
  lemma {:induction false} MaskOfBits(v: nat, i: nat, width: nat)
    requires v < Pow2(width)
    ensures MaskOf(BitsOf(v, i, width), i, width) == v
    decreases width
  {
    if width > 0 {
      var rest := BitsOf(v / 2, i + 1, width - 1);
      MaskOfBits(v / 2, i + 1, width - 1);
      FirstBit(v, i, width);
      hide BitsOf, Pow2;
      MaskSame(BitsOf(v, i, width), rest, i + 1, width - 1);
    }
  }

  lemma FirstBit(v: nat, i: nat, width: nat)
    requires width > 0
    ensures var list, rest := BitsOf(v, i, width), BitsOf(v / 2, i + 1, width - 1);
      (i in list <==> v % 2 == 1) && forall k :: k > i ==> (k in list <==> k in rest)
  {
    var rest := BitsOf(v / 2, i + 1, width - 1);
    BitsAscend(v / 2, i + 1, width - 1);
    if i in rest { NotBelow(rest, i + 1, i + width, i); }
  }

  function Rest(list: seq<nat>, i: nat): seq<nat> { if list != [] && list[0] == i then list[1..] else list }

  lemma AscendingRest(list: seq<nat>, i: nat, hi: nat)
    requires Ascending(list, i, hi)
    ensures Ascending(Rest(list, i), i + 1, hi)
    ensures list == (if i in list then [i] else []) + Rest(list, i)
    ensures forall k :: k != i ==> (k in list <==> k in Rest(list, i))
  {
    if list != [] && list[0] == i {
      assert list == [i] + list[1..];
    } else if i in list {
      NotBelow(list, i + 1, hi, i);
    }
  }

  lemma BitsStep(bit: bool, m: nat, i: nat, width: nat)
    requires width > 0
    ensures BitsOf((if bit then 1 else 0) + 2 * m, i, width) == (if bit then [i] else []) + BitsOf(m, i + 1, width - 1)
  {
    var v := (if bit then 1 else 0) + 2 * m;
    assert v / 2 == m;
  }

  lemma {:induction false} MaskBound(list: seq<nat>, i: nat, width: nat)
    ensures MaskOf(list, i, width) < Pow2(width)
    decreases width
  {
    if width > 0 { MaskBound(list, i + 1, width - 1); }
  }

  lemma MaskStep(list: seq<nat>, rest: seq<nat>, i: nat, width: nat)
    requires width > 0 && forall k :: k != i ==> (k in list <==> k in rest)
    ensures MaskOf(list, i, width) == (if i in list then 1 else 0) + 2 * MaskOf(rest, i + 1, width - 1)
  {
    MaskSame(list, rest, i + 1, width - 1);
  }

  lemma NoBits(list: seq<nat>, i: nat)
    requires Ascending(list, i, i)
    ensures list == [] && BitsOf(MaskOf(list, i, 0), i, 0) == []
  {}

  /** Every ascending list survives the way through a mask. */
  lemma {:induction false} BitsOfMask(list: seq<nat>, i: nat, width: nat)
    requires Ascending(list, i, i + width)
    ensures BitsOf(MaskOf(list, i, width), i, width) == list
    decreases width
  {
    hide MaskOf, Ascending, Rest, BitsOf;
    if width == 0 {
      NoBits(list, i);
    } else {
      AscendingRest(list, i, i + width);
      var rest := Rest(list, i);
      MaskStep(list, rest, i, width);
      BitsOfMask(rest, i + 1, width - 1);
      BitsStep(i in list, MaskOf(rest, i + 1, width - 1), i, width);
    }
  }

  /** The extra space a mask needs is exactly the number of entries it unpacks to. */
  method ExtraSize(value: nat, width: nat) returns (n: nat)
    ensures n == |BitsOf(value, 0, width)|
  {
    n := 0;
    var v := value;
    for i := 0 to width
      invariant n + |BitsOf(v, i, width - i)| == |BitsOf(value, 0, width)|
    {
      if v % 2 == 1 { n := n + 1; }
      v := v / 2;
    }
  }

  // -- Resources ----------------------------------------------------------------------------

  datatype LengthKind = DontCare | OneLess | Full

  datatype Resource =
    | Irq(irqs: seq<nat>, lengthKind: LengthKind, triggering: nat, polarity: nat, sharing: nat, wake: nat)
    | Dma(channels: seq<nat>, transferType: nat, busMaster: nat, speed: nat)
    | Io(decode: nat, minimum: nat, maximum: nat, alignment: nat, length: nat)
    | FixedIo(address: nat, length: nat)
    | FixedDma(requestLine: nat, channel: nat, width: nat)
    | FixedMemory(writeStatus: nat, base: nat, size: nat)
    | Memory24(writeStatus: nat, minimum: nat, maximum: nat, alignment: nat, length: nat)
    | Memory32(writeStatus: nat, minimum: nat, maximum: nat, alignment: nat, length: nat)
    | StartDependent(lengthKind: LengthKind, compatibility: nat, performance: nat)
    | EndDependent
    | EndTag

  datatype Kind =
    | KIrq | KDma | KStartDependent | KEndDependent | KIo | KFixedIo | KFixedDma
    | KMemory24 | KMemory32 | KFixedMemory | KEnd | KUnknown

  const EDGE := 1
  const ACCEPTABLE := 1

  predicate Large(k: Kind) { k.KMemory24? || k.KMemory32? || k.KFixedMemory? }

  function KindOf(tag: nat): Kind {
    if tag >= 0x80 then
      match tag
      case 0x81 => KMemory24 case 0x85 => KMemory32 case 0x86 => KFixedMemory
      case _ => KUnknown
    else match tag / 8 % 16
      case 4 => KIrq case 5 => KDma case 6 => KStartDependent case 7 => KEndDependent
      case 8 => KIo case 9 => KFixedIo case 10 => KFixedDma case 15 => KEnd
      case _ => KUnknown
  }

  function Header(k: Kind): nat { if Large(k) then 3 else 1 }

  /** The full size of a descriptor's body. */
  function BodySize(k: Kind): nat {
    match k
    case KIrq => 3 case KDma => 2 case KStartDependent => 1 case KEndDependent => 0
    case KIo => 7 case KFixedIo => 3 case KFixedDma => 5
    case KMemory24 => 9 case KMemory32 => 17 case KFixedMemory => 9 case KEnd => 1
    case KUnknown => 0
  }

  /** Two kinds have a form without the flags byte. */
  predicate OneLessFits(k: Kind) { k.KIrq? || k.KStartDependent? }

  predicate SizeFits(k: Kind, n: nat) { n == BodySize(k) || (OneLessFits(k) && n == BodySize(k) - 1) }

  function Le16(s: Bytes, at: nat): nat
    requires at + 2 <= |s|
  {
    s[at] + 256 * s[at + 1]
  }

  function Le32(s: Bytes, at: nat): nat
    requires at + 4 <= |s|
  {
    Le16(s, at) + 65536 * Le16(s, at + 2)
  }

  function Put16(v: nat): (b: Bytes)
    ensures |b| == 2
  {
    [v % 256, v / 256]
  }

  function Put32(v: nat): (b: Bytes)
    ensures |b| == 4
  {
    Put16(v % 65536) + Put16(v / 65536)
  }

  /** One descriptor, body to native. */
  function ToNative(k: Kind, b: Bytes): Resource
    requires !k.KUnknown? && SizeFits(k, |b|)
  {
    match k
    case KIrq =>
      var irqs := BitsOf(Le16(b, 0), 0, 16);
      if |b| < 3 then Irq(irqs, OneLess, EDGE, 0, 0, 0)
      else Irq(irqs, Full, b[2] % 2, b[2] / 8 % 2, b[2] / 16 % 2, b[2] / 32 % 2)
    case KDma => Dma(BitsOf(b[0], 0, 8), b[1] % 4, b[1] / 4 % 2, b[1] / 32 % 4)
    case KIo => Io(b[0] % 2, Le16(b, 1), Le16(b, 3), b[5], b[6])
    case KFixedIo => FixedIo(Le16(b, 0), b[2])
    case KFixedDma => FixedDma(Le16(b, 0), Le16(b, 2), b[4])
    case KFixedMemory => FixedMemory(b[0] % 2, Le32(b, 1), Le32(b, 5))
    case KMemory24 => Memory24(b[0] % 2, Le16(b, 1), Le16(b, 3), Le16(b, 5), Le16(b, 7))
    case KMemory32 => Memory32(b[0] % 2, Le32(b, 1), Le32(b, 5), Le32(b, 9), Le32(b, 13))
    case KStartDependent =>
      if |b| < 1 then StartDependent(OneLess, ACCEPTABLE, ACCEPTABLE) else StartDependent(Full, b[0] % 4, b[0] / 4 % 4)
    case KEndDependent => EndDependent
    case KEnd => EndTag
  }

  /** What native resources made by the decoder look like. */
  ghost predicate InRange(r: Resource) {
    match r
    case Irq(irqs, _, t, p, s, w) => Ascending(irqs, 0, 16) && t < 2 && p < 2 && s < 2 && w < 2
    case Dma(channels, t, m, s) => Ascending(channels, 0, 8) && t < 4 && m < 2 && s < 4
    case Io(d, lo, hi, a, n) => d < 2 && lo < 65536 && hi < 65536 && a < 256 && n < 256
    case FixedIo(a, n) => a < 65536 && n < 256
    case FixedDma(l, c, w) => l < 65536 && c < 65536 && w < 256
    case FixedMemory(s, b, n) => s < 2 && b < 0x1_0000_0000 && n < 0x1_0000_0000
    case Memory24(s, lo, hi, a, n) => s < 2 && lo < 65536 && hi < 65536 && a < 65536 && n < 65536
    case Memory32(s, lo, hi, a, n) =>
      s < 2 && lo < 0x1_0000_0000 && hi < 0x1_0000_0000 && a < 0x1_0000_0000 && n < 0x1_0000_0000
    case StartDependent(_, c, p) => c < 4 && p < 4
    case EndDependent => true
    case EndTag => true
  }

  function KindOfNative(r: Resource): Kind {
    match r
    case Irq(_, _, _, _, _, _) => KIrq case Dma(_, _, _, _) => KDma case Io(_, _, _, _, _) => KIo
    case FixedIo(_, _) => KFixedIo case FixedDma(_, _, _) => KFixedDma case FixedMemory(_, _, _) => KFixedMemory
    case Memory24(_, _, _, _, _) => KMemory24 case Memory32(_, _, _, _, _) => KMemory32
    case StartDependent(_, _, _) => KStartDependent case EndDependent => KEndDependent
    case EndTag => KEnd
  }

  /** When the short form is used.  For an interrupt, the wake capability is not looked at. */
  predicate Short(r: Resource) {
    || (r.Irq? && !r.lengthKind.Full? && r.triggering == EDGE && r.polarity == 0 && r.sharing == 0)
    || (r.StartDependent? && !r.lengthKind.Full? && r.compatibility == ACCEPTABLE && r.performance == ACCEPTABLE)
  }

  function AmlBodySize(r: Resource): nat { BodySize(KindOfNative(r)) - if Short(r) then 1 else 0 }

  lemma ToNativeInRange(k: Kind, b: Bytes)
    requires !k.KUnknown? && SizeFits(k, |b|) && InBytes(b)
    ensures InRange(ToNative(k, b)) && KindOfNative(ToNative(k, b)) == k && AmlBodySize(ToNative(k, b)) == |b|
  {
    hide BitsOf, Ascending;
    if k.KIrq? { BitsAscend(Le16(b, 0), 0, 16); }
    if k.KDma? { BitsAscend(b[0], 0, 8); }
  }

  /** One native resource, to the body of its descriptor. */
  function ToAml(r: Resource): Bytes {
    match r
    case Irq(irqs, _, t, p, s, w) =>
      Put16(MaskOf(irqs, 0, 16)) + if Short(r) then [] else [t + 8 * p + 16 * s + 32 * w]
    case Dma(channels, t, m, s) => [MaskOf(channels, 0, 8), t + 4 * m + 32 * s]
    case Io(d, lo, hi, a, n) => [d] + Put16(lo) + Put16(hi) + [a, n]
    case FixedIo(a, n) => Put16(a) + [n]
    case FixedDma(l, c, w) => Put16(l) + Put16(c) + [w]
    case FixedMemory(s, b, n) => [s] + Put32(b) + Put32(n)
    case Memory24(s, lo, hi, a, n) => [s] + Put16(lo) + Put16(hi) + Put16(a) + Put16(n)
    case Memory32(s, lo, hi, a, n) => [s] + Put32(lo) + Put32(hi) + Put32(a) + Put32(n)
    case StartDependent(_, c, p) => if Short(r) then [] else [c + 4 * p]
    case EndDependent => []
    case EndTag => [0]
  }

  lemma Powers()
    ensures Pow2(8) == 256 && Pow2(16) == 65536
  {
    assert Pow2(4) == 16;
    assert Pow2(8) == 256;
    assert Pow2(12) == 4096;
  }

  lemma Put16Back(v: nat, before: Bytes, after: Bytes)
    requires v < 65536
    ensures Le16(before + Put16(v) + after, |before|) == v
  {
    var s := before + Put16(v) + after;
    assert s[|before|] == v % 256 && s[|before| + 1] == v / 256;
  }

  lemma Put32Back(v: nat, before: Bytes, after: Bytes)
    requires v < 0x1_0000_0000
    ensures Le32(before + Put32(v) + after, |before|) == v
  {
    var lo, hi := Put16(v % 65536), Put16(v / 65536);
    var s := before + Put32(v) + after;
    assert s == before + lo + (hi + after) && s == (before + lo) + hi + after;
    Put16Back(v % 65536, before, hi + after);
    Put16Back(v / 65536, before + lo, after);
  }

  /** What comes back for a resource that was encoded: the length kind records the form
      that was used, and an interrupt in the short form is not wake capable. */
  function Settled(r: Resource): Resource {
    match r
    case Irq(irqs, _, t, p, s, w) => if Short(r) then Irq(irqs, OneLess, t, p, s, 0) else Irq(irqs, Full, t, p, s, w)
    case StartDependent(_, c, p) => StartDependent(if Short(r) then OneLess else Full, c, p)
    case _ => r
  }

  /** Everything but the length kind. */
  function Content(r: Resource): Resource {
    match r
    case Irq(irqs, _, t, p, s, w) => Irq(irqs, DontCare, t, p, s, w)
    case StartDependent(_, c, p) => StartDependent(DontCare, c, p)
    case _ => r
  }

  /** A wake-capable interrupt that qualifies for the short form. */
  predicate LosesWake(r: Resource) { r.Irq? && Short(r) && r.wake == 1 }

  /** Encoding and decoding keeps the content of a resource exactly if it is not a
      wake-capable interrupt that qualifies for the short form. */
  lemma ContentBackIff(r: Resource)
    requires InRange(r)
    ensures SizeFits(KindOfNative(r), |ToAml(r)|)
    ensures Content(ToNative(KindOfNative(r), ToAml(r))) == Content(r) <==> !LosesWake(r)
  {
    BodyBack(r);
    hide ToAml, ToNative;
  }

  /** An edge-triggered, active-high, exclusive, wake-capable interrupt comes back without
      its wake capability. */
  lemma WakeLost()
    ensures var r := Irq([], DontCare, EDGE, 0, 0, 1);
      InRange(r) && SizeFits(KIrq, |ToAml(r)|) && ToNative(KIrq, ToAml(r)).Irq? && ToNative(KIrq, ToAml(r)).wake == 0
  {
    BodyBack(Irq([], DontCare, EDGE, 0, 0, 1));
    hide ToAml, ToNative;
  }

  lemma IrqBack(r: Resource)
    requires InRange(r) && r.Irq?
    ensures SizeFits(KIrq, |ToAml(r)|) && |ToAml(r)| == AmlBodySize(r) && ToNative(KIrq, ToAml(r)) == Settled(r)
  {
    hide BitsOf, MaskOf, Pow2, Ascending;
    BitsOfMask(r.irqs, 0, 16);
    MaskBound(r.irqs, 0, 16);
    Powers();
    var m := MaskOf(r.irqs, 0, 16);
    var b := ToAml(r);
    assert b[0] == m % 256 && b[1] == m / 256;
    if !Short(r) {
      var f := r.triggering + 8 * r.polarity + 16 * r.sharing + 32 * r.wake;
      assert b[2] == f;
      FlagsBack(r.triggering, r.polarity, r.sharing, r.wake);
    }
  }

  lemma FlagsBack(t: nat, p: nat, s: nat, w: nat)
    requires t < 2 && p < 2 && s < 2 && w < 2
    ensures var f := t + 8 * p + 16 * s + 32 * w; f % 2 == t && f / 8 % 2 == p && f / 16 % 2 == s && f / 32 % 2 == w
  {}

  lemma DmaBack(r: Resource)
    requires InRange(r) && r.Dma?
    ensures |ToAml(r)| == 2 && ToNative(KDma, ToAml(r)) == r
  {
    hide BitsOf, MaskOf, Pow2, Ascending;
    BitsOfMask(r.channels, 0, 8);
    MaskBound(r.channels, 0, 8);
    Powers();
    var f := r.transferType + 4 * r.busMaster + 32 * r.speed;
    assert f % 4 == r.transferType && f / 4 % 2 == r.busMaster && f / 32 % 4 == r.speed;
  }

  lemma IoBack(r: Resource)
    requires InRange(r) && r.Io?
    ensures |ToAml(r)| == 7 && ToNative(KIo, ToAml(r)) == r
  {
    var b := ToAml(r);
    assert b[1] == r.minimum % 256 && b[2] == r.minimum / 256 && b[3] == r.maximum % 256 && b[4] == r.maximum / 256;
  }

  lemma FixedBack(r: Resource)
    requires InRange(r) && (r.FixedIo? || r.FixedDma? || r.EndTag?)
    ensures |ToAml(r)| == BodySize(KindOfNative(r)) && ToNative(KindOfNative(r), ToAml(r)) == r
  {}

  lemma StartBack(r: Resource)
    requires InRange(r) && (r.StartDependent? || r.EndDependent?)
    ensures |ToAml(r)| == AmlBodySize(r) && ToNative(KindOfNative(r), ToAml(r)) == Settled(r)
  {
    if r.StartDependent? { assert (r.compatibility + 4 * r.performance) / 4 % 4 == r.performance; }
  }

  lemma Memory24Back(r: Resource)
    requires InRange(r) && r.Memory24?
    ensures |ToAml(r)| == 9 && ToNative(KMemory24, ToAml(r)) == r
  {
    hide Put16;
    var s, a, b, c, d := [r.writeStatus], Put16(r.minimum), Put16(r.maximum), Put16(r.alignment), Put16(r.length);
    Put16Back(r.minimum, s, b + c + d);
    Put16Back(r.maximum, s + a, c + d);
    Put16Back(r.alignment, s + a + b, d);
    Put16Back(r.length, s + a + b + c, []);
    hide Le16;
    var all := ToAml(r);
    assert all == s + a + (b + c + d) && all == s + a + b + (c + d) && all == s + a + b + c + d && all == s + a + b + c + d + [];
  }

  lemma Memory32Back(r: Resource)
    requires InRange(r) && r.Memory32?
    ensures |ToAml(r)| == 17 && ToNative(KMemory32, ToAml(r)) == r
  {
    hide Put32;
    var s, a, b, c, d := [r.writeStatus], Put32(r.minimum), Put32(r.maximum), Put32(r.alignment), Put32(r.length);
    Put32Back(r.minimum, s, b + c + d);
    Put32Back(r.maximum, s + a, c + d);
    Put32Back(r.alignment, s + a + b, d);
    Put32Back(r.length, s + a + b + c, []);
    hide Le32;
    var all := ToAml(r);
    assert all == s + a + (b + c + d) && all == s + a + b + (c + d) && all == s + a + b + c + d && all == s + a + b + c + d + [];
  }

  lemma MemoryBack(r: Resource)
    requires InRange(r) && r.FixedMemory?
    ensures |ToAml(r)| == 9 && ToNative(KFixedMemory, ToAml(r)) == r
  {
    var s, base, n := [r.writeStatus], Put32(r.base), Put32(r.size);
    Put32Back(r.base, s, n);
    Put32Back(r.size, s + base, []);
    hide Put32, Le32;
    assert ToAml(r) == s + base + n == s + base + n + [];
  }

  /** Encoding and decoding one resource. */
  lemma BodyBack(r: Resource)
    requires InRange(r)
    ensures SizeFits(KindOfNative(r), |ToAml(r)|) && |ToAml(r)| == AmlBodySize(r)
    ensures ToNative(KindOfNative(r), ToAml(r)) == Settled(r)
  {
    hide ToAml, ToNative;
    if r.Irq? { IrqBack(r); } else if r.Dma? { DmaBack(r); } else if r.Io? { IoBack(r); }
    else if r.FixedMemory? { MemoryBack(r); } else if r.Memory24? { Memory24Back(r); } else if r.Memory32? { Memory32Back(r); }
    else if r.StartDependent? || r.EndDependent? { StartBack(r); } else { FixedBack(r); }
  }

  // -- Whole templates -----------------------------------------------------------------------

  datatype Result = Ok(resources: seq<Resource>, used: nat) | Malformed | NoEndTag

  /** The kind and the body length of the descriptor at the front, if it is intact. */
  datatype Item = Bad | Item(kind: Kind, size: nat)

  function Front(s: Bytes): (r: Item)
    requires s != []
    ensures r.Item? ==> !r.kind.KUnknown? && SizeFits(r.kind, r.size) && Header(r.kind) + r.size <= |s|
  {
    var k := KindOf(s[0]);
    if k.KUnknown? || |s| < Header(k) then Bad
    else
      var size := if Large(k) then Le16(s, 1) else s[0] % 8;
      if size > |s| - Header(k) || !SizeFits(k, size) then Bad else Item(k, size)
  }

  function Body(s: Bytes, i: Item): (b: Bytes)
    requires i.Item? && Header(i.kind) + i.size <= |s|
    ensures |b| == i.size
  {
    s[Header(i.kind)..Header(i.kind) + i.size]
  }

  function Whole(i: Item): nat
    requires i.Item?
  {
    Header(i.kind) + i.size
  }

  function Prepend(done: seq<Resource>, n: nat, r: Result): Result {
    if r.Ok? then Ok(done + r.resources, n + r.used) else r
  }

  /** The resources of a template, up to and including its end tag. */
  function Decode(s: Bytes): Result
    decreases |s|
  {
    if s == [] then NoEndTag
    else
      var i := Front(s);
      if i.Bad? then Malformed
      else
        var r := ToNative(i.kind, Body(s, i));
        if i.kind.KEnd? then Ok([r], Whole(i)) else Prepend([r], Whole(i), Decode(s[Whole(i)..]))
  }

  lemma DecodeStep(s: Bytes)
    ensures s == [] ==> Decode(s) == NoEndTag
    ensures s != [] ==>
      var i := Front(s);
      && (i.Bad? ==> Decode(s) == Malformed)
      && (i.Item? && i.kind.KEnd? ==> Decode(s) == Ok([ToNative(i.kind, Body(s, i))], Whole(i)))
      && (i.Item? && !i.kind.KEnd? ==> Decode(s) == Prepend([ToNative(i.kind, Body(s, i))], Whole(i), Decode(s[Whole(i)..])))
  {}

  lemma NothingDone(r: Result)
    ensures Prepend([], 0, r) == r
  {}

  lemma Ending(done: seq<Resource>, n: nat, one: Resource, m: nat)
    ensures Prepend(done, n, Ok([one], m)) == Ok(done + [one], n + m)
  {}

  lemma Regroup(done: seq<Resource>, n: nat, one: Resource, m: nat, r: Result)
    ensures Prepend(done, n, Prepend([one], m, r)) == Prepend(done + [one], n + m, r)
  {
    if r.Ok? { assert done + ([one] + r.resources) == done + [one] + r.resources; }
  }

  /** The descriptor of one resource, header included. */
  function EncodeOne(r: Resource): Bytes {
    var k, b := KindOfNative(r), ToAml(r);
    if Large(k) then [LargeTag(k)] + Put16(|b|) + b else [SmallTag(k) * 8 + |b|] + b
  }

  function SmallTag(k: Kind): nat {
    match k
    case KIrq => 4 case KDma => 5 case KStartDependent => 6 case KEndDependent => 7
    case KIo => 8 case KFixedIo => 9 case KFixedDma => 10 case _ => 15
  }

  function LargeTag(k: Kind): nat { match k case KMemory24 => 0x81 case KMemory32 => 0x85 case _ => 0x86 }

  /** The whole template; an end tag is always included. */
  function Encode(rs: seq<Resource>): Bytes {
    if rs == [] then EncodeOne(EndTag)
    else EncodeOne(rs[0]) + if rs[0].EndTag? then [] else Encode(rs[1..])
  }

  lemma SmallTagBack(k: Kind, n: nat)
    requires !k.KUnknown? && !Large(k) && n < 8
    ensures var tag := SmallTag(k) * 8 + n; tag < 0x80 && KindOf(tag) == k && tag % 8 == n
  {}

  lemma FrontSmall(k: Kind, b: Bytes, s: Bytes, rest: Bytes)
    requires !k.KUnknown? && !Large(k) && SizeFits(k, |b|) && s == [SmallTag(k) * 8 + |b|] + b + rest
    ensures Front(s) == Item(k, |b|) && s[1..1 + |b|] == b && s[1 + |b|..] == rest
  {
    assert |b| < 8;
    SmallTagBack(k, |b|);
    hide KindOf, SmallTag;
    assert s[0] == SmallTag(k) * 8 + |b|;
  }

  lemma FrontLarge(k: Kind, b: Bytes, s: Bytes, rest: Bytes)
    requires Large(k) && SizeFits(k, |b|) && s == [LargeTag(k)] + Put16(|b|) + b + rest
    ensures Front(s) == Item(k, |b|) && s[3..3 + |b|] == b && s[3 + |b|..] == rest
  {
    assert s[1] == |b| % 256 && s[2] == |b| / 256;
  }

  lemma FrontOf(r: Resource, rest: Bytes)
    requires InRange(r)
    ensures var s := EncodeOne(r) + rest;
      && s != [] && Front(s) == Item(KindOfNative(r), AmlBodySize(r)) && Body(s, Front(s)) == ToAml(r)
      && |EncodeOne(r)| == Whole(Front(s)) && s[Whole(Front(s))..] == rest
  {
    BodyBack(r);
    hide ToAml, ToNative, InRange, Front, Put16, SmallTag;
    var k, b, s := KindOfNative(r), ToAml(r), EncodeOne(r) + rest;
    if Large(k) { FrontLarge(k, b, s, rest); } else { FrontSmall(k, b, s, rest); }
  }

  /** Decoding one encoded resource in front of others. */
  lemma DecodeFront(r: Resource, rest: Bytes)
    requires InRange(r)
    ensures Decode(EncodeOne(r) + rest) ==
      if r.EndTag? then Ok([r], |EncodeOne(r)|) else Prepend([Settled(r)], |EncodeOne(r)|, Decode(rest))
  {
    FrontOf(r, rest);
    BodyBack(r);
    hide ToAml, ToNative, InRange, Front, Body, EncodeOne, AmlBodySize;
    assert r.EndTag? <==> KindOfNative(r).KEnd?;
  }

  /** Decoding an encoded list gives the list, with the forms that were used. */
  lemma {:induction false} DecodeEncoded(rs: seq<Resource>)
    requires rs != [] && rs[|rs|-1].EndTag? && forall i :: 0 <= i < |rs| ==> InRange(rs[i]) && (i < |rs| - 1 ==> !rs[i].EndTag?)
    ensures Decode(Encode(rs)) == Ok(SettledAll(rs), |Encode(rs)|)
  {
    var rest := if rs[0].EndTag? then [] else Encode(rs[1..]);
    DecodeFront(rs[0], rest);
    hide InRange, EncodeOne, Decode;
    assert Encode(rs) == EncodeOne(rs[0]) + rest;
    if |rs| > 1 { DecodeEncoded(rs[1..]); } else { assert rs[1..] == []; }
  }

  /** A whole list keeps its content exactly if no interrupt in it loses its wake capability. */
  lemma ListBackIff(rs: seq<Resource>)
    requires rs != [] && rs[|rs|-1].EndTag? && forall i :: 0 <= i < |rs| ==> InRange(rs[i]) && (i < |rs| - 1 ==> !rs[i].EndTag?)
    ensures Decode(Encode(rs)).Ok?
    ensures Contents(Decode(Encode(rs)).resources) == Contents(rs) <==> forall i :: 0 <= i < |rs| ==> !LosesWake(rs[i])
  {
    DecodeEncoded(rs);
    hide Encode, Decode;
    SettledContents(rs);
  }

  function Contents(rs: seq<Resource>): (cs: seq<Resource>)
    ensures |cs| == |rs| && forall i :: 0 <= i < |rs| ==> cs[i] == Content(rs[i])
  {
    if rs == [] then [] else [Content(rs[0])] + Contents(rs[1..])
  }

  lemma SettledContents(rs: seq<Resource>)
    requires forall i :: 0 <= i < |rs| ==> InRange(rs[i])
    ensures Contents(SettledAll(rs)) == Contents(rs) <==> forall i :: 0 <= i < |rs| ==> !LosesWake(rs[i])
  {
    SettledEach(rs);
    var a, b := Contents(SettledAll(rs)), Contents(rs);
    forall i | 0 <= i < |rs| ensures a[i] == b[i] <==> !LosesWake(rs[i]) { SettledOne(rs[i]); }
    if a == b { forall i | 0 <= i < |rs| ensures !LosesWake(rs[i]) { assert a[i] == b[i]; } }
  }

  lemma SettledOne(r: Resource)
    requires InRange(r)
    ensures Content(Settled(r)) == Content(r) <==> !LosesWake(r)
  {
    hide Ascending;
  }

  lemma {:induction false} SettledEach(rs: seq<Resource>)
    ensures |SettledAll(rs)| == |rs| && forall i :: 0 <= i < |rs| ==> SettledAll(rs)[i] == Settled(rs[i])
  {
    if rs != [] { SettledEach(rs[1..]); }
  }

  function SettledAll(rs: seq<Resource>): seq<Resource> {
    if rs == [] then [] else [Settled(rs[0])] + SettledAll(rs[1..])
  }

  /** What decoding yields: in range, settled, closed by one end tag, and encoding to
      as many bytes as it was read from. */
  ghost predicate Decoded(rs: seq<Resource>, used: nat) {
    && rs != [] && rs[|rs|-1].EndTag?
    && (forall i :: 0 <= i < |rs| ==> InRange(rs[i]) && (i < |rs| - 1 ==> !rs[i].EndTag?))
    && SettledAll(rs) == rs && |Encode(rs)| == used
  }

  lemma OneDecoded(k: Kind, b: Bytes)
    requires !k.KUnknown? && SizeFits(k, |b|) && InBytes(b)
    ensures var r := ToNative(k, b); InRange(r) && Settled(r) == r && (r.EndTag? <==> k.KEnd?) && |EncodeOne(r)| == Header(k) + |b|
  {
    ToNativeInRange(k, b);
    SettledNative(k, b);
    var r := ToNative(k, b);
    BodyBack(r);
    hide ToNative, ToAml, Settled, InRange, Short, BodySize, Put16;
    assert r.EndTag? <==> KindOfNative(r).KEnd?;
  }

  lemma SettledNative(k: Kind, b: Bytes)
    requires !k.KUnknown? && SizeFits(k, |b|) && InBytes(b)
    ensures Settled(ToNative(k, b)) == ToNative(k, b)
  {
    hide BitsOf, Le16, Le32;
  }

  lemma {:induction false} DecodeYields(s: Bytes)
    requires InBytes(s) && Decode(s).Ok?
    ensures Decoded(Decode(s).resources, Decode(s).used)
    decreases |s|
  {
    DecodeStep(s);
    var i := Front(s);
    var b := Body(s, i);
    OneDecoded(i.kind, b);
    var r := ToNative(i.kind, b);
    hide Decode, Front, ToNative, Encode, EncodeOne, InRange, Body, Decoded;
    if i.kind.KEnd? {
      LastDecoded(r);
    } else {
      DecodeYields(s[Whole(i)..]);
      Extend(r, Decode(s[Whole(i)..]).resources, Decode(s[Whole(i)..]).used);
    }
  }

  lemma LastDecoded(r: Resource)
    requires r.EndTag?
    ensures Decoded([r], |EncodeOne(r)|)
  {
    assert [r][1..] == [];
    assert Encode([r]) == EncodeOne(r) + [];
  }

  lemma Extend(r: Resource, rs: seq<Resource>, used: nat)
    requires Decoded(rs, used) && InRange(r) && Settled(r) == r && !r.EndTag?
    ensures Decoded([r] + rs, |EncodeOne(r)| + used)
  {
    hide InRange, EncodeOne, Settled;
    assert ([r] + rs)[1..] == rs;
  }

  /** Re-encoding a decoded template preserves its length, and decoding it again yields
      the same resources. */
  lemma TemplateRoundTrip(s: Bytes)
    requires InBytes(s) && Decode(s).Ok?
    ensures var d := Decode(s); |Encode(d.resources)| == d.used && Decode(Encode(d.resources)) == d
  {
    hide Decode, Encode, InRange, SettledAll;
    DecodeYields(s);
    DecodeEncoded(Decode(s).resources);
  }

  // -- The sizing passes ----------------------------------------------------------------------

  function Align8(n: nat): nat { (n + 7) / 8 * 8 }

  /** The size of a native structure without its list, its 8-byte header included. */
  function NativeSize(k: Kind): nat {
    match k
    case KIrq => 14 case KDma => 12 case KStartDependent => 11 case KEndDependent => 8
    case KIo => 16 case KFixedIo => 12 case KFixedDma => 14
    case KMemory24 => 18 case KMemory32 => 28 case KFixedMemory => 20 case KEnd => 8
    case KUnknown => 0
  }

  /** Extra native space for a descriptor, counted from its mask. */
  function Extra(k: Kind, b: Bytes): nat
    requires !k.KUnknown? && SizeFits(k, |b|)
  {
    if k.KIrq? then |BitsOf(Le16(b, 0), 0, 16)| else if k.KDma? then |BitsOf(b[0], 0, 8)| else 0
  }

  /** The native buffer size computed before any conversion. */
  function NativeSizing(s: Bytes): nat
    decreases |s|
  {
    if s == [] || Front(s).Bad? then 0
    else
      var i := Front(s);
      Align8(NativeSize(i.kind) + Extra(i.kind, Body(s, i))) + if i.kind.KEnd? then 0 else NativeSizing(s[Whole(i)..])
  }

  function Entries(r: Resource): nat {
    match r case Irq(l, _, _, _, _, _) => |l| case Dma(l, _, _, _) => |l| case _ => 0
  }

  /** The native space of one resource, its list included. */
  function Length(r: Resource): nat { Align8(NativeSize(KindOfNative(r)) + Entries(r)) }

  function NativeUse(rs: seq<Resource>): nat {
    if rs == [] then 0 else Length(rs[0]) + NativeUse(rs[1..])
  }

  lemma ExtraExact(k: Kind, b: Bytes)
    requires !k.KUnknown? && SizeFits(k, |b|)
    ensures KindOfNative(ToNative(k, b)) == k && Entries(ToNative(k, b)) == Extra(k, b)
  {
    hide BitsOf;
  }

  lemma SizingStep(s: Bytes)
    requires s != [] && Front(s).Item?
    ensures var i := Front(s);
      NativeSizing(s) == Length(ToNative(i.kind, Body(s, i))) + if i.kind.KEnd? then 0 else NativeSizing(s[Whole(i)..])
  {
    hide ToNative, Front, Body, Extra, Entries, Align8, NativeSize;
    ExtraExact(Front(s).kind, Body(s, Front(s)));
  }

  lemma UseStep(r: Resource, rs: seq<Resource>)
    ensures NativeUse([r] + rs) == Length(r) + NativeUse(rs)
  {
    assert ([r] + rs)[1..] == rs;
  }

  /** The first pass reserves exactly what the second one uses. */
  lemma {:induction false} NativeSizingExact(s: Bytes)
    requires Decode(s).Ok?
    ensures NativeSizing(s) == NativeUse(Decode(s).resources)
    decreases |s|
  {
    hide Decode, NativeSizing, NativeUse, ToNative, Front, Body, Length;
    DecodeStep(s);
    var i := Front(s);
    var r := ToNative(i.kind, Body(s, i));
    SizingStep(s);
    if i.kind.KEnd? {
      UseStep(r, []);
      NoUse();
      assert [r] + [] == [r];
    } else {
      NativeSizingExact(s[Whole(i)..]);
      UseStep(r, Decode(s[Whole(i)..]).resources);
    }
  }

  lemma NoUse()
    ensures NativeUse([]) == 0
  {}

  /** The template size computed before any conversion. */
  function AmlSizing(rs: seq<Resource>): nat {
    if rs == [] then Header(KEnd) + BodySize(KEnd)
    else Header(KindOfNative(rs[0])) + AmlBodySize(rs[0]) + if rs[0].EndTag? then 0 else AmlSizing(rs[1..])
  }

  lemma {:induction false} AmlSizingExact(rs: seq<Resource>)
    requires forall i :: 0 <= i < |rs| ==> InRange(rs[i])
    ensures |Encode(rs)| == AmlSizing(rs)
  {
    if rs != [] {
      BodyBack(rs[0]);
      hide InRange, ToAml, ToNative, AmlBodySize;
      if !rs[0].EndTag? { AmlSizingExact(rs[1..]); }
    }
  }
}
