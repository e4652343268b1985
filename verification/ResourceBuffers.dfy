/**
 The resource conversion code: both interpreters as loops over byte buffers, the sizing
 passes, and the conversion of whole templates in each direction.
 */
module ResourceBuffers {
  import opened ResourceCodec
  import opened ResourcePrograms
  import opened ResourceEncoding

  // -- Writing into a window of a buffer ---------------------------------------------------

  /** The buffer is `start` with the window at `base` replaced by `w`. */
  ghost predicate Window(buf: array<nat>, start: Bytes, base: nat, w: Bytes)
    reads buf
  {
    buf.Length == |start| && base + |w| <= |start| && buf[..] == Poke(start, base, w)
  }

  lemma WindowAt(start: Bytes, base: nat, w: Bytes, at: nat, src: Bytes)
    requires base + |w| <= |start| && at + |src| <= |w|
    ensures Poke(Poke(start, base, w), base + at, src) == Poke(start, base, Poke(w, at, src))
  {}

  method StoreByte(buf: array<nat>, base: nat, at: nat, v: nat, ghost start: Bytes, ghost w: Bytes)
    requires Window(buf, start, base, w) && at < |w|
    modifies buf
    ensures Window(buf, start, base, w[at := v])
  {
    buf[base + at] := v;
    WindowAt(start, base, w, at, [v]);
    PokeByte(w, at, v);
    assert buf[..] == Poke(Poke(start, base, w), base + at, [v]);
  }

  /** `list` has been written at `at` over what was there before. */
  ghost predicate Written(buf: array<nat>, before: Bytes, at: nat, list: Bytes)
    reads buf
  {
    buf.Length == |before| && at + |list| <= |before| && buf[..] == Poke(before, at, list)
  }

  lemma NothingWritten(buf: array<nat>, start: Bytes, base: nat, w: Bytes, at: nat)
    requires Window(buf, start, base, w) && at <= |w|
    ensures Written(buf, buf[..], base + at, [])
  {
    PokeNone(buf[..], base + at);
  }

  lemma AllWritten(buf: array<nat>, before: Bytes, start: Bytes, base: nat, w: Bytes, at: nat, list: Bytes)
    requires Written(buf, before, base + at, list) && at + |list| <= |w| && base + |w| <= |start| && before == Poke(start, base, w)
    ensures Window(buf, start, base, Poke(w, at, list))
  {
    WindowAt(start, base, w, at, list);
  }

  /** One more byte behind those written since `at`. */
  method WriteNext(buf: array<nat>, at: nat, n: nat, v: nat, ghost before: Bytes, ghost list: Bytes)
    requires Written(buf, before, at, list) && n == |list| && at + n < buf.Length
    modifies buf
    ensures Written(buf, before, at, list + [v])
  {
    buf[at + n] := v;
    PokeNext(before, at, list, v);
  }

  lemma PokeNext(n: Bytes, at: nat, a: Bytes, v: nat)
    requires at + |a| < |n|
    ensures Poke(n, at, a)[at + |a| := v] == Poke(n, at, a + [v])
  {}

  lemma WindowFits(buf: array<nat>, start: Bytes, base: nat, w: Bytes)
    requires Window(buf, start, base, w)
    ensures base + |w| <= |start| == buf.Length && buf[..] == Poke(start, base, w)
  {}

  method CopyBytes(buf: array<nat>, base: nat, at: nat, src: Bytes, from: nat, count: nat, ghost start: Bytes, ghost w: Bytes)
    requires Window(buf, start, base, w) && from + count <= |src| && at + count <= |w|
    modifies buf
    ensures Window(buf, start, base, Poke(w, at, src[from..from + count]))
  {
    ghost var before := buf[..];
    WindowFits(buf, start, base, w);
    NothingWritten(buf, start, base, w, at);
    hide Window, Written, Poke, Piece;
    PieceNone(src, from);
    for i := 0 to count
      invariant Written(buf, before, base + at, Piece(src, from, i))
    {
      PieceMore(src, from, i);
      WriteNext(buf, base + at, i, src[from + i], before, Piece(src, from, i));
    }
    PieceIs(src, from, count);
    AllWritten(buf, before, start, base, w, at, src[from..from + count]);
  }

  ghost function Piece(src: Bytes, from: nat, count: nat): (p: Bytes)
    requires from + count <= |src|
    ensures |p| == count
  {
    src[from..from + count]
  }

  lemma PieceNone(src: Bytes, from: nat)
    requires from <= |src|
    ensures Piece(src, from, 0) == []
  {}

  lemma PieceMore(src: Bytes, from: nat, i: nat)
    requires from + i < |src|
    ensures Piece(src, from, i) + [src[from + i]] == Piece(src, from, i + 1)
  {}

  lemma PieceIs(src: Bytes, from: nat, count: nat)
    requires from + count <= |src|
    ensures Piece(src, from, count) == src[from..from + count]
  {}

  /** The bits of a mask, as a list of their positions. */
  method UnpackBits(buf: array<nat>, base: nat, at: nat, value: nat, width: nat, ghost start: Bytes, ghost w: Bytes) returns (j: nat)
    requires Window(buf, start, base, w) && at + |BitsOf(value, 0, width)| <= |w|
    modifies buf
    ensures j == |BitsOf(value, 0, width)| && Window(buf, start, base, Poke(w, at, BitsOf(value, 0, width)))
  {
    ghost var before, all := buf[..], BitsOf(value, 0, width);
    WindowFits(buf, start, base, w);
    NothingWritten(buf, start, base, w, at);
    hide Window, Written, Poke, BitsOf;
    j := 0;
    var v := value;
    ghost var list: Bytes := [];
    for i := 0 to width
      invariant list + BitsOf(v, i, width - i) == all && j == |list|
      invariant Written(buf, before, base + at, list)
    {
      NextBit(list, v, i, width - i);
      if v % 2 == 1 {
        WriteNext(buf, base + at, j, i, before, list);
        list := list + [i];
        j := j + 1;
      }
      v := v / 2;
    }
    NoBitsLeft(list, v, width);
    AllWritten(buf, before, start, base, w, at, all);
  }

  lemma NextBit(list: Bytes, v: nat, i: nat, width: nat)
    requires width > 0
    ensures list + BitsOf(v, i, width) == (if v % 2 == 1 then list + [i] else list) + BitsOf(v / 2, i + 1, width - 1)
    ensures v % 2 == 1 ==> |BitsOf(v, i, width)| >= 1
  {}

  lemma NoBitsLeft(list: Bytes, v: nat, i: nat)
    ensures list + BitsOf(v, i, 0) == list
  {}

  /** A mask from the positions of its bits. */
  method PackBits(n: Bytes, from: nat, count: nat) returns (mask: nat)
    requires from + count <= |n|
    ensures mask == Pack(n[from..from + count])
  {
    hide Pack, Or, Pow2;
    mask := 0;
    assert n[from..from] == [];
    PackNone();
    for i := 0 to count
      invariant mask == Pack(n[from..from + i])
    {
      PackMore(n[from..from + i], n[from + i]);
      assert n[from..from + i] + [n[from + i]] == n[from..from + i + 1];
      mask := Or(mask, Pow2(n[from + i])) % 65536;
    }
  }

  lemma PackNone()
    ensures Pack([]) == 0
  {}

  // -- The interpreters -------------------------------------------------------------------

  lemma NativeLength(i: Insn, d: Bytes, n: Bytes)
    ensures ExecNative(i, d, n).Done? ==> |ExecNative(i, d, n).bytes| == |n|
  {
    hide BitsOf, Pow2, FieldBytes;
  }

  lemma AmlLength(i: Insn, n: Bytes, d: Bytes)
    ensures ExecAml(i, n, d).Done? ==> |ExecAml(i, n, d).bytes| == |d|
  {
    hide Pack, Or, Shl, FieldBytes, Put16;
  }

  lemma NativeRunStep(p: Program, pc: nat, d: Bytes, size: nat, n: Bytes)
    requires RunNative(p, pc, d, size, n).Done?
    ensures pc < |p|
    ensures p[pc].code.End? ==> RunNative(p, pc, d, size, n) == Done(n)
    ensures !p[pc].code.End? ==>
      && ExecNative(p[pc], d, n).Done? && |ExecNative(p[pc], d, n).bytes| == |n|
      && RunNative(p, pc, d, size, n) == RunNative(p, Next(pc, p[pc], size), d, size, ExecNative(p[pc], d, n).bytes)
  {
    if pc < |p| { NativeLength(p[pc], d, n); }
    hide ExecNative, Next;
  }

  lemma AmlRunStep(p: Program, pc: nat, n: Bytes, size: nat, d: Bytes)
    requires RunAml(p, pc, n, size, d).Done?
    ensures pc < |p|
    ensures p[pc].code.End? ==> RunAml(p, pc, n, size, d) == Done(d)
    ensures !p[pc].code.End? ==>
      && ExecAml(p[pc], n, d).Done? && |ExecAml(p[pc], n, d).bytes| == |d|
      && RunAml(p, pc, n, size, d) == RunAml(p, Next(pc, p[pc], size), n, size, ExecAml(p[pc], n, d).bytes)
  {
    if pc < |p| { AmlLength(p[pc], n, d); }
    hide ExecAml, Next;
  }

  /** One instruction that writes to the native structure. */
  method NativeInsn(i: Insn, d: Bytes, buf: array<nat>, base: nat, ghost start: Bytes, ghost n: Bytes)
    requires Window(buf, start, base, n) && ExecNative(i, d, n).Done? && !i.code.End? && !i.code.SkipIfAmlSizeLess?
    modifies buf
    ensures Window(buf, start, base, ExecNative(i, d, n).bytes)
  {
    hide Window, BitsOf, Pow2, FieldBytes, Poke;
    var at := HEAD + i.f2;
    match i.code {
      case PackedArray8 =>
        var list: nat := UnpackBits(buf, base, at, d[i.f1], 8, start, n);
        StoreByte(buf, base, HEAD + i.f3, list, start, Poke(n, at, BitsOf(d[i.f1], 0, 8)));
      case PackedArray16 =>
        var list: nat := UnpackBits(buf, base, at, Le16(d, i.f1), 16, start, n);
        StoreByte(buf, base, HEAD + i.f3, list, start, Poke(n, at, BitsOf(Le16(d, i.f1), 0, 16)));
      case BitField1 => StoreByte(buf, base, at, d[i.f1] / Pow2(i.f3) % Pow2(1), start, n);
      case BitField2 => StoreByte(buf, base, at, d[i.f1] / Pow2(i.f3) % Pow2(2), start, n);
      case Field8 => CopyBytes(buf, base, at, d, i.f1, FieldBytes(i), start, n);
      case Field16 => CopyBytes(buf, base, at, d, i.f1, FieldBytes(i), start, n);
      case Field32 => CopyBytes(buf, base, at, d, i.f1, FieldBytes(i), start, n);
      case SetToImm => StoreByte(buf, base, at, i.f3, start, n);
    }
  }

  /** do_aml_resource_to_native, from the header of the native resource on. */
  method AmlResourceToNative(k: Kind, d: Bytes, size: nat, buf: array<nat>, base: nat, ghost start: Bytes, ghost n: Bytes)
    requires Window(buf, start, base, n) && ConvertToNative(k, d, size, n).Done?
    modifies buf
    ensures Window(buf, start, base, ConvertToNative(k, d, size, n).bytes)
  {
    hide Window, RunNative, ExecNative;
    var p := ToNativeProgram(k);
    if p == [] { return; }
    var pc := 0;
    ghost var w := n;
    while true
      invariant Window(buf, start, base, w) && RunNative(p, pc, d, size, w) == ConvertToNative(k, d, size, n)
      decreases |p| - pc
    {
      NativeRunStep(p, pc, d, size, w);
      var i := p[pc];
      pc := pc + 1;
      if i.code.End? { return; }
      if i.code.SkipIfAmlSizeLess? {
        SkipStays(i, d, w);
        if size < i.f1 { pc := pc + i.f3; }
      } else {
        NativeInsn(i, d, buf, base, start, w);
        w := ExecNative(i, d, w).bytes;
      }
    }
  }

  lemma SkipStays(i: Insn, d: Bytes, n: Bytes)
    requires i.code.SkipIfAmlSizeLess?
    ensures ExecNative(i, d, n) == Done(n) && ExecAml(i, d, n) == Done(n)
  {}

  /** One instruction that writes to the descriptor. */
  method AmlInsn(i: Insn, n: Bytes, buf: array<nat>, base: nat, ghost start: Bytes, ghost d: Bytes)
    requires Window(buf, start, base, d) && ExecAml(i, n, d).Done? && !i.code.End? && !i.code.SkipIfAmlSizeLess?
    modifies buf
    ensures Window(buf, start, base, ExecAml(i, n, d).bytes)
  {
    hide Window, Pack, Or, Shl, FieldBytes, Poke, Put16;
    var from := HEAD + i.f2;
    match i.code {
      case PackedArray8 =>
        var mask := PackBits(n, from, n[HEAD + i.f3]);
        CopyBytes(buf, base, i.f1, Put16(mask), 0, 1, start, d);
      case PackedArray16 =>
        var mask := PackBits(n, from, n[HEAD + i.f3]);
        CopyBytes(buf, base, i.f1, Put16(mask), 0, 2, start, d);
      case BitField1 => MergeByte(buf, base, i.f1, Shl(n[from], i.f3), start, d);
      case BitField2 => MergeByte(buf, base, i.f1, Shl(n[from], i.f3), start, d);
      case Field8 => CopyBytes(buf, base, i.f1, n, from, FieldBytes(i), start, d);
      case Field16 => CopyBytes(buf, base, i.f1, n, from, FieldBytes(i), start, d);
      case Field32 => CopyBytes(buf, base, i.f1, n, from, FieldBytes(i), start, d);
      case SetToImm => StoreByte(buf, base, i.f1, i.f3, start, d);
    }
  }

  method MergeByte(buf: array<nat>, base: nat, at: nat, bits: nat, ghost start: Bytes, ghost d: Bytes)
    requires Window(buf, start, base, d) && at < |d|
    modifies buf
    ensures Window(buf, start, base, d[at := Or(d[at], bits) % 256])
  {
    hide Or;
    assert buf[base + at] == d[at];
    StoreByte(buf, base, at, Or(buf[base + at], bits) % 256, start, d);
  }

  /** do_native_resource_to_aml, from the header of the descriptor on. */
  method NativeResourceToAml(k: Kind, n: Bytes, size: nat, buf: array<nat>, base: nat, ghost start: Bytes, ghost d: Bytes)
    requires Window(buf, start, base, d) && ConvertToAml(k, n, size, d).Done?
    modifies buf
    ensures Window(buf, start, base, ConvertToAml(k, n, size, d).bytes)
  {
    hide Window, RunAml, ExecAml, Heading, Poke;
    var head := Heading(k, size);
    CopyBytes(buf, base, 0, head, 0, |head|, start, d);
    assert head[0..|head|] == head;
    var p := ToAmlProgram(k);
    if p == [] { return; }
    var pc := 0;
    ghost var w := Poke(d, 0, head);
    while true
      invariant Window(buf, start, base, w) && RunAml(p, pc, n, size, w) == ConvertToAml(k, n, size, d)
      decreases |p| - pc
    {
      AmlRunStep(p, pc, n, size, w);
      var i := p[pc];
      pc := pc + 1;
      if i.code.End? { return; }
      if i.code.SkipIfAmlSizeLess? {
        SkipStays(i, n, w);
        if size < i.f1 { pc := pc + i.f3; }
      } else {
        AmlInsn(i, n, buf, base, start, w);
        w := ExecAml(i, n, w).bytes;
      }
    }
  }

  // -- From a template to native resources ----------------------------------------------------

  /** Buffers above this size are taken for a bug. */
  const LIMIT := 5 * 1024 * 1024

  datatype Status = Success | InvalidResource | MissingEndTag | TooBig

  function StatusOf(r: Result): Status {
    match r case Ok(_, _) => Success case Malformed => InvalidResource case NoEndTag => MissingEndTag
  }

  function Layouts(rs: seq<Resource>): Bytes { if rs == [] then [] else Layout(rs[0]) + Layouts(rs[1..]) }

  lemma {:induction false} LayoutsMore(rs: seq<Resource>, r: Resource)
    ensures Layouts(rs + [r]) == Layouts(rs) + Layout(r)
  {
    hide Layout;
    if rs == [] {
      assert [] + [r] == [r] && [r][1..] == [];
    } else {
      LayoutsMore(rs[1..], r);
      assert (rs + [r])[1..] == rs[1..] + [r];
    }
  }

  /** native_size_for_aml_resource: the mask is read to count the entries of the list. */
  method NativeSizeFor(k: Kind, b: Bytes) returns (len: nat)
    requires !k.KUnknown? && SizeFits(k, |b|)
    ensures len == Length(ToNative(k, b))
  {
    var extra := 0;
    if k.KIrq? { extra := ExtraSize(Le16(b, 0), 16); } else if k.KDma? { extra := ExtraSize(b[0], 8); }
    assert extra == Extra(k, b);
    ExtraExact(k, b);
    hide ToNative, BitsOf, Align8, NativeSize, Entries, Le16, Extra;
    len := Align8(NativeSize(k) + extra);
  }

  /** The first pass. */
  method NativeBufferSize(s: Bytes) returns (status: Status, total: nat)
    ensures status == StatusOf(Decode(s)) && (status.Success? ==> total == NativeUse(Decode(s).resources))
  {
    hide Decode, Front, ToNative, Body, NativeSizing, Length;
    var pos := 0;
    total := 0;
    assert s[0..] == s;
    while pos < |s|
      invariant pos <= |s| && StatusOf(Decode(s[pos..])) == StatusOf(Decode(s)) && total + NativeSizing(s[pos..]) == NativeSizing(s)
      decreases |s| - pos
    {
      var left := s[pos..];
      var i := Front(left);
      DecodeStep(left);
      if i.Bad? { return InvalidResource, 0; }
      SizingStep(left);
      var len := NativeSizeFor(i.kind, Body(left, i));
      total := total + len;
      if i.kind.KEnd? { NativeSizingExact(s); return Success, total; }
      assert left[Whole(i)..] == s[pos + Whole(i)..];
      pos := pos + Whole(i);
    }
    assert s[|s|..] == [];
    DecodeStep([]);
    return MissingEndTag, 0;
  }

  /** Decoded so far: the converted resources, then zeros. */
  ghost predicate Converted(buf: array<nat>, s: Bytes, done: seq<Resource>, pos: nat, base: nat)
    reads buf
  {
    && pos <= |s| && Decode(s).Ok? && Decode(s) == Prepend(done, pos, Decode(s[pos..]))
    && base == |Layouts(done)| && base + NativeSizing(s[pos..]) == buf.Length
    && buf[..] == Layouts(done) + Zeros(buf.Length - base)
  }

  /** One descriptor, into the zeroed window at `base`. */
  method ConvertDescriptor(k: Kind, d: Bytes, buf: array<nat>, base: nat, ghost done: Bytes) returns (len: nat)
    requires Descriptor(k, d) && base == |done| && base + Length(ToNative(k, BodyOf(k, d))) <= buf.Length
    requires buf[..] == done + Zeros(buf.Length - base)
    modifies buf
    ensures len == Length(ToNative(k, BodyOf(k, d)))
    ensures base + len <= buf.Length && buf[..] == done + Layout(ToNative(k, BodyOf(k, d))) + Zeros(buf.Length - base - len)
  {
    hide ToNative, Layout, ConvertToNative, Length;
    ghost var r := ToNative(k, BodyOf(k, d));
    len := NativeSizeFor(k, BodyOf(k, d));
    LengthFits(r);
    ghost var start := buf[..];
    ZeroWindow(start, done, len);
    var head := Put32(TypeCode(k)) + Put32(len);
    CopyBytes(buf, base, 0, head, 0, 8, start, Zeros(len));
    assert head[0..8] == head;
    StartIs(k, len);
    ProgramConverts(k, d);
    AmlResourceToNative(k, d, |d| - Header(k), buf, base, start, Start(k, len));
    LayoutLength(r);
    WindowShows(start, done, Layout(r));
  }

  lemma LayoutLength(r: Resource)
    requires Length(r) >= HEAD
    ensures |Layout(r)| == Length(r)
  {}

  lemma ZeroWindow(start: Bytes, done: Bytes, len: nat)
    requires |start| >= |done| + len && start == done + Zeros(|start| - |done|)
    ensures Poke(start, |done|, Zeros(len)) == start
  {}

  lemma StartIs(k: Kind, len: nat)
    requires len >= HEAD
    ensures Poke(Zeros(len), 0, Put32(TypeCode(k)) + Put32(len)) == Start(k, len)
  {
    hide Put32;
  }

  lemma WindowShows(start: Bytes, done: Bytes, w: Bytes)
    requires |start| >= |done| + |w| && start == done + Zeros(|start| - |done|)
    ensures Poke(start, |done|, w) == done + w + Zeros(|start| - |done| - |w|)
  {}

  lemma FrontIs(left: Bytes, i: Item)
    requires left != [] && i == Front(left) && i.Item? && InBytes(left)
    ensures Descriptor(i.kind, left[..Whole(i)]) && BodyOf(i.kind, left[..Whole(i)]) == Body(left, i)
  {}

  /** The callback of the converting pass, on the descriptor at `pos`. */
  method ConvertAt(s: Bytes, pos: nat, buf: array<nat>, base: nat, ghost done: seq<Resource>)
    returns (last: bool, pos': nat, base': nat, ghost done': seq<Resource>)
    requires InBytes(s) && Converted(buf, s, done, pos, base)
    modifies buf
    ensures last ==> buf[..] == Layouts(Decode(s).resources)
    ensures !last ==> pos < pos' && Converted(buf, s, done', pos', base')
  {
    hide Decode, Front, ToNative, Body, NativeSizing, Length, Layouts, Layout;
    var left := s[pos..];
    EndNotReached(s, done, pos);
    DecodeStep(left);
    var i := Front(left);
    SizingStep(left);
    FrontIs(left, i);
    ghost var one := ToNative(i.kind, Body(left, i));
    var len := ConvertDescriptor(i.kind, left[..Whole(i)], buf, base, Layouts(done));
    LayoutsMore(done, one);
    LengthFits(one);
    LayoutLength(one);
    last, pos', base', done' := i.kind.KEnd?, pos + Whole(i), base + len, done + [one];
    if last {
      Ending(done, pos, one, Whole(i));
      assert buf[..] == Layouts(done') + Zeros(0);
    } else {
      assert left[Whole(i)..] == s[pos'..];
      Regroup(done, pos, one, Whole(i), Decode(s[pos'..]));
    }
  }

  /** uacpi_native_resources_from_aml: the native buffer holds exactly the resources that
      the template means, one behind the other. */
  method NativeResourcesFromAml(s: Bytes) returns (status: Status, buf: array<nat>)
    requires InBytes(s)
    ensures fresh(buf)
    ensures status == if Decode(s).Ok? && NativeUse(Decode(s).resources) > LIMIT then TooBig else StatusOf(Decode(s))
    ensures status.Success? ==> buf[..] == Layouts(Decode(s).resources)
  {
    var total;
    status, total := NativeBufferSize(s);
    if !status.Success? { buf := new nat[0]; return; }
    if total > LIMIT { buf := new nat[0]; return TooBig, buf; }
    buf := new nat[total](_ => 0);
    hide Decode, NativeSizing, Layouts;
    var pos, base := 0, 0;
    ghost var done: seq<Resource> := [];
    assert s[0..] == s;
    NothingDone(Decode(s));
    NativeSizingExact(s);
    NoLayouts();
    while true
      invariant fresh(buf) && pos <= |s| && Converted(buf, s, done, pos, base)
      decreases |s| - pos
    {
      var last;
      last, pos, base, done := ConvertAt(s, pos, buf, base, done);
      if last { return; }
    }
  }

  lemma NoLayouts()
    ensures Layouts([]) == []
  {}

  lemma EndNotReached(s: Bytes, done: seq<Resource>, pos: nat)
    requires pos <= |s| && Decode(s).Ok? && Decode(s) == Prepend(done, pos, Decode(s[pos..]))
    ensures pos < |s| && Decode(s[pos..]).Ok?
  {
    DecodeStep(s[|s|..]);
    assert s[|s|..] == [];
  }

  // -- From native resources to a template -----------------------------------------------------

  function Joined(parts: seq<Bytes>): Bytes { if parts == [] then [] else parts[0] + Joined(parts[1..]) }

  /** The native buffer holds these resources, one behind the other. */
  ghost predicate HoldsAll(native: Bytes, parts: seq<Bytes>, rs: seq<Resource>) {
    && |parts| == |rs| && native == Joined(parts)
    && forall i :: 0 <= i < |rs| ==> Holds(parts[i], rs[i]) && InRange(rs[i])
  }

  function KindOfType(t: nat): Kind {
    match t
    case 0 => KIrq case 2 => KDma case 3 => KFixedDma case 4 => KIo case 5 => KFixedIo
    case 10 => KMemory24 case 11 => KMemory32 case 12 => KFixedMemory
    case 13 => KStartDependent case 14 => KEndDependent case 29 => KEnd
    case _ => KUnknown
  }

  /** What the loop over native resources finds at position `pos`. */
  lemma NextNative(native: Bytes, parts: seq<Bytes>, rs: seq<Resource>, i: nat, pos: nat)
    requires HoldsAll(native, parts, rs) && i <= |rs| && pos <= |native| && native[pos..] == Joined(parts[i..])
    ensures i == |rs| <==> pos == |native|
    ensures i < |rs| ==>
      && pos + 8 <= |native| && KindOfType(Le32(native, pos)) == KindOfNative(rs[i])
      && pos + Le32(native, pos + 4) <= |native| && native[pos..pos + Le32(native, pos + 4)] == parts[i]
      && native[pos + |parts[i]|..] == Joined(parts[i + 1..])
  {
    if i < |rs| {
      var n, rest := parts[i], Joined(parts[i + 1..]);
      assert parts[i..][0] == n && parts[i..][1..] == parts[i + 1..];
      assert native[pos..] == n + rest;
      AtFront(native, pos, n, rest);
      HeldHeader(n, rs[i]);
      hide Joined, Holds, InRange;
    } else {
      assert parts[i..] == [];
    }
  }

  lemma AtFront(native: Bytes, pos: nat, n: Bytes, rest: Bytes)
    requires pos <= |native| && native[pos..] == n + rest && |n| >= 8
    ensures pos + |n| <= |native| && native[pos..pos + |n|] == n && native[pos + |n|..] == rest
    ensures Le32(native, pos) == Le32(n, 0) && Le32(native, pos + 4) == Le32(n, 4)
  {
    var tail := native[pos..];
    assert tail[..|n|] == n && tail[|n|..] == rest;
    assert forall i :: 0 <= i < |n| ==> native[pos + i] == tail[i] && tail[i] == n[i];
    LeAt(native, pos, n);
  }

  lemma LeAt(native: Bytes, pos: nat, n: Bytes)
    requires pos + |n| <= |native| && |n| >= 8 && forall i :: 0 <= i < |n| ==> native[pos..][i] == n[i]
    ensures Le32(native, pos) == Le32(n, 0) && Le32(native, pos + 4) == Le32(n, 4)
  {
    var tail := native[pos..];
    assert native[pos] == tail[0] && native[pos + 1] == tail[1] && native[pos + 2] == tail[2] && native[pos + 3] == tail[3];
    assert native[pos + 4] == tail[4] && native[pos + 5] == tail[5] && native[pos + 6] == tail[6] && native[pos + 7] == tail[7];
  }

  lemma HeldHeader(n: Bytes, r: Resource)
    requires Holds(n, r)
    ensures |n| >= 8 && KindOfType(Le32(n, 0)) == KindOfNative(r) && Le32(n, 4) == |n| >= NativeSize(KindOfNative(r))
  {
    hide FieldAt, Le32;
  }

  /** The sizing pass. */
  method AmlBufferSize(native: Bytes, ghost parts: seq<Bytes>, ghost rs: seq<Resource>) returns (total: nat)
    requires HoldsAll(native, parts, rs)
    ensures total == AmlSizing(rs)
  {
    hide Joined, HoldsAll, AmlSizing, Holds, BodySizeFor;
    var pos := 0;
    ghost var i := 0;
    total := 0;
    WholeBuffer(native, parts, rs);
    while pos < |native|
      invariant i <= |rs| && i <= |parts| && pos <= |native| && native[pos..] == Joined(parts[i..]) && total + AmlSizing(rs[i..]) == AmlSizing(rs)
      decreases |native| - pos
    {
      NextNative(native, parts, rs, i, pos);
      var k, len := KindOfType(Le32(native, pos)), Le32(native, pos + 4);
      Chosen(native, parts, rs, i);
      total := total + Header(k) + BodySizeFor(k, native[pos..pos + len]);
      SizingOf(rs, i);
      if k.KEnd? { return; }
      pos := pos + len;
      i := i + 1;
    }
    NextNative(native, parts, rs, i, pos);
    SizingEnd(rs, i);
    total := total + Header(KEnd) + BodySize(KEnd);
  }

  lemma WholeBuffer(native: Bytes, parts: seq<Bytes>, rs: seq<Resource>)
    requires HoldsAll(native, parts, rs)
    ensures |parts| == |rs| && native[0..] == Joined(parts[0..]) && rs[0..] == rs
  {
    assert parts[0..] == parts;
  }

  lemma Chosen(native: Bytes, parts: seq<Bytes>, rs: seq<Resource>, i: nat)
    requires HoldsAll(native, parts, rs) && i < |rs|
    ensures i < |parts| && Holds(parts[i], rs[i]) && InRange(rs[i])
    ensures |parts[i]| >= NativeSize(KindOfNative(rs[i])) && |parts[i]| >= 8 && BodySizeFor(KindOfNative(rs[i]), parts[i]) == AmlBodySize(rs[i])
  {
    BodySizeChosen(rs[i], parts[i]);
    HeldHeader(parts[i], rs[i]);
    hide Joined, FieldAt, BodySizeFor, InRange;
  }

  lemma SizingOf(rs: seq<Resource>, i: nat)
    requires i < |rs|
    ensures AmlSizing(rs[i..]) ==
      Header(KindOfNative(rs[i])) + AmlBodySize(rs[i]) + if rs[i].EndTag? then 0 else AmlSizing(rs[i + 1..])
    ensures rs[i].EndTag? <==> KindOfNative(rs[i]).KEnd?
  {
    assert rs[i..][0] == rs[i] && rs[i..][1..] == rs[i + 1..];
  }

  lemma SizingEnd(rs: seq<Resource>, i: nat)
    requires i == |rs|
    ensures AmlSizing(rs[i..]) == Header(KEnd) + BodySize(KEnd)
  {
    assert rs[i..] == [];
  }

  /** Encoded so far, then a blank rest of the right size. */
  ghost predicate Encoded(buf: array<nat>, rs: seq<Resource>, i: nat, base: nat, prefix: Bytes)
    reads buf
  {
    && i <= |rs| && base == |prefix| && base + AmlSizing(rs[i..]) == buf.Length && Encode(rs) == prefix + Encode(rs[i..])
    && buf[..base] == prefix && Blank(buf[base..])
  }

  /** One resource, into the blank rest of the template. */
  method EncodeResource(k: Kind, n: Bytes, size: nat, buf: array<nat>, base: nat, ghost r: Resource, ghost prefix: Bytes) returns (len: nat)
    requires InRange(r) && k == KindOfNative(r) && size == AmlBodySize(r) && (Holds(n, r) || r.EndTag?)
    requires base == |prefix| <= buf.Length && buf[..base] == prefix && Blank(buf[base..])
    requires base + Header(k) + size + (if Spills(r) then 1 else 0) <= buf.Length
    modifies buf
    ensures len == |EncodeOne(r)| == Header(k) + size && base + len <= buf.Length
    ensures buf[..base + len] == prefix + EncodeOne(r) && Blank(buf[base + len..])
  {
    hide Holds, InRange, EncodeOne, ConvertToAml, AmlBodySize, BodySize;
    ghost var start, d := buf[..], buf[base..];
    Encoding(r);
    if r.EndTag? { EmptyEncodes(r, n, d); } else { ProgramEncodes(r, n, d); }
    OwnWindow(start, base);
    NativeResourceToAml(k, n, size, buf, base, start, d);
    len := Header(k) + size;
    AfterEncoding(start, base, prefix, r, d);
  }

  lemma OwnWindow(start: Bytes, base: nat)
    requires base <= |start|
    ensures Poke(start, base, start[base..]) == start
  {}

  lemma AfterEncoding(start: Bytes, base: nat, prefix: Bytes, r: Resource, d: Bytes)
    requires base == |prefix| <= |start| && start[..base] == prefix && d == start[base..] && Blank(d)
    requires |EncodeOne(r)| + (if Spills(r) then 1 else 0) <= |d|
    ensures var len, w := |EncodeOne(r)|, EncodeOne(r) + Spilled(r, d[|EncodeOne(r)|..]);
      && |w| == |d| && Poke(start, base, w)[..base + len] == prefix + EncodeOne(r) && Blank(Poke(start, base, w)[base + len..])
  {
    hide EncodeOne, Spills;
    var one := EncodeOne(r);
    var w := one + Spilled(r, d[|one|..]);
    assert forall i :: 0 <= i < base ==> start[i] == start[..base][i];
    var after := Poke(start, base, w);
    assert after == start[..base] + w;
    assert after[base + |one|..] == Spilled(r, d[|one|..]);
  }

  lemma EncodeNext(rs: seq<Resource>, i: nat, prefix: Bytes)
    requires i < |rs| && Encode(rs) == prefix + Encode(rs[i..])
    ensures Encode(rs) == prefix + EncodeOne(rs[i]) + (if rs[i].EndTag? then [] else Encode(rs[i + 1..]))
  {
    hide EncodeOne;
    assert rs[i..][0] == rs[i] && rs[i..][1..] == rs[i + 1..];
  }

  lemma MoreToCome(rs: seq<Resource>, i: nat)
    requires i <= |rs|
    ensures AmlSizing(rs[i..]) >= 1
  {
    if i < |rs| { SizingOf(rs, i); } else { SizingEnd(rs, i); }
  }

  /** The callback of the encoding pass, on the resource at `pos`. */
  method EncodeAt(native: Bytes, pos: nat, buf: array<nat>, base: nat, ghost parts: seq<Bytes>, ghost rs: seq<Resource>, ghost i: nat, ghost prefix: Bytes)
    returns (last: bool, pos': nat, base': nat)
    requires HoldsAll(native, parts, rs) && pos < |native| && i <= |parts| && native[pos..] == Joined(parts[i..])
    requires Encoded(buf, rs, i, base, prefix)
    modifies buf
    ensures last ==> buf[..] == Encode(rs)
    ensures !last ==> i < |parts| && pos < pos' <= |native| && native[pos'..] == Joined(parts[i + 1..])
    ensures !last ==> i < |rs| && Encoded(buf, rs, i + 1, base', prefix + EncodeOne(rs[i]))
  {
    hide Joined, HoldsAll, AmlSizing, Holds, BodySizeFor, Encode, EncodeOne, InRange;
    NextNative(native, parts, rs, i, pos);
    var k, len := KindOfType(Le32(native, pos)), Le32(native, pos + 4);
    Chosen(native, parts, rs, i);
    SizingOf(rs, i);
    EncodeNext(rs, i, prefix);
    if !rs[i].EndTag? { MoreToCome(rs, i + 1); }
    var n := native[pos..pos + len];
    var step := EncodeResource(k, n, BodySizeFor(k, n), buf, base, rs[i], prefix);
    last, pos', base' := k.KEnd?, pos + len, base + step;
    if last { assert buf[..] == buf[..base']; }
  }

  /** uacpi_native_resources_to_aml: the template of the resources in the native buffer. */
  method NativeResourcesToAml(native: Bytes, ghost parts: seq<Bytes>, ghost rs: seq<Resource>) returns (status: Status, buf: array<nat>)
    requires HoldsAll(native, parts, rs)
    ensures fresh(buf) && status == if |Encode(rs)| > LIMIT then TooBig else Success
    ensures status.Success? ==> buf[..] == Encode(rs)
  {
    var total := AmlBufferSize(native, parts, rs);
    AmlSizingExact(rs);
    if total > LIMIT { buf := new nat[0]; return TooBig, buf; }
    buf := new nat[total](_ => 0);
    hide Joined, HoldsAll, AmlSizing, Encode, EncodeOne, InRange;
    var pos, base := 0, 0;
    ghost var i, prefix: Bytes := 0, [];
    WholeBuffer(native, parts, rs);
    while pos < |native|
      invariant fresh(buf) && i <= |parts| && pos <= |native| && native[pos..] == Joined(parts[i..])
      invariant Encoded(buf, rs, i, base, prefix)
      decreases |native| - pos
    {
      hide Encoded;
      var last;
      last, pos, base := EncodeAt(native, pos, buf, base, parts, rs, i, prefix);
      if last { return Success, buf; }
      prefix := prefix + EncodeOne(rs[i]);
      i := i + 1;
    }
    NextNative(native, parts, rs, i, pos);
    SizingEnd(rs, i);
    EncodeEnd(rs, i);
    EndInRange();
    var step := EncodeResource(KEnd, [], BodySize(KEnd), buf, base, EndTag, prefix);
    assert buf[..] == buf[..base + step];
    return Success, buf;
  }

  lemma EncodeEnd(rs: seq<Resource>, i: nat)
    requires i == |rs|
    ensures Encode(rs[i..]) == EncodeOne(EndTag)
  {
    assert rs[i..] == [];
  }

  lemma EndInRange()
    ensures InRange(EndTag) && KindOfNative(EndTag) == KEnd && AmlBodySize(EndTag) == BodySize(KEnd)
  {}

  // -- There and back ------------------------------------------------------------------------

  lemma {:induction false} AscendingLength(list: seq<nat>, lo: nat, hi: nat)
    requires Ascending(list, lo, hi) && lo <= hi
    ensures |list| <= hi - lo
    decreases |list|
  {
    if list != [] { AscendingLength(list[1..], list[0] + 1, hi); }
  }

  lemma LengthSmall(r: Resource)
    requires InRange(r)
    ensures HEAD <= Length(r) < 64 && TypeCode(KindOfNative(r)) < 256
  {
    if r.Irq? { AscendingLength(r.irqs, 0, 16); }
    if r.Dma? { AscendingLength(r.channels, 0, 8); }
  }

  lemma LayoutHead(r: Resource)
    requires HEAD <= Length(r) < 64 && TypeCode(KindOfNative(r)) < 256
    ensures |Layout(r)| == Length(r) && Le32(Layout(r), 0) == TypeCode(KindOfNative(r)) && Le32(Layout(r), 4) == Length(r)
  {
    LayoutLength(r);
    var n, t, len := Layout(r), TypeCode(KindOfNative(r)), Length(r);
    var fields := n[HEAD..];
    assert n == Put32(t) + Put32(len) + fields;
    hide Layout, FieldAt, Length, Put32, Le32, TypeCode;
    Put32Back(t, [], Put32(len) + fields);
    Put32Back(len, Put32(t), fields);
    assert [] + Put32(t) + (Put32(len) + fields) == n;
  }

  /** What the decoder leaves in memory holds the resource. */
  lemma LayoutHolds(r: Resource)
    requires InRange(r)
    ensures Holds(Layout(r), r)
  {
    LengthSmall(r);
    LengthFits(r);
    LayoutHead(r);
    LayoutFields(r);
    hide Layout, FieldAt, Length, Le32, InRange, TypeCode, NativeSize, Padding;
  }

  lemma LayoutFields(r: Resource)
    requires Length(r) >= HEAD && |Layout(r)| == Length(r)
    ensures forall i :: HEAD <= i < Length(r) ==> Layout(r)[i] == FieldAt(r, i - HEAD)
  {
    hide FieldAt, Length, TypeCode, Put32;
  }

  function Parts(rs: seq<Resource>): (parts: seq<Bytes>)
    ensures |parts| == |rs| && forall i :: 0 <= i < |rs| ==> parts[i] == Layout(rs[i])
  {
    if rs == [] then [] else [Layout(rs[0])] + Parts(rs[1..])
  }

  lemma {:induction false} PartsJoin(rs: seq<Resource>)
    ensures Joined(Parts(rs)) == Layouts(rs)
  {
    hide Layout;
    if rs != [] {
      PartsJoin(rs[1..]);
      assert Parts(rs)[1..] == Parts(rs[1..]);
    }
  }

  lemma LayoutsHold(rs: seq<Resource>)
    requires forall i :: 0 <= i < |rs| ==> InRange(rs[i])
    ensures HoldsAll(Layouts(rs), Parts(rs), rs)
  {
    PartsJoin(rs);
    forall i | 0 <= i < |rs| ensures Holds(Parts(rs)[i], rs[i]) { LayoutHolds(rs[i]); }
  }

  lemma PutInBytes(v: nat)
    ensures v < 65536 ==> InBytes(Put16(v))
    ensures v < 0x1_0000_0000 ==> InBytes(Put32(v))
  {}

  lemma BytesOf(r: Resource)
    requires InRange(r)
    ensures InBytes(ToAml(r))
  {
    hide Put16, Put32, MaskOf, Ascending;
    match r
    case Irq(irqs, _, _, _, _, _) => MaskFits(irqs, 16); PutInBytes(MaskOf(irqs, 0, 16));
    case Dma(channels, _, _, _) => ByteMask(channels);
    case Io(_, lo, hi, _, _) => PutInBytes(lo); PutInBytes(hi);
    case FixedIo(a, _) => PutInBytes(a);
    case FixedDma(l, c, _) => PutInBytes(l); PutInBytes(c);
    case FixedMemory(_, b, n) => PutInBytes(b); PutInBytes(n);
    case Memory24(_, lo, hi, a, n) => PutInBytes(lo); PutInBytes(hi); PutInBytes(a); PutInBytes(n);
    case Memory32(_, lo, hi, a, n) => PutInBytes(lo); PutInBytes(hi); PutInBytes(a); PutInBytes(n);
    case StartDependent(_, _, _) =>
    case EndDependent =>
    case EndTag =>
  }

  lemma ByteMask(channels: seq<nat>)
    ensures MaskOf(channels, 0, 8) < 256
  {
    MaskBound(channels, 0, 8);
    Powers();
    hide MaskOf, Pow2;
  }

  lemma OneInBytes(r: Resource)
    requires InRange(r)
    ensures InBytes(EncodeOne(r))
  {
    BytesOf(r);
    BodyBack(r);
    hide ToAml, ToNative, InRange;
  }

  lemma {:induction false} TemplateInBytes(rs: seq<Resource>)
    requires forall i :: 0 <= i < |rs| ==> InRange(rs[i])
    ensures InBytes(Encode(rs))
  {
    OneInBytes(EndTag);
    if rs != [] {
      OneInBytes(rs[0]);
      hide EncodeOne, InRange;
      if !rs[0].EndTag? { TemplateInBytes(rs[1..]); }
    }
  }

  /** Reading a template, writing the resources back and reading again: the new template
      has the length of the part that was read, and the native buffers are equal, byte for
      byte. */
  method ReadWriteRead(s: Bytes) returns (ok: bool, first: array<nat>, template: array<nat>, second: array<nat>)
    requires InBytes(s)
    ensures ok <==> Decode(s).Ok? && NativeUse(Decode(s).resources) <= LIMIT && Decode(s).used <= LIMIT
    ensures ok ==> template.Length == Decode(s).used && second[..] == first[..]
  {
    hide Decode, Encode, InRange, SettledAll, NativeUse, Layouts;
    var status;
    status, first := NativeResourcesFromAml(s);
    template, second := first, first;
    if !status.Success? { return false, first, template, second; }
    ghost var rs := Decode(s).resources;
    DecodeYields(s);
    DecodeEncoded(rs);
    LayoutsHold(rs);
    TemplateInBytes(rs);
    ghost var native := first[..];
    status, template := NativeResourcesToAml(first[..], Parts(rs), rs);
    if !status.Success? { return false, first, template, second; }
    status, second := NativeResourcesFromAml(template[..]);
    assert first[..] == native;
    ok := true;
  }
}
