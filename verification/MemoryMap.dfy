/**
 Boot memory maps: carving reserved ranges out of usable memory.  Coverage is
 counted, so that nothing may be lost, added or listed twice.
 */
module MemoryMap {

  const CAPACITY: nat := 8192
  const PAGE: nat := 4096
  const WORD: nat := 0x1_0000_0000_0000_0000  // addresses are 64 bits wide

  datatype Kind = Usable | Reserved | Other(code: nat)

  datatype Entry = Entry(addr: nat, len: nat, kind: Kind)

  function Hit(e: Entry, kind: Kind, x: nat): nat { if e.kind == kind && e.addr <= x < e.addr + e.len then 1 else 0 }

  /** How many entries of a kind cover an address. */
  function Count(m: seq<Entry>, kind: Kind, x: nat): nat {
    if m == [] then 0 else Count(m[..|m|-1], kind, x) + Hit(m[|m|-1], kind, x)
  }

  lemma CountAppend(m: seq<Entry>, e: Entry, kind: Kind, x: nat)
    ensures Count(m + [e], kind, x) == Count(m, kind, x) + Hit(e, kind, x)
  {
    assert (m + [e])[..|m|] == m;
  }

  /** One append with its capacity check; empty ranges are skipped. */
  function Append(m: seq<Entry>, e: Entry): seq<Entry> {
    if e.len == 0 || |m| >= CAPACITY then m else m + [e]
  }

  lemma AppendCounts(m: seq<Entry>, e: Entry, kind: Kind, x: nat)
    requires |m| < CAPACITY
    ensures Count(Append(m, e), kind, x) == Count(m, kind, x) + Hit(e, kind, x)
  {
    CountAppend(m, e, kind, x);
  }
}

/**
 The Linux boot protocol: usable memory is the RAM of the firmware's table below
 the direct-map limit, minus the kernel image and the initial ramdisk.
 */
module LinuxMemoryMap {
  import opened MemoryMap

  const LIMIT: nat := 512 * 1024 * 1024 * 1024
  const MAX_E820: nat := 128

  datatype Span = Span(start: nat, end: nat)

  datatype Firmware = Firmware(addr: nat, size: nat, ram: bool)

  predicate Inside(s: Span, x: nat) { s.start <= x < s.end }

  predicate Within(spans: seq<Span>, x: nat) { exists i :: 0 <= i < |spans| && Inside(spans[i], x) }

  predicate Proper(spans: seq<Span>) {
    && (forall i :: 0 <= i < |spans| ==> spans[i].start <= spans[i].end)
    && (forall i, j :: 0 <= i < j < |spans| ==> spans[i].start <= spans[j].start)
  }

  /** Usable memory in a range: what no reserved span covers. */
  function Free(start: nat, end: nat, spans: seq<Span>, kind: Kind, x: nat): nat {
    if kind.Usable? && start <= x < end && !Within(spans, x) then 1 else 0
  }

  /** The part of the range below `cursor` has been emitted. */
  ghost predicate Emitted(m0: seq<Entry>, m: seq<Entry>, start: nat, upto: nat, spans: seq<Span>) {
    forall kind, x :: Count(m, kind, x) == Count(m0, kind, x) + Free(start, upto, spans, kind, x)
  }

  lemma EmitMore(m0: seq<Entry>, m: seq<Entry>, start: nat, cursor: nat, stop: nat, next: nat, spans: seq<Span>)
    requires Emitted(m0, m, start, cursor, spans) && |m| < CAPACITY && start <= cursor <= stop <= next
    requires forall x :: cursor <= x < stop ==> !Within(spans, x)
    requires forall x :: stop <= x < next ==> Within(spans, x)
    ensures Emitted(m0, Append(m, Entry(cursor, stop - cursor, Usable)), start, next, spans)
  {
    var e := Entry(cursor, stop - cursor, Usable);
    forall kind, x ensures Count(Append(m, e), kind, x) == Count(m0, kind, x) + Free(start, next, spans, kind, x) {
      AppendCounts(m, e, kind, x);
      assert Count(m, kind, x) == Count(m0, kind, x) + Free(start, cursor, spans, kind, x);
    }
  }

  /** Emits the usable parts between the reserved spans. */
  method AppendUsable(m0: seq<Entry>, start: nat, end: nat, spans: seq<Span>) returns (m: seq<Entry>)
    requires Proper(spans) && start <= end && |m0| + |spans| + 1 <= CAPACITY
    ensures Emitted(m0, m, start, end, spans) && |m| <= |m0| + |spans| + 1
  {
    m := m0;
    var cursor, i := start, 0;
    while i < |spans| && cursor < end
      invariant i <= |spans| && start <= cursor && |m| <= |m0| + i
      invariant Emitted(m0, m, start, if cursor < end then cursor else end, spans)
      invariant forall j, x: nat :: 0 <= j < i && Inside(spans[j], x) ==> x < cursor || x >= end
    {
      var s := spans[i];
      if s.end > cursor && s.start < end {
        var stop := if s.start > cursor then s.start else cursor;
        var next := if s.end < end then s.end else end;
        EmitMore(m0, m, start, cursor, stop, next, spans);
        if s.start > cursor { m := Append(m, Entry(cursor, s.start - cursor, Usable)); }
        cursor := s.end;
      }
      i := i + 1;
    }
    if cursor < end {
      EmitMore(m0, m, start, cursor, end, end, spans);
      m := Append(m, Entry(cursor, end - cursor, Usable));
    }
  }

  // -- The whole table --------------------------------------------------------------------------

  function EndOf(f: Firmware): nat { (f.addr + f.size) % WORD }

  /** Entries that wrap around or start beyond the limit are ignored. */
  predicate Considered(f: Firmware) { f.addr <= EndOf(f) && f.addr < LIMIT }

  function Clipped(f: Firmware): nat { if EndOf(f) > LIMIT then LIMIT else EndOf(f) }

  /** How many RAM, or other, entries cover an address below the limit. */
  function Covering(table: seq<Firmware>, ram: bool, x: nat): nat {
    if table == [] then 0
    else
      var f := table[|table|-1];
      Covering(table[..|table|-1], ram, x) + if f.ram == ram && Considered(f) && f.addr <= x < Clipped(f) then 1 else 0
  }

  /** The map holds the usable part of the RAM and the other entries. */
  ghost predicate Built(m: seq<Entry>, table: seq<Firmware>, spans: seq<Span>) {
    forall x: nat ::
      && Count(m, Usable, x) == (if Within(spans, x) then 0 else Covering(table, true, x))
      && Count(m, Reserved, x) == Covering(table, false, x)
  }

  lemma BuiltRam(m0: seq<Entry>, m: seq<Entry>, table: seq<Firmware>, f: Firmware, spans: seq<Span>)
    requires Built(m0, table, spans) && f.ram && Considered(f) && Emitted(m0, m, f.addr, Clipped(f), spans)
    ensures Built(m, table + [f], spans)
  {
    var more := table + [f];
    assert more[..|table|] == table;
    forall x: nat
      ensures Count(m, Usable, x) == (if Within(spans, x) then 0 else Covering(more, true, x))
      ensures Count(m, Reserved, x) == Covering(more, false, x)
    {
      assert Count(m, Usable, x) == Count(m0, Usable, x) + Free(f.addr, Clipped(f), spans, Usable, x);
      assert Count(m, Reserved, x) == Count(m0, Reserved, x) + Free(f.addr, Clipped(f), spans, Reserved, x);
    }
  }

  lemma BuiltOther(m: seq<Entry>, table: seq<Firmware>, f: Firmware, spans: seq<Span>)
    requires Built(m, table, spans) && |m| < CAPACITY && !(f.ram && Considered(f))
    ensures Built(if Considered(f) then Append(m, Entry(f.addr, Clipped(f) - f.addr, Reserved)) else m, table + [f], spans)
  {
    var more := table + [f];
    assert more[..|table|] == table;
    if Considered(f) {
      var e := Entry(f.addr, Clipped(f) - f.addr, Reserved);
      forall x: nat
        ensures Count(Append(m, e), Usable, x) == (if Within(spans, x) then 0 else Covering(more, true, x))
        ensures Count(Append(m, e), Reserved, x) == Covering(more, false, x)
      {
        AppendCounts(m, e, Usable, x);
        AppendCounts(m, e, Reserved, x);
        assert Count(m, Usable, x) == (if Within(spans, x) then 0 else Covering(table, true, x));
      }
    }
  }

  function Bump(s: Span, x: nat): nat { if Inside(s, x) then 1 else 0 }

  /** The firmware's table, entry by entry. */
  method AppendTable(table: seq<Firmware>, spans: seq<Span>) returns (m: seq<Entry>)
    requires Proper(spans) && |spans| == 2 && |table| <= MAX_E820
    ensures |m| <= 3 * |table| && Built(m, table, spans)
  {
    m := [];
    var i := 0;
    assert table[..0] == [];
    while i < |table|
      invariant i <= |table| && |m| <= 3 * i && Built(m, table[..i], spans)
    {
      hide Built, Emitted;
      var f := table[i];
      assert table[..i + 1] == table[..i] + [f];
      if Considered(f) && f.ram {
        ghost var before := m;
        m := AppendUsable(m, f.addr, Clipped(f), spans);
        BuiltRam(before, m, table[..i], f, spans);
      } else {
        BuiltOther(m, table[..i], f, spans);
        if Considered(f) { m := Append(m, Entry(f.addr, Clipped(f) - f.addr, Reserved)); }
      }
      i := i + 1;
    }
    assert table[..|table|] == table;
  }

  /** What the finished map says about one address. */
  ghost predicate Right(m: seq<Entry>, table: seq<Firmware>, a: Span, b: Span, x: nat) {
    && Count(m, Usable, x) == (if Inside(a, x) || Inside(b, x) then 0 else Covering(table, true, x))
    && Count(m, Reserved, x) == Covering(table, false, x) + Bump(a, x) + Bump(b, x)
  }

  function AsEntry(s: Span): Entry
    requires s.start <= s.end
  {
    Entry(s.start, s.end - s.start, Reserved)
  }

  lemma Finished(m: seq<Entry>, table: seq<Firmware>, a: Span, b: Span, x: nat)
    requires Built(m, table, [a, b]) && |m| + 2 <= CAPACITY && a.start <= a.end && b.start <= b.end
    ensures Right(Append(Append(m, AsEntry(a)), AsEntry(b)), table, a, b, x)
  {
    SpanCounts(m, a, x);
    SpanCounts(Append(m, AsEntry(a)), b, x);
    assert Within([a, b], x) <==> Inside(a, x) || Inside(b, x) by {
      assert [a, b][0] == a && [a, b][1] == b;
    }
    assert Count(m, Usable, x) == (if Within([a, b], x) then 0 else Covering(table, true, x));
  }

  /** Every address below the limit is usable as often as the firmware lists it as RAM,
      unless a reserved span covers it; nothing else is usable, and the table always
      fits the map. */
  method BuildMemoryMap(table: seq<Firmware>, kernel: Span, initrd: Span) returns (m: seq<Entry>)
    requires kernel.start <= kernel.end && initrd.start <= initrd.end
    ensures var used := table[..if |table| < MAX_E820 then |table| else MAX_E820];
      forall x :: Right(m, used, kernel, initrd, x)
  {
    var a, b := kernel, initrd;
    if b.start < a.start { a, b := initrd, kernel; }
    var used := table[..if |table| < MAX_E820 then |table| else MAX_E820];
    m := AppendTable(used, [a, b]);
    hide Built;
    ghost var finished := Append(Append(m, AsEntry(a)), AsEntry(b));
    forall x ensures Right(finished, used, kernel, initrd, x) { Finished(m, used, a, b, x); }
    m := Append(m, AsEntry(a));
    if b.end > b.start { m := Append(m, AsEntry(b)); }
    assert m == finished;
  }

  lemma SpanCounts(m: seq<Entry>, s: Span, x: nat)
    requires |m| < CAPACITY && s.start <= s.end
    ensures Count(Append(m, Entry(s.start, s.end - s.start, Reserved)), Usable, x) == Count(m, Usable, x)
    ensures Count(Append(m, Entry(s.start, s.end - s.start, Reserved)), Reserved, x) == Count(m, Reserved, x) + Bump(s, x)
  {
    AppendCounts(m, Entry(s.start, s.end - s.start, Reserved), Usable, x);
    AppendCounts(m, Entry(s.start, s.end - s.start, Reserved), Reserved, x);
  }
}

/**
 The LoongArch boot path: a range is reserved by splitting the usable entries it
 touches, page by page.
 */
module LoongArchMemoryMap {
  import opened Common
  import opened MemoryMap

  function AlignDown(x: nat): nat { x / PAGE * PAGE }

  function AlignUp(x: nat): nat { AlignDown(x + PAGE - 1) }

  /** What reserving a range does to the coverage of every address: usable memory in
      the range becomes reserved, everything else stays. */
  ghost predicate Carved(was: seq<Entry>, now: seq<Entry>, lo: nat, hi: nat) {
    forall kind, x: nat :: Count(now, kind, x) == After(Count(was, kind, x), Count(was, Usable, x), kind, lo <= x < hi)
  }

  function After(count: nat, usable: nat, kind: Kind, inside: bool): nat {
    if !inside then count
    else if kind.Usable? then 0
    else if kind.Reserved? then count + usable
    else count
  }

  /** A list of the entry if it is not empty. */
  function Piece(addr: nat, len: nat, kind: Kind): seq<Entry> { if len == 0 then [] else [Entry(addr, len, kind)] }

  predicate Untouched(e: Entry, lo: nat, hi: nat) { e.kind != Usable || hi <= e.addr || lo >= e.addr + e.len }

  /** The pieces of one entry: what is usable before, the reserved part, what is usable after. */
  function Pieces(e: Entry, lo: nat, hi: nat): seq<Entry>
    requires lo <= hi
  {
    var end := e.addr + e.len;
    if Untouched(e, lo, hi) then Piece(e.addr, e.len, e.kind)
    else
      var from, to := Max(lo, e.addr), Min(hi, end);
      Piece(e.addr, from - e.addr, Usable) + Piece(from, to - from, Reserved) + Piece(to, end - to, Usable)
  }

  function Split(m: seq<Entry>, lo: nat, hi: nat): seq<Entry>
    requires lo <= hi
  {
    if m == [] then [] else Split(m[..|m|-1], lo, hi) + Pieces(m[|m|-1], lo, hi)
  }

  lemma {:induction false} CountConcat(a: seq<Entry>, b: seq<Entry>, kind: Kind, x: nat)
    ensures Count(a + b, kind, x) == Count(a, kind, x) + Count(b, kind, x)
  {
    if b == [] {
      assert a + b == a;
    } else {
      CountConcat(a, b[..|b|-1], kind, x);
      assert (a + b)[..|a + b|-1] == a + b[..|b|-1];
    }
  }

  lemma PieceCount(addr: nat, len: nat, k: Kind, kind: Kind, x: nat)
    ensures Count(Piece(addr, len, k), kind, x) == Hit(Entry(addr, len, k), kind, x)
  {
    if len > 0 { CountAppend([], Entry(addr, len, k), kind, x); assert [] + [Entry(addr, len, k)] == [Entry(addr, len, k)]; }
  }

  lemma ThreePieces(p: seq<Entry>, q: seq<Entry>, r: seq<Entry>, kind: Kind, x: nat)
    ensures Count(p + q + r, kind, x) == Count(p, kind, x) + Count(q, kind, x) + Count(r, kind, x)
  {
    CountConcat(p + q, r, kind, x);
    CountConcat(p, q, kind, x);
  }

  lemma HitsSplit(addr: nat, from: nat, to: nat, end: nat, lo: nat, hi: nat, kind: Kind, x: nat)
    requires addr <= from <= to <= end && from == Max(lo, addr) && to == Min(hi, end)
    ensures Hit(Entry(addr, from - addr, Usable), kind, x) + Hit(Entry(from, to - from, Reserved), kind, x) + Hit(Entry(to, end - to, Usable), kind, x)
      == After(Hit(Entry(addr, end - addr, Usable), kind, x), Hit(Entry(addr, end - addr, Usable), Usable, x), kind, lo <= x < hi)
  {}

  /** The pieces partition the entry. */
  lemma PiecesCount(e: Entry, lo: nat, hi: nat, kind: Kind, x: nat)
    requires lo <= hi
    ensures Count(Pieces(e, lo, hi), kind, x) == After(Hit(e, kind, x), Hit(e, Usable, x), kind, lo <= x < hi)
  {
    hide Count, Piece;
    if Untouched(e, lo, hi) {
      PieceCount(e.addr, e.len, e.kind, kind, x);
    } else {
      var end, from, to := e.addr + e.len, Max(lo, e.addr), Min(hi, e.addr + e.len);
      HitsSplit(e.addr, from, to, end, lo, hi, kind, x);
      hide Hit, After;
      ThreePieces(Piece(e.addr, from - e.addr, Usable), Piece(from, to - from, Reserved), Piece(to, end - to, Usable), kind, x);
      PieceCount(e.addr, from - e.addr, Usable, kind, x);
      PieceCount(from, to - from, Reserved, kind, x);
      PieceCount(to, end - to, Usable, kind, x);
    }
  }

  lemma {:induction false} SplitCount(m: seq<Entry>, lo: nat, hi: nat, kind: Kind, x: nat)
    requires lo <= hi
    ensures Count(Split(m, lo, hi), kind, x) == After(Count(m, kind, x), Count(m, Usable, x), kind, lo <= x < hi)
  {
    if m != [] {
      var rest, e := m[..|m|-1], m[|m|-1];
      SplitCount(rest, lo, hi, kind, x);
      PiecesCount(e, lo, hi, kind, x);
      CountConcat(Split(rest, lo, hi), Pieces(e, lo, hi), kind, x);
    }
  }

  lemma {:induction false} SplitGrows(m: seq<Entry>, i: nat, lo: nat, hi: nat)
    requires lo <= hi && i <= |m|
    ensures |Split(m[..i], lo, hi)| <= |Split(m, lo, hi)|
    decreases |m|
  {
    if i < |m| {
      SplitGrows(m[..|m|-1], i, lo, hi);
      assert m[..|m|-1][..i] == m[..i];
    } else {
      assert m[..i] == m;
    }
  }

  // -- The code ---------------------------------------------------------------------------------

  method TryAppend(m: seq<Entry>, addr: nat, len: nat, kind: Kind) returns (ok: bool, r: seq<Entry>)
    requires |m| <= CAPACITY
    ensures ok <==> |m + Piece(addr, len, kind)| <= CAPACITY
    ensures r == if ok then m + Piece(addr, len, kind) else m
  {
    if len == 0 { assert m + [] == m; return true, m; }
    if |m| >= CAPACITY { return false, m; }
    return true, m + [Entry(addr, len, kind)];
  }

  /** The pieces of one entry go to the end of the scratch map, if they all fit. */
  method AppendPieces(m: seq<Entry>, e: Entry, lo: nat, hi: nat) returns (ok: bool, r: seq<Entry>)
    requires lo <= hi && |m| <= CAPACITY
    ensures ok <==> |m + Pieces(e, lo, hi)| <= CAPACITY
    ensures ok ==> r == m + Pieces(e, lo, hi)
  {
    var end := e.addr + e.len;
    if e.kind != Usable || hi <= e.addr || lo >= end {
      ok, r := TryAppend(m, e.addr, e.len, e.kind);
      return;
    }
    var from, to := Max(lo, e.addr), Min(hi, end);
    ghost var p, q, t := Piece(e.addr, from - e.addr, Usable), Piece(from, to - from, Reserved), Piece(to, end - to, Usable);
    assert m + Pieces(e, lo, hi) == m + p + q + t;
    ok, r := true, m;
    if e.addr < from { ok, r := TryAppend(r, e.addr, from - e.addr, Usable); }
    if !ok { return; }
    assert r == m + p;
    ok, r := TryAppend(r, from, to - from, Reserved);
    if !ok { return; }
    if to < end { ok, r := TryAppend(r, to, end - to, Usable); }
  }

  function IfFits(s: seq<Entry>, otherwise: seq<Entry>): seq<Entry> { if |s| <= CAPACITY then s else otherwise }

  /** Reserves a range, rounded out to whole pages; a map that would overflow stays as
      it is. */
  method AddReservedRange(m: seq<Entry>, start: nat, end: nat) returns (r: seq<Entry>)
    requires |m| <= CAPACITY
    ensures start >= end ==> r == m
    ensures start < end ==>
      AlignDown(start) <= AlignUp(end) && r == IfFits(Split(m, AlignDown(start), AlignUp(end)), m)
  {
    if start >= end { return m; }
    var lo, hi := AlignDown(start), AlignUp(end);
    assert lo <= hi;
    r := [];
    assert m[..0] == [];
    for i := 0 to |m|
      invariant |r| <= CAPACITY && r == Split(m[..i], lo, hi)
    {
      assert m[..i + 1][..i] == m[..i];
      SplitGrows(m, i + 1, lo, hi);
      var ok;
      ok, r := AppendPieces(r, m[i], lo, hi);
      if !ok { return m; }
    }
    assert m[..|m|] == m;
  }

  /** Unless the map would overflow, exactly the usable addresses in the page-rounded
      range become reserved. */
  lemma ReservedExactly(m: seq<Entry>, lo: nat, hi: nat)
    requires lo <= hi
    ensures Carved(m, Split(m, lo, hi), lo, hi)
  {
    forall kind, x: nat
      ensures Count(Split(m, lo, hi), kind, x) == After(Count(m, kind, x), Count(m, Usable, x), kind, lo <= x < hi)
    {
      SplitCount(m, lo, hi, kind, x);
    }
  }
}
