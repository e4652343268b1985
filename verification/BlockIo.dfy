/**
 Byte-granular block I/O: head, middle and tail sectors, bounce buffers and capped
 requests must add up to plain reads and writes of a flat array of bytes.
 */
module BlockIo {
  import opened Common

  const PAGE_SIZE := 4096

  type Byte = bv8

  /** `after` is `before` with `n` bytes from `at` replaced by those of `src` from `from`. */
  ghost predicate Filled(before: seq<Byte>, after: seq<Byte>, at: nat, n: nat, src: seq<Byte>, from: nat) {
    && |after| == |before| && (n > 0 ==> at + n <= |after| && from + n <= |src|)
    && forall i :: 0 <= i < |after| ==> after[i] == if at <= i < at + n then src[from + i - at] else before[i]
  }

  /** Nothing outside the range differs. */
  ghost predicate Within(before: seq<Byte>, after: seq<Byte>, lo: nat, hi: nat) {
    |after| == |before| && forall i :: 0 <= i < |after| && !(lo <= i < hi) ==> after[i] == before[i]
  }

  lemma FilledMore(a: seq<Byte>, b: seq<Byte>, c: seq<Byte>, at: nat, n: nat, m: nat, src: seq<Byte>, from: nat)
    requires Filled(a, b, at, n, src, from) && Filled(b, c, at + n, m, src, from + n)
    ensures Filled(a, c, at, n + m, src, from)
  {}

  lemma FilledWithin(a: seq<Byte>, b: seq<Byte>, at: nat, n: nat, src: seq<Byte>, from: nat, lo: nat, hi: nat)
    requires Filled(a, b, at, n, src, from) && lo <= at && at + n <= hi
    ensures Within(a, b, lo, hi)
  {}

  lemma WithinTwice(a: seq<Byte>, b: seq<Byte>, c: seq<Byte>, lo: nat, hi: nat)
    requires Within(a, b, lo, hi) && Within(b, c, lo, hi)
    ensures Within(a, c, lo, hi)
  {}

  lemma WithinWider(a: seq<Byte>, b: seq<Byte>, lo: nat, hi: nat, lo': nat, hi': nat)
    requires Within(a, b, lo, hi) && lo' <= lo && hi <= hi'
    ensures Within(a, b, lo', hi')
  {}

  function Splice(s: seq<Byte>, at: nat, data: seq<Byte>): (r: seq<Byte>)
    requires at + |data| <= |s|
    ensures Filled(s, r, at, |data|, data, 0)
  {
    s[..at] + data + s[at + |data|..]
  }

  /** The bytes of a number of sectors. */
  function Bytes(sectors: nat, bs: nat): nat { sectors * bs }

  function SectorOf(offset: nat, bs: nat): nat
    requires bs > 0
  {
    offset / bs
  }

  /** The offset inside the sector. */
  function Inside(offset: nat, bs: nat): nat
    requires bs > 0
  {
    offset % bs
  }

  lemma Distribute(a: nat, b: nat, c: nat)
    ensures Bytes(a + b, c) == Bytes(a, c) + Bytes(b, c)
  {}

  lemma AtMost(n: nat, m: nat, c: nat)
    requires n <= m
    ensures Bytes(n, c) <= Bytes(m, c)
  {}

  lemma Blocks(offset: nat, bs: nat)
    requires bs > 0
    ensures Bytes(SectorOf(offset, bs), bs) + Inside(offset, bs) == offset && Inside(offset, bs) < bs
  {}

  lemma NoneAndOne(bs: nat)
    ensures Bytes(0, bs) == 0 && Bytes(1, bs) == bs
  {}

  /** How a request or a copy to or from user space turns out: a failed one may leave
      anything in the range it was asked to change. */
  datatype Outcome = Good | Bad(junk: seq<Byte>)

  function Cut(junk: seq<Byte>, n: nat): (r: seq<Byte>)
    ensures |r| <= n
  {
    if |junk| <= n then junk else junk[..n]
  }

  /** A block device.  What fails is decided by the environment, per request. */
  class Device {
    const bs: nat
    const maxOp: nat
    const canRead: bool
    const canWrite: bool
    const outcomes: nat -> Outcome
    const faults: nat -> Outcome
    var disk: seq<Byte>
    var requests: seq<nat>  // the size of every request so far, in sectors
    var copies: nat

    /** Every request fits the device's limit. */
    ghost predicate Valid()
      reads this
    {
      && 0 < bs <= maxOp
      && forall i :: 0 <= i < |requests| ==> Bytes(requests[i], bs) <= maxOp
    }

    /** Nothing goes wrong. */
    ghost predicate Reliable() { forall k :: outcomes(k).Good? && faults(k).Good? }

    method Read(sector: nat, n: nat) returns (ok: bool, data: seq<Byte>)
      requires Valid() && Bytes(n, bs) <= maxOp
      modifies this`requests
      ensures Valid()
      ensures ok ==> Bytes(sector + n, bs) <= |disk| && data == disk[Bytes(sector, bs)..Bytes(sector + n, bs)]
      ensures |data| == Bytes(n, bs)
      ensures Reliable() && Bytes(sector + n, bs) <= |disk| ==> ok
    {
      var o := outcomes(|requests|);
      requests := requests + [n];
      Distribute(sector, n, bs);
      ok := o.Good? && Bytes(sector + n, bs) <= |disk|;
      if ok {
        data := disk[Bytes(sector, bs)..Bytes(sector + n, bs)];
      } else {
        var junk := if o.Bad? then Cut(o.junk, Bytes(n, bs)) else [];
        data := junk + seq(Bytes(n, bs) - |junk|, _ => 0);
      }
    }

    method Write(sector: nat, n: nat, data: seq<Byte>) returns (ok: bool)
      requires Valid() && Bytes(n, bs) <= maxOp && |data| == Bytes(n, bs)
      modifies this`requests, this`disk
      ensures Valid()
      ensures ok ==> Filled(old(disk), disk, Bytes(sector, bs), Bytes(n, bs), data, 0)
      ensures Within(old(disk), disk, Bytes(sector, bs), Bytes(sector + n, bs))
      ensures Reliable() && Bytes(sector + n, bs) <= |old(disk)| ==> ok
    {
      var o := outcomes(|requests|);
      requests := requests + [n];
      Distribute(sector, n, bs);
      ok := o.Good? && Bytes(sector + n, bs) <= |disk|;
      if ok {
        disk := Splice(disk, Bytes(sector, bs), data);
      } else if o.Bad? && Bytes(sector + n, bs) <= |disk| {
        disk := Splice(disk, Bytes(sector, bs), Cut(o.junk, Bytes(n, bs)));
      }
    }

    /** Copies into the caller's buffer; a user-space buffer may fault. */
    method CopyOut(buf: array<Byte>, at: nat, data: seq<Byte>, user: bool) returns (ok: bool)
      requires at + |data| <= buf.Length
      modifies this`copies, buf
      ensures ok ==> Filled(old(buf[..]), buf[..], at, |data|, data, 0)
      ensures Within(old(buf[..]), buf[..], at, at + |data|)
      ensures Reliable() || !user ==> ok
    {
      var o := if user then faults(copies) else Good;
      if user { copies := copies + 1; }
      ok := o.Good? || |data| == 0;
      var put := if ok then data else Cut(o.junk, |data|);
      for i := 0 to |put|
        invariant forall j :: 0 <= j < buf.Length ==> buf[j] == if at <= j < at + i then put[j - at] else old(buf[j])
      {
        buf[at + i] := put[i];
      }
    }

    /** Copies from the caller's buffer. */
    method CopyIn(buf: array<Byte>, at: nat, n: nat, user: bool) returns (ok: bool, data: seq<Byte>)
      requires at + n <= buf.Length
      modifies this`copies
      ensures |data| == n && (ok ==> data == buf[at..at + n])
      ensures Reliable() || !user ==> ok
    {
      var o := if user then faults(copies) else Good;
      if user { copies := copies + 1; }
      ok := o.Good? || n == 0;
      data := if ok then buf[at..at + n] else seq(n, _ => 0);
    }
  }

  /** The largest request, in sectors. */
  function MaxSectors(dev: Device): (r: nat)
    requires 0 < dev.bs <= dev.maxOp
    ensures 1 <= r && Bytes(r, dev.bs) <= dev.maxOp
  {
    QuotientFits(dev.maxOp, dev.bs);
    SectorOf(dev.maxOp, dev.bs)
  }

  lemma QuotientFits(a: nat, b: nat)
    requires 0 < b <= a
    ensures 1 <= SectorOf(a, b) && Bytes(SectorOf(a, b), b) <= a
  {}

  // -- Whole sectors ---------------------------------------------------------------------

  /** Whole sectors, straight into the buffer or through a bounce buffer of at most
      `limit` sectors. */
  method ReadSectors(dev: Device, sector: nat, secs: nat, limit: nat, bounced: bool, user: bool, buf: array<Byte>, at: nat) returns (ok: bool)
    requires dev.Valid() && 1 <= limit <= MaxSectors(dev) && at + Bytes(secs, dev.bs) <= buf.Length
    modifies dev`requests, dev`copies, buf
    ensures dev.Valid()
    ensures ok ==> Filled(old(buf[..]), buf[..], at, Bytes(secs, dev.bs), dev.disk, Bytes(sector, dev.bs))
    ensures Within(old(buf[..]), buf[..], at, at + Bytes(secs, dev.bs))
    ensures dev.Reliable() && Bytes(sector + secs, dev.bs) <= |dev.disk| ==> ok
  {
    hide Bytes, SectorOf, Inside, Filled, Within, Device.Reliable;
    var left, next, dst, bs := secs, sector, at, dev.bs;
    ghost var done, before := 0, buf[..];
    NoneAndOne(bs);
    FilledNone(before, at, dev.disk, Bytes(sector, bs));
    while left > 0
      invariant dev.Valid() && done + left == secs && next == sector + done && dst == at + Bytes(done, bs)
      invariant Filled(before, buf[..], at, Bytes(done, bs), dev.disk, Bytes(sector, bs))
    {
      var n := Min(left, limit);
      AtMost(n, MaxSectors(dev), bs);
      Distribute(done, n, bs);
      Distribute(sector, done, bs);
      Distribute(next, n, bs);
      AtMost(done + n, secs, bs);
      AtMost(next + n, sector + secs, bs);
      ghost var now := buf[..];
      var good, data := dev.Read(next, n);
      if bounced && !good { FilledWithin(before, now, at, Bytes(done, bs), dev.disk, Bytes(sector, bs), at, at + Bytes(secs, bs)); return false; }
      var copied := dev.CopyOut(buf, dst, data, bounced && user);
      FilledWithin(before, now, at, Bytes(done, bs), dev.disk, Bytes(sector, bs), at, at + Bytes(secs, bs));
      WithinWider(now, buf[..], dst, dst + Bytes(n, bs), at, at + Bytes(secs, bs));
      WithinTwice(before, now, buf[..], at, at + Bytes(secs, bs));
      if !good || !copied { return false; }
      FilledFrom(now, buf[..], dst, Bytes(n, bs), data, dev.disk, Bytes(next, bs));
      FilledMore(before, now, buf[..], at, Bytes(done, bs), Bytes(n, bs), dev.disk, Bytes(sector, bs));
      dst, next, left := dst + Bytes(n, bs), next + n, left - n;
      done := done + n;
    }
    FilledWithin(before, buf[..], at, Bytes(secs, bs), dev.disk, Bytes(sector, bs), at, at + Bytes(secs, bs));
    ok := true;
  }

  lemma FilledNone(a: seq<Byte>, at: nat, src: seq<Byte>, from: nat)
    ensures Filled(a, a, at, 0, src, from)
  {}

  /** Filling from a slice is filling from the whole. */
  lemma FilledFrom(a: seq<Byte>, b: seq<Byte>, at: nat, n: nat, data: seq<Byte>, src: seq<Byte>, from: nat)
    requires from + n <= |src| && data == src[from..from + n] && Filled(a, b, at, n, data, 0)
    ensures Filled(a, b, at, n, src, from)
  {}

  /** Part of one sector, through a bounce buffer. */
  method ReadPart(dev: Device, sector: nat, off: nat, n: nat, user: bool, buf: array<Byte>, at: nat) returns (ok: bool)
    requires dev.Valid() && off + n <= dev.bs && at + n <= buf.Length
    modifies dev`requests, dev`copies, buf
    ensures dev.Valid()
    ensures ok ==> Filled(old(buf[..]), buf[..], at, n, dev.disk, Bytes(sector, dev.bs) + off)
    ensures Within(old(buf[..]), buf[..], at, at + n)
    ensures dev.Reliable() && Bytes(sector + 1, dev.bs) <= |dev.disk| ==> ok
  {
    hide Bytes, SectorOf, Inside, Filled, Device.Reliable;
    NoneAndOne(dev.bs);
    Distribute(sector, 1, dev.bs);
    var good, data := dev.Read(sector, 1);
    if !good { return false; }
    ok := dev.CopyOut(buf, at, data[off..off + n], user);
    if ok { FilledFrom(old(buf[..]), buf[..], at, n, data[off..off + n], dev.disk, Bytes(sector, dev.bs) + off); }
  }

  datatype Ret = Total(bytes: nat) | NoDevice | NotSupported | Failed

  predicate Aligned(address: nat) { address % PAGE_SIZE == 0 }

  /** The end of the last sector that holds a byte below `end`. */
  function SectorEnd(end: nat, bs: nat): nat
    requires bs > 0
  {
    Bytes(SectorOf(end + bs - 1, bs), bs)
  }

  /** A sector that starts below `end` ends at or below the last sector's end. */
  lemma SectorInside(sector: nat, n: nat, bs: nat, end: nat)
    requires bs > 0 && n > 0 && Bytes(sector + n - 1, bs) < end
    ensures Bytes(sector + n, bs) <= SectorEnd(end, bs)
  {
    var last := SectorOf(end + bs - 1, bs);
    if last < sector + n {
      AtMost(last, sector + n - 1, bs);
      Blocks(end + bs - 1, bs);
    }
    AtMost(sector + n, if last < sector + n then sector + n else last, bs);
  }

  lemma WholeSectors(offset: nat, len: nat, bs: nat)
    requires bs > 0 && len > 0 && Inside(offset, bs) == 0 && Inside(len, bs) == 0
    ensures Bytes(SectorOf(offset, bs) + SectorOf(len, bs), bs) <= SectorEnd(offset + len, bs)
  {
    Blocks(offset, bs);
    Blocks(len, bs);
    Distribute(SectorOf(offset, bs), SectorOf(len, bs), bs);
    Distribute(SectorOf(offset, bs) + SectorOf(len, bs) - 1, 1, bs);
    SectorInside(SectorOf(offset, bs), SectorOf(len, bs), bs, offset + len);
  }

  /** Where the middle sectors and the tail lie. */
  lemma Middle(sector: nat, left: nat, bs: nat, start: nat)
    requires bs > 0 && Bytes(sector, bs) == start
    ensures var mid := SectorOf(left, bs);
      && Bytes(mid, bs) <= left < Bytes(mid, bs) + bs
      && Bytes(sector + mid, bs) == start + Bytes(mid, bs)
      && (mid > 0 ==> Bytes(sector + mid, bs) <= SectorEnd(start + left, bs))
      && (Bytes(mid, bs) < left ==> Bytes(sector + mid + 1, bs) <= SectorEnd(start + left, bs))
  {
    var mid := SectorOf(left, bs);
    Blocks(left, bs);
    Distribute(sector, mid, bs);
    if mid > 0 {
      Distribute(sector + mid - 1, 1, bs);
      SectorInside(sector, mid, bs, start + left);
    }
    if Bytes(mid, bs) < left { SectorInside(sector + mid, 1, bs, start + left); }
  }

  /** The first `done` bytes of the buffer are read, or something within the first
      `len` went wrong. */
  ghost predicate ReadUpTo(before: seq<Byte>, now: seq<Byte>, disk: seq<Byte>, offset: nat, done: nat, len: nat, ok: bool) {
    (ok ==> Filled(before, now, 0, done, disk, offset)) && Within(before, now, 0, len)
  }

  lemma ReadMore(before: seq<Byte>, now: seq<Byte>, after: seq<Byte>, disk: seq<Byte>, offset: nat, done: nat, n: nat, len: nat, ok: bool)
    requires ReadUpTo(before, now, disk, offset, done, len, true) && done + n <= len
    requires (ok ==> Filled(now, after, done, n, disk, offset + done)) && Within(now, after, done, done + n)
    ensures ReadUpTo(before, after, disk, offset, done + n, len, ok)
  {
    if ok { FilledMore(before, now, after, 0, done, n, disk, offset); }
  }

  method ReadMid(dev: Device, sector: nat, mid: nat, buf: array<Byte>, address: nat, user: bool, done: nat, len: nat,
                 ghost before: seq<Byte>, ghost offset: nat) returns (ok: bool)
    requires dev.Valid() && done + Bytes(mid, dev.bs) <= len <= buf.Length && Bytes(sector, dev.bs) == offset + done
    requires ReadUpTo(before, buf[..], dev.disk, offset, done, len, true)
    modifies dev`requests, dev`copies, buf
    ensures dev.Valid() && ReadUpTo(before, buf[..], dev.disk, offset, done + Bytes(mid, dev.bs), len, ok)
    ensures mid == 0 || (dev.Reliable() && Bytes(sector + mid, dev.bs) <= |dev.disk|) ==> ok
  {
    hide Bytes, SectorOf, Inside, Filled, Within, ReadUpTo;
    NoneAndOne(dev.bs);
    ok := true;
    if mid > 0 {
      ghost var now := buf[..];
      var direct := !user && Aligned(address + done);
      ok := ReadSectors(dev, sector, mid, if direct then MaxSectors(dev) else Min(mid, MaxSectors(dev)), !direct, user, buf, done);
      ReadMore(before, now, buf[..], dev.disk, offset, done, Bytes(mid, dev.bs), len, ok);
    }
  }

  method ReadTail(dev: Device, sector: nat, buf: array<Byte>, user: bool, done: nat, len: nat,
                  ghost before: seq<Byte>, ghost offset: nat) returns (ok: bool)
    requires dev.Valid() && done <= len <= buf.Length && len - done < dev.bs && (done < len ==> Bytes(sector, dev.bs) == offset + done)
    requires ReadUpTo(before, buf[..], dev.disk, offset, done, len, true)
    modifies dev`requests, dev`copies, buf
    ensures dev.Valid() && ReadUpTo(before, buf[..], dev.disk, offset, len, len, ok)
    ensures done == len || (dev.Reliable() && Bytes(sector + 1, dev.bs) <= |dev.disk|) ==> ok
  {
    hide Bytes, SectorOf, Inside, Filled, Within, ReadUpTo;
    ok := true;
    if done < len {
      ghost var now := buf[..];
      ok := ReadPart(dev, sector, 0, len - done, user, buf, done);
      ReadMore(before, now, buf[..], dev.disk, offset, done, len - done, len, ok);
    }
  }

  /** Middle and tail, once the head has been read. */
  method ReadMidTail(dev: Device, sector: nat, buf: array<Byte>, address: nat, user: bool, done: nat, len: nat,
                     ghost before: seq<Byte>, ghost offset: nat) returns (ok: bool)
    requires dev.Valid() && done < len <= buf.Length && Bytes(sector, dev.bs) == offset + done
    requires ReadUpTo(before, buf[..], dev.disk, offset, done, len, true)
    modifies dev`requests, dev`copies, buf
    ensures dev.Valid() && ReadUpTo(before, buf[..], dev.disk, offset, len, len, ok)
    ensures dev.Reliable() && SectorEnd(offset + len, dev.bs) <= |dev.disk| ==> ok
  {
    hide Bytes, SectorOf, Inside, Filled, Within, ReadUpTo, SectorEnd;
    var mid := SectorOf(len - done, dev.bs);
    Middle(sector, len - done, dev.bs, offset + done);
    var next := done + Bytes(mid, dev.bs);
    ok := ReadMid(dev, sector, mid, buf, address, user, done, len, before, offset);
    if !ok { ReadFailed(before, buf[..], dev.disk, offset, next, len); return; }
    ok := ReadTail(dev, sector + mid, buf, user, next, len, before, offset);
  }

  /** Head, then middle and tail. */
  method ReadSplit(dev: Device, offset: nat, buf: array<Byte>, address: nat, user: bool, len: nat) returns (ok: bool)
    requires dev.Valid() && 0 < len <= buf.Length
    modifies dev`requests, dev`copies, buf
    ensures dev.Valid() && ReadUpTo(old(buf[..]), buf[..], dev.disk, offset, len, len, ok)
    ensures dev.Reliable() && SectorEnd(offset + len, dev.bs) <= |dev.disk| ==> ok
  {
    hide Bytes, SectorOf, Inside, Filled, Within, ReadUpTo, SectorEnd, Device.Reliable;
    var bs, sector, blkOff, done := dev.bs, SectorOf(offset, dev.bs), Inside(offset, dev.bs), 0;
    Blocks(offset, bs);
    NoneAndOne(bs);
    ghost var before, hi := buf[..], SectorEnd(offset + len, bs);
    ReadNone(before, dev.disk, offset, len);
    if blkOff != 0 {
      done := Min(bs - blkOff, len);
      SectorInside(sector, 1, bs, offset + len);
      assert Bytes(sector + 1, bs) <= hi;
      ok := ReadPart(dev, sector, blkOff, done, user, buf, 0);
      ReadMore(before, before, buf[..], dev.disk, offset, 0, done, len, ok);
      if !ok { ReadFailed(before, buf[..], dev.disk, offset, done, len); return; }
      Distribute(sector, 1, bs);
      sector := sector + 1;
    }
    ok := true;
    if done < len { ok := ReadMidTail(dev, sector, buf, address, user, done, len, before, offset); }
  }

  lemma ReadNone(before: seq<Byte>, disk: seq<Byte>, offset: nat, len: nat)
    ensures ReadUpTo(before, before, disk, offset, 0, len, true)
  {}

  lemma ReadFailed(before: seq<Byte>, now: seq<Byte>, disk: seq<Byte>, offset: nat, done: nat, len: nat)
    requires ReadUpTo(before, now, disk, offset, done, len, false)
    ensures ReadUpTo(before, now, disk, offset, len, len, false)
  {}

  /** Reads exactly the requested bytes of the disk, or fails and leaves everything
      outside the requested part of the buffer alone. */
  method BlkdevRead(dev: Device?, offset: nat, buf: array<Byte>, address: nat, user: bool, len: nat) returns (ret: Ret)
    requires len <= buf.Length && (dev != null ==> dev.Valid())
    modifies if dev == null then {} else {dev}, buf
    ensures dev != null ==> dev.Valid() && dev.disk == old(dev.disk)
    ensures len == 0 ==> ret == Total(0)
    ensures len > 0 && dev == null ==> ret == NoDevice
    ensures len > 0 && dev != null ==> (ret == NotSupported <==> !dev.canRead) && ret != NoDevice
    ensures ret.Total? ==> ret.bytes == len && (len > 0 ==> Filled(old(buf[..]), buf[..], 0, len, dev.disk, offset))
    ensures Within(old(buf[..]), buf[..], 0, len)
    ensures dev != null && dev.canRead && dev.Reliable() && SectorEnd(offset + len, dev.bs) <= |dev.disk| ==> ret.Total?
  {
    if len == 0 { return Total(0); }
    if dev == null { return NoDevice; }
    if !dev.canRead { return NotSupported; }
    hide Bytes, SectorOf, Inside, Filled, Within, SectorEnd, Device.Reliable;
    var bs := dev.bs;
    var good;
    if !user && Inside(offset, bs) == 0 && Inside(len, bs) == 0 && Aligned(address) {
      Blocks(offset, bs);
      Blocks(len, bs);
      WholeSectors(offset, len, bs);
      good := ReadSectors(dev, SectorOf(offset, bs), SectorOf(len, bs), MaxSectors(dev), false, user, buf, 0);
    } else {
      good := ReadSplit(dev, offset, buf, address, user, len);
    }
    return if good then Total(len) else Failed;
  }

  // -- Writing -----------------------------------------------------------------------------

  /** The first `done` bytes of the buffer are on the disk; on the way, nothing outside
      the bytes `lo` to `hi` of the disk changed. */
  ghost predicate WroteUpTo(before: seq<Byte>, now: seq<Byte>, src: seq<Byte>, offset: nat, at: nat, done: nat, lo: nat, hi: nat, ok: bool) {
    (ok ==> Filled(before, now, offset, done, src, at)) && Within(before, now, lo, hi)
  }

  lemma WroteNone(disk: seq<Byte>, src: seq<Byte>, offset: nat, at: nat, lo: nat, hi: nat)
    ensures WroteUpTo(disk, disk, src, offset, at, 0, lo, hi, true)
  {}

  lemma WroteMore(before: seq<Byte>, now: seq<Byte>, after: seq<Byte>, src: seq<Byte>, offset: nat, at: nat, done: nat, n: nat,
                  lo: nat, hi: nat, from: nat, to: nat, ok: bool)
    requires WroteUpTo(before, now, src, offset, at, done, lo, hi, true)
    requires (ok ==> Filled(now, after, offset + done, n, src, at + done)) && Within(now, after, from, to) && lo <= from && to <= hi
    ensures WroteUpTo(before, after, src, offset, at, done + n, lo, hi, ok)
  {
    if ok { FilledMore(before, now, after, offset, done, n, src, at); }
  }

  lemma WroteLength(before: seq<Byte>, now: seq<Byte>, src: seq<Byte>, offset: nat, at: nat, done: nat, lo: nat, hi: nat, ok: bool)
    requires WroteUpTo(before, now, src, offset, at, done, lo, hi, ok)
    ensures |now| == |before|
  {}

  lemma WroteFailed(before: seq<Byte>, now: seq<Byte>, src: seq<Byte>, offset: nat, at: nat, done: nat, lo: nat, hi: nat, ok: bool, n: nat)
    requires WroteUpTo(before, now, src, offset, at, done, lo, hi, ok)
    ensures WroteUpTo(before, now, src, offset, at, n, lo, hi, false)
  {}

  method WriteSectors(dev: Device, sector: nat, secs: nat, limit: nat, bounced: bool, user: bool, buf: array<Byte>, at: nat) returns (ok: bool)
    requires dev.Valid() && 1 <= limit <= MaxSectors(dev) && at + Bytes(secs, dev.bs) <= buf.Length
    modifies dev`requests, dev`copies, dev`disk
    ensures dev.Valid()
    ensures WroteUpTo(old(dev.disk), dev.disk, buf[..], Bytes(sector, dev.bs), at, Bytes(secs, dev.bs), Bytes(sector, dev.bs), Bytes(sector + secs, dev.bs), ok)
    ensures dev.Reliable() && Bytes(sector + secs, dev.bs) <= |old(dev.disk)| ==> ok
  {
    hide Bytes, SectorOf, Inside, Filled, Within, WroteUpTo, Device.Reliable;
    var left, next, src, bs := secs, sector, at, dev.bs;
    ghost var done, before, base, end := 0, dev.disk, Bytes(sector, bs), Bytes(sector + secs, bs);
    NoneAndOne(bs);
    WroteNone(before, buf[..], base, at, base, end);
    while left > 0
      invariant dev.Valid() && done + left == secs && next == sector + done && src == at + Bytes(done, bs)
      invariant WroteUpTo(before, dev.disk, buf[..], base, at, Bytes(done, bs), base, end, true)
    {
      var n := Min(left, limit);
      AtMost(n, MaxSectors(dev), bs);
      Distribute(done, n, bs);
      Distribute(sector, done, bs);
      AtMost(done + n, secs, bs);
      AtMost(next + n, sector + secs, bs);
      Distribute(next, n, bs);
      var copied, data := dev.CopyIn(buf, src, Bytes(n, bs), bounced && user);
      if !copied { WroteFailed(before, dev.disk, buf[..], base, at, Bytes(done, bs), base, end, true, Bytes(secs, bs)); return false; }
      ghost var now := dev.disk;
      WroteLength(before, now, buf[..], base, at, Bytes(done, bs), base, end, true);
      ok := dev.Write(next, n, data);
      if ok { FilledFrom(now, dev.disk, Bytes(next, bs), Bytes(n, bs), data, buf[..], src); }
      WroteMore(before, now, dev.disk, buf[..], base, at, Bytes(done, bs), Bytes(n, bs), base, end, Bytes(next, bs), Bytes(next + n, bs), ok);
      if !ok { WroteFailed(before, dev.disk, buf[..], base, at, Bytes(done, bs) + Bytes(n, bs), base, end, false, Bytes(secs, bs)); return; }
      src, next, left := src + Bytes(n, bs), next + n, left - n;
      done := done + n;
    }
    ok := true;
  }

  /** A sector of which only part is replaced keeps the rest. */
  lemma PartFilled(before: seq<Byte>, after: seq<Byte>, base: nat, data: seq<Byte>, off: nat, n: nat, src: seq<Byte>, at: nat)
    requires off + n <= |data| && base + |data| <= |before| && n > 0 && Filled(before[base..base + |data|], data, off, n, src, at)
    requires Filled(before, after, base, |data|, data, 0)
    ensures Filled(before, after, base + off, n, src, at)
  {}

  /** Part of one sector: read it, patch it, write it back. */
  method WritePart(dev: Device, sector: nat, off: nat, n: nat, user: bool, buf: array<Byte>, at: nat) returns (ok: bool)
    requires dev.Valid() && 0 < n && off + n <= dev.bs && at + n <= buf.Length
    modifies dev`requests, dev`copies, dev`disk
    ensures dev.Valid()
    ensures ok ==> Filled(old(dev.disk), dev.disk, Bytes(sector, dev.bs) + off, n, buf[..], at)
    ensures Within(old(dev.disk), dev.disk, Bytes(sector, dev.bs), Bytes(sector + 1, dev.bs))
    ensures dev.Reliable() && Bytes(sector + 1, dev.bs) <= |old(dev.disk)| ==> ok
  {
    Distribute(sector, 1, dev.bs);
    var good, bounce := dev.Read(sector, 1);
    if !good { return false; }
    var copied, data := dev.CopyIn(buf, at, n, user);
    if !copied { return false; }
    var patched := Splice(bounce, off, data);
    FilledFrom(bounce, patched, off, n, data, buf[..], at);
    ok := dev.Write(sector, 1, patched);
    hide Bytes, SectorOf, Inside, Filled, Within;
    if ok { PartFilled(old(dev.disk), dev.disk, Bytes(sector, dev.bs), patched, off, n, buf[..], at); }
  }

  method WriteTail(dev: Device, sector: nat, buf: array<Byte>, user: bool, done: nat, len: nat,
                   ghost before: seq<Byte>, ghost offset: nat, ghost lo: nat, ghost hi: nat) returns (ok: bool)
    requires dev.Valid() && done <= len <= buf.Length && len - done < dev.bs
    requires done < len ==> Bytes(sector, dev.bs) == offset + done && lo <= Bytes(sector, dev.bs) && Bytes(sector + 1, dev.bs) <= hi
    requires WroteUpTo(before, dev.disk, buf[..], offset, 0, done, lo, hi, true)
    modifies dev`requests, dev`copies, dev`disk
    ensures dev.Valid() && WroteUpTo(before, dev.disk, buf[..], offset, 0, len, lo, hi, ok)
    ensures done == len || (dev.Reliable() && hi <= |before|) ==> ok
  {
    hide Bytes, SectorOf, Inside, Filled, Within, WroteUpTo;
    ok := true;
    if len > done {
      ghost var now := dev.disk;
      WroteLength(before, now, buf[..], offset, 0, done, lo, hi, true);
      ok := WritePart(dev, sector, 0, len - done, user, buf, done);
      WroteMore(before, now, dev.disk, buf[..], offset, 0, done, len - done, lo, hi, Bytes(sector, dev.bs), Bytes(sector + 1, dev.bs), ok);
    }
  }

  method WriteMid(dev: Device, sector: nat, mid: nat, buf: array<Byte>, address: nat, user: bool, done: nat,
                  ghost before: seq<Byte>, ghost offset: nat, ghost lo: nat, ghost hi: nat) returns (ok: bool)
    requires dev.Valid() && done + Bytes(mid, dev.bs) <= buf.Length && Bytes(sector, dev.bs) == offset + done
    requires lo <= Bytes(sector, dev.bs) && (mid > 0 ==> Bytes(sector + mid, dev.bs) <= hi)
    requires WroteUpTo(before, dev.disk, buf[..], offset, 0, done, lo, hi, true)
    modifies dev`requests, dev`copies, dev`disk
    ensures dev.Valid() && WroteUpTo(before, dev.disk, buf[..], offset, 0, done + Bytes(mid, dev.bs), lo, hi, ok)
    ensures dev.Reliable() && hi <= |before| ==> ok
  {
    hide Bytes, SectorOf, Inside, Filled, Within, WroteUpTo;
    NoneAndOne(dev.bs);
    ok := true;
    if mid > 0 {
      ghost var now := dev.disk;
      WroteLength(before, now, buf[..], offset, 0, done, lo, hi, true);
      var direct := !user && Aligned(address + done);
      ok := WriteSectors(dev, sector, mid, if direct then MaxSectors(dev) else Min(mid, MaxSectors(dev)), !direct, user, buf, done);
      WroteAdd(before, now, dev.disk, buf[..], offset, done, Bytes(mid, dev.bs), lo, hi, Bytes(sector, dev.bs), Bytes(sector + mid, dev.bs), ok);
    }
  }

  /** Middle and tail, once the head has been written. */
  method WriteMidTail(dev: Device, sector: nat, buf: array<Byte>, address: nat, user: bool, done: nat, len: nat,
                      ghost before: seq<Byte>, ghost offset: nat, ghost lo: nat) returns (ok: bool)
    requires dev.Valid() && done < len <= buf.Length && Bytes(sector, dev.bs) == offset + done && lo <= Bytes(sector, dev.bs)
    requires WroteUpTo(before, dev.disk, buf[..], offset, 0, done, lo, SectorEnd(offset + len, dev.bs), true)
    modifies dev`requests, dev`copies, dev`disk
    ensures dev.Valid() && WroteUpTo(before, dev.disk, buf[..], offset, 0, len, lo, SectorEnd(offset + len, dev.bs), ok)
    ensures dev.Reliable() && SectorEnd(offset + len, dev.bs) <= |before| ==> ok
  {
    hide Bytes, SectorOf, Inside, Filled, Within, WroteUpTo, SectorEnd;
    var mid := SectorOf(len - done, dev.bs);
    ghost var hi := SectorEnd(offset + len, dev.bs);
    Middle(sector, len - done, dev.bs, offset + done);
    var next := done + Bytes(mid, dev.bs);
    ok := WriteMid(dev, sector, mid, buf, address, user, done, before, offset, lo, hi);
    if !ok { WroteFailed(before, dev.disk, buf[..], offset, 0, next, lo, hi, false, len); return; }
    ok := WriteTail(dev, sector + mid, buf, user, next, len, before, offset, lo, hi);
  }

  lemma WroteAdd(before: seq<Byte>, now: seq<Byte>, after: seq<Byte>, src: seq<Byte>, offset: nat, done: nat, n: nat,
                 lo: nat, hi: nat, from: nat, to: nat, ok: bool)
    requires WroteUpTo(before, now, src, offset, 0, done, lo, hi, true)
    requires WroteUpTo(now, after, src, offset + done, done, n, from, to, ok) && lo <= from && to <= hi
    ensures WroteUpTo(before, after, src, offset, 0, done + n, lo, hi, ok)
  {
    WroteMore(before, now, after, src, offset, 0, done, n, lo, hi, from, to, ok);
  }

  method WriteSplit(dev: Device, offset: nat, buf: array<Byte>, address: nat, user: bool, len: nat) returns (ok: bool)
    requires dev.Valid() && 0 < len <= buf.Length
    modifies dev`requests, dev`copies, dev`disk
    ensures dev.Valid()
    ensures WroteUpTo(old(dev.disk), dev.disk, buf[..], offset, 0, len, Bytes(SectorOf(offset, dev.bs), dev.bs), SectorEnd(offset + len, dev.bs), ok)
    ensures dev.Reliable() && SectorEnd(offset + len, dev.bs) <= |old(dev.disk)| ==> ok
  {
    hide Bytes, SectorOf, Inside, Filled, Within, WroteUpTo, SectorEnd;
    var bs, sector, blkOff, done := dev.bs, SectorOf(offset, dev.bs), Inside(offset, dev.bs), 0;
    Blocks(offset, bs);
    NoneAndOne(bs);
    ghost var before, lo, hi := dev.disk, Bytes(sector, bs), SectorEnd(offset + len, bs);
    WroteNone(before, buf[..], offset, 0, lo, hi);
    if blkOff != 0 {
      done := Min(bs - blkOff, len);
      SectorInside(sector, 1, bs, offset + len);
      ok := WritePart(dev, sector, blkOff, done, user, buf, 0);
      WroteMore(before, before, dev.disk, buf[..], offset, 0, 0, done, lo, hi, lo, Bytes(sector + 1, bs), ok);
      if !ok { WroteFailed(before, dev.disk, buf[..], offset, 0, done, lo, hi, false, len); return; }
      Distribute(sector, 1, bs);
      sector := sector + 1;
    }
    ok := true;
    if done < len { ok := WriteMidTail(dev, sector, buf, address, user, done, len, before, offset, lo); }
  }

  /** Changes exactly the requested bytes of the disk; a failed write stays within the
      sectors that hold them. */
  method BlkdevWrite(dev: Device?, offset: nat, buf: array<Byte>, address: nat, user: bool, len: nat) returns (ret: Ret)
    requires len <= buf.Length && (dev != null ==> dev.Valid())
    modifies dev
    ensures dev != null ==> dev.Valid()
    ensures len == 0 ==> ret == Total(0) && (dev != null ==> dev.disk == old(dev.disk))
    ensures len > 0 && dev == null ==> ret == NoDevice
    ensures len > 0 && dev != null ==> (ret == NotSupported <==> !dev.canRead || !dev.canWrite) && ret != NoDevice
    ensures ret.Total? ==> ret.bytes == len && (len > 0 ==> Filled(old(dev.disk), dev.disk, offset, len, buf[..], 0))
    ensures dev != null ==> Within(old(dev.disk), dev.disk, Bytes(SectorOf(offset, dev.bs), dev.bs), SectorEnd(offset + len, dev.bs))
    ensures dev != null && dev.canRead && dev.canWrite && dev.Reliable() && SectorEnd(offset + len, dev.bs) <= |old(dev.disk)| ==> ret.Total?
  {
    if len == 0 { return Total(0); }
    if dev == null { return NoDevice; }
    if !dev.canRead || !dev.canWrite { return NotSupported; }
    hide Bytes, SectorOf, Inside, Filled, Within, SectorEnd;
    var bs := dev.bs;
    var good;
    if !user && Inside(offset, bs) == 0 && Inside(len, bs) == 0 && Aligned(address) {
      Blocks(offset, bs);
      Blocks(len, bs);
      WholeSectors(offset, len, bs);
      good := WriteSectors(dev, SectorOf(offset, bs), SectorOf(len, bs), MaxSectors(dev), false, user, buf, 0);
      WithinWider(old(dev.disk), dev.disk, Bytes(SectorOf(offset, bs), bs), Bytes(SectorOf(offset, bs) + SectorOf(len, bs), bs), Bytes(SectorOf(offset, bs), bs), SectorEnd(offset + len, bs));
    } else {
      good := WriteSplit(dev, offset, buf, address, user, len);
    }
    return if good then Total(len) else Failed;
  }

  /** Reading back what was written returns it. */
  lemma WriteThenRead(disk: seq<Byte>, disk': seq<Byte>, offset: nat, len: nat, src: seq<Byte>, buf: seq<Byte>, buf': seq<Byte>)
    requires 0 < len <= |src| && Filled(disk, disk', offset, len, src, 0) && Filled(buf, buf', 0, len, disk', offset)
    ensures buf'[..len] == src[..len]
  {
    forall i | 0 <= i < len ensures buf'[i] == src[i] {
      assert buf'[i] == disk'[offset + i];
    }
  }
}
