/**
 The array of held mutexes: eight slots inside the structure, the rest in a
 separate block that grows on demand.
 */
module HeldArrays {

  const INLINE: nat := 8

  /** A mutex, by its address. */
  type Mutex = nat

  function Flatten(fixed: seq<Mutex>, dynamic: seq<Mutex>, size: nat): (r: seq<Mutex>)
    requires |fixed| == INLINE && size <= INLINE + |dynamic|
    ensures |r| == size && forall i :: 0 <= i < size ==> r[i] == if i < INLINE then fixed[i] else dynamic[i - INLINE]
  {
    if size <= INLINE then fixed[..size] else fixed + dynamic[..size - INLINE]
  }

  /** A new block, half as large again, that begins with the old one. */
  method Grown(block: array<Mutex>) returns (grown: array<Mutex>)
    ensures fresh(grown) && grown.Length > block.Length && grown[..block.Length] == block[..]
  {
    var more := if block.Length == 0 then INLINE else if block.Length / 2 == 0 then 1 else block.Length / 2;
    grown := new Mutex[block.Length + more];
    for k := 0 to block.Length
      invariant grown[..k] == block[..k]
    {
      grown[k] := block[k];
    }
  }

  class HeldArray {
    const fixed: array<Mutex>
    var dynamic: array<Mutex>
    var size: nat

    ghost predicate Valid()
      reads this, fixed, dynamic
    {
      fixed.Length == INLINE && fixed != dynamic && size <= INLINE + dynamic.Length
    }

    /** The mutexes, oldest first. */
    ghost function Contents(): seq<Mutex>
      requires Valid()
      reads this, fixed, dynamic
    {
      Flatten(fixed[..], dynamic[..], size)
    }

    constructor ()
      ensures Valid() && Contents() == [] && fresh(fixed) && fresh(dynamic)
    {
      fixed := new Mutex[INLINE];
      dynamic := new Mutex[0];
      size := 0;
    }

    method At(i: nat) returns (x: Mutex)
      requires Valid() && i < size
      ensures x == Contents()[i]
    {
      x := if i < INLINE then fixed[i] else dynamic[i - INLINE];
    }

    method Pop()
      requires Valid()
      modifies this`size
      ensures Valid()
      ensures Contents() == if old(size) == 0 then [] else old(Contents())[..old(size) - 1]
    {
      if size > 0 { size := size - 1; }
    }

    /** Appends; a full block is replaced by one half as large again. */
    method Push(x: Mutex)
      requires Valid()
      modifies this, fixed, dynamic
      ensures Valid() && Contents() == old(Contents()) + [x] && (dynamic == old(dynamic) || fresh(dynamic))
    {
      if size < INLINE {
        fixed[size] := x;
      } else {
        var used := size - INLINE;
        if used == dynamic.Length {
          dynamic := Grown(dynamic);
        }
        dynamic[used] := x;
      }
      size := size + 1;
    }
  }

  /** A run of entries moved inside a block. */
  function Moved(d: seq<Mutex>, at: nat, from: nat, n: nat): (r: seq<Mutex>)
    requires at <= from && from + n <= |d|
    ensures |r| == |d| && forall i :: 0 <= i < |d| ==> r[i] == if at <= i < at + n then d[from + i - at] else d[i]
  {
    d[..at] + d[from..from + n] + d[at + n..]
  }

  /** memmove towards lower addresses. */
  method MoveDown(block: array<Mutex>, at: nat, from: nat, n: nat)
    requires at <= from && from + n <= block.Length
    modifies block
    ensures block[..] == Moved(old(block[..]), at, from, n)
  {
    for k := 0 to n
      invariant forall i :: 0 <= i < block.Length ==> block[i] == if at <= i < at + k then old(block[from + i - at]) else old(block[i])
    {
      block[at + k] := block[from + k];
    }
    assert block[..] == Moved(old(block[..]), at, from, n);
  }

  function Removed(s: seq<Mutex>, i: nat): seq<Mutex>
    requires i < |s|
  {
    s[..i] + s[i + 1..]
  }

  lemma RemovedDynamic(f: seq<Mutex>, d: seq<Mutex>, size: nat, i: nat)
    requires |f| == INLINE <= i < size <= INLINE + |d|
    ensures Flatten(f, Moved(d, i - INLINE, i - INLINE + 1, size - i - 1), size - 1) == Removed(Flatten(f, d, size), i)
  {
    var k, n := i - INLINE, size - INLINE;
    var whole := Flatten(f, d, size);
    assert whole == f + d[..n];
    assert whole[..i] == f + d[..k];
    assert whole[i + 1..] == d[k + 1..n];
    assert Moved(d, k, k + 1, n - k - 1)[..n - 1] == d[..k] + d[k + 1..n];
    assert f + d[..k] + d[k + 1..n] == f + (d[..k] + d[k + 1..n]);
  }

  lemma RemovedInline(f: seq<Mutex>, d: seq<Mutex>, size: nat, i: nat)
    requires |f| == INLINE && i < size <= INLINE
    ensures Flatten(Moved(f, i, i + 1, size - (i + 1)), d, size - 1) == Removed(Flatten(f, d, size), i)
  {}

  /** The inline block closes the gap and takes the first dynamic entry. */
  lemma InlineCloses(f: seq<Mutex>, i: nat, x: Mutex)
    requires |f| == INLINE && i < INLINE
    ensures Moved(f, i, i + 1, INLINE - (i + 1))[INLINE - 1 := x] == f[..i] + f[i + 1..] + [x]
  {}

  lemma DynamicCloses(d: seq<Mutex>, n: nat)
    requires 0 < n <= |d|
    ensures Moved(d, 0, 1, n - 1)[..n - 1] == d[1..n] && d[..n] == [d[0]] + d[1..n]
  {}

  lemma Regrouped(f: seq<Mutex>, i: nat, x: Mutex, rest: seq<Mutex>)
    requires i < |f|
    ensures Removed(f + ([x] + rest), i) == f[..i] + f[i + 1..] + [x] + rest
  {}

  lemma RemovedAcross(f: seq<Mutex>, d: seq<Mutex>, size: nat, i: nat)
    requires |f| == INLINE && i < INLINE < size <= INLINE + |d|
    ensures Flatten(Moved(f, i, i + 1, INLINE - (i + 1))[INLINE - 1 := d[0]], Moved(d, 0, 1, size - (INLINE + 1)), size - 1) ==
      Removed(Flatten(f, d, size), i)
  {
    hide Moved, Removed;
    var n := size - INLINE;
    InlineCloses(f, i, d[0]);
    DynamicCloses(d, n);
    Regrouped(f, i, d[0], d[1..n]);
  }

  /** Removing from the middle is removal from the sequence, wherever the slot lies. */
  method RemoveIdx(arr: HeldArray, i: nat)
    requires arr.Valid() && i < arr.size
    modifies arr`size, arr.fixed, arr.dynamic
    ensures arr.Valid() && arr.Contents() == Removed(old(arr.Contents()), i)
  {
    hide Flatten, Moved, Removed;
    ghost var f, d := arr.fixed[..], arr.dynamic[..];
    if i >= INLINE {
      RemovedDynamic(f, d, arr.size, i);
      var k := i - INLINE;
      MoveDown(arr.dynamic, k, k + 1, arr.size - INLINE - (k + 1));
    } else {
      var n := if arr.size < INLINE then arr.size else INLINE;
      MoveDown(arr.fixed, i, i + 1, n - (i + 1));
      if arr.size > INLINE {
        RemovedAcross(f, d, arr.size, i);
        arr.fixed[INLINE - 1] := arr.dynamic[0];
        MoveDown(arr.dynamic, 0, 1, arr.size - (INLINE + 1));
      } else {
        RemovedInline(f, d, arr.size, i);
      }
    }
    arr.size := arr.size - 1;
  }

  /** Searches from the newest entry for one that is known not to be the newest. */
  method FindFromEnd(arr: HeldArray, x: Mutex) returns (found: bool, i: nat)
    requires arr.Valid() && arr.size > 0
    ensures found ==> i < arr.size && arr.Contents()[i] == x && x !in arr.Contents()[i + 1..]
    ensures !found ==> x !in arr.Contents()
  {
    i := arr.size;
    while true
      invariant 0 < i <= arr.size && x !in arr.Contents()[i..]
      decreases i
    {
      i := i - 1;
      var item := arr.At(i);
      assert arr.Contents()[i..] == [item] + arr.Contents()[i + 1..];
      if item == x { return true, i; }
      if i == 0 {
        assert arr.Contents()[0..] == arr.Contents();
        return false, 0;
      }
    }
  }
}

/**
 The sync-level discipline of one interpreter context: AML mutexes acquired and
 released by the program, and the mutexes of serialized methods.
 */
module MutexOrder {
  import opened HeldArrays

  /** A call of a serialized method, with the sync level to go back to. */
  datatype Frame = Frame(mutex: Mutex, prev: nat)

  /** `depth` counts the recursive acquisitions of the mutexes this thread owns. */
  datatype State = State(level: Mutex -> nat, ofMethod: Mutex -> bool, held: seq<Mutex>, depth: map<Mutex, nat>, current: nat, frames: seq<Frame>)

  datatype Action =
    | Acquire(mutex: Mutex, granted: bool)
    | Release(mutex: Mutex)
    | Enter(mutex: Mutex, granted: bool)
    | Return

  predicate Owned(s: State, m: Mutex) { m in s.depth }

  type Levels = Mutex -> nat

  function Last(held: seq<Mutex>): Mutex
    requires held != []
  {
    held[|held|-1]
  }

  function Init(held: seq<Mutex>): seq<Mutex>
    requires held != []
  {
    held[..|held|-1]
  }

  /** The level of the newest mutex, zero if there is none. */
  function Top(lv: Levels, held: seq<Mutex>): nat { if held == [] then 0 else lv(Last(held)) }

  function IndexOf(held: seq<Mutex>, m: Mutex): (i: nat)
    requires m in held
    ensures i < |held| && held[i] == m
  {
    if Last(held) == m then |held| - 1 else IndexOf(Init(held), m)
  }

  function Take(s: State, m: Mutex): State {
    s.(held := s.held + [m], depth := s.depth[m := 1])
  }

  function Drop(s: State, m: Mutex): State
    requires m in s.held
  {
    s.(held := Removed(s.held, IndexOf(s.held, m)), depth := s.depth - {m})
  }

  /** Acquire: a lower level is ignored, an owned mutex only gets deeper. */
  function DoAcquire(s: State, m: Mutex, granted: bool): State {
    if s.current > s.level(m) then s
    else if Owned(s, m) then (if s.depth[m] == 0xFFFF then s else s.(depth := s.depth[m := s.depth[m] + 1]))
    else if !granted then s
    else Take(s, m).(current := s.level(m))
  }

  /** Release: a level other than the newest one's is ignored, a deeper mutex only
      gets shallower; either way the level becomes the newest mutex's. */
  function DoRelease(s: State, m: Mutex): State {
    if !Owned(s, m) || s.held == [] then s
    else
      var newest := Last(s.held);
      if s.level(newest) != s.level(m) then s.(current := Top(s.level, s.held))
      else if s.depth[m] > 1 then s.(depth := s.depth[m := s.depth[m] - 1], current := Top(s.level, s.held))
      else if m !in s.held then s
      else Drop(s, m).(current := Top(s.level, Drop(s, m).held))
  }

  function DoEnter(s: State, m: Mutex, granted: bool): State {
    if s.current > s.level(m) || (!Owned(s, m) && !granted) then s
    else
      var t := if Owned(s, m) then s else Take(s, m);
      t.(frames := s.frames + [Frame(m, s.current)], current := s.level(m))
  }

  /** A return gives up the method's mutex, wherever it is, and restores the level. */
  function DoReturn(s: State): State
    requires s.frames != []
  {
    var f := s.frames[|s.frames|-1];
    (if f.mutex in s.held then Drop(s, f.mutex) else s).(frames := s.frames[..|s.frames|-1], current := f.prev)
  }

  /** Acquire and Release work on mutex objects, Enter on the mutexes of methods. */
  predicate Enabled(s: State, a: Action) {
    match a
    case Acquire(m, _) => !s.ofMethod(m)
    case Release(m) => !s.ofMethod(m)
    case Enter(m, _) => s.ofMethod(m)
    case Return => s.frames != []
  }

  function Apply(s: State, a: Action): State
    requires Enabled(s, a)
  {
    match a
    case Acquire(m, granted) => DoAcquire(s, m, granted)
    case Release(m) => DoRelease(s, m)
    case Enter(m, granted) => DoEnter(s, m, granted)
    case Return => DoReturn(s)
  }

  // -- The discipline ---------------------------------------------------------------------

  /** No mutex twice. */
  ghost predicate HeldOnce(held: seq<Mutex>) { held != [] ==> HeldOnce(Init(held)) && Last(held) !in Init(held) }

  /** Distinct, and in order of their levels. */
  ghost predicate Sorted(lv: Levels, held: seq<Mutex>) {
    held != [] ==> Sorted(lv, Init(held)) && Last(held) !in Init(held) && Top(lv, Init(held)) <= lv(Last(held))
  }

  /** Held mutexes are distinct, in order of their levels, and exactly the owned ones;
      the context's level is at least the newest one's. */
  ghost predicate Ordered(s: State) {
    && Sorted(s.level, s.held)
    && (forall m :: m in s.held <==> Owned(s, m))
    && (forall m :: Owned(s, m) ==> s.depth[m] >= 1)
    && Top(s.level, s.held) <= s.current
  }

  /** The level just below a mutex. */
  ghost function Beneath(lv: Levels, held: seq<Mutex>, m: Mutex): nat {
    if held == [] then 0 else if Last(held) == m then Top(lv, Init(held)) else Beneath(lv, Init(held), m)
  }

  /** No later call locks the same mutex again. */
  ghost predicate Latest(frames: seq<Frame>, k: nat)
    requires k < |frames|
  {
    forall l :: k < l < |frames| ==> frames[l].mutex != frames[k].mutex
  }

  /** What lies below a method's mutex fits the level its call goes back to. */
  ghost predicate Restorable(lv: Levels, held: seq<Mutex>, frames: seq<Frame>) {
    forall k :: 0 <= k < |frames| && Latest(frames, k) ==> Beneath(lv, held, frames[k].mutex) <= frames[k].prev
  }

  ghost predicate MethodFrames(s: State) {
    forall k :: 0 <= k < |s.frames| ==> s.ofMethod(s.frames[k].mutex)
  }

  ghost predicate Inv(s: State) {
    Ordered(s) && MethodFrames(s) && Restorable(s.level, s.held, s.frames)
  }

  /** Sorted, in terms of positions. */
  lemma {:induction false} SortedMeans(lv: Levels, held: seq<Mutex>, i: nat, j: nat)
    requires Sorted(lv, held) && i < j < |held|
    ensures held[i] != held[j] && lv(held[i]) <= lv(held[j])
    decreases |held|
  {
    if j == |held| - 1 {
      assert held[i] == Init(held)[i];
      if i < j - 1 { SortedMeans(lv, Init(held), i, j - 1); }
    } else {
      SortedMeans(lv, Init(held), i, j);
    }
  }

  lemma {:induction false} BeneathTop(lv: Levels, held: seq<Mutex>, m: Mutex)
    requires Sorted(lv, held)
    ensures Beneath(lv, held, m) <= Top(lv, held)
  {
    if held != [] { BeneathTop(lv, Init(held), m); }
  }

  lemma PushBeneath(lv: Levels, held: seq<Mutex>, x: Mutex, m: Mutex)
    ensures Beneath(lv, held + [x], m) == if x == m then Top(lv, held) else Beneath(lv, held, m)
    ensures Sorted(lv, held) && x !in held && Top(lv, held) <= lv(x) ==> Sorted(lv, held + [x])
  {
    assert Init(held + [x]) == held;
  }

  lemma RemovedStep(held: seq<Mutex>, x: Mutex)
    requires x in held
    ensures Removed(held, IndexOf(held, x)) ==
      if Last(held) == x then Init(held) else Removed(Init(held), IndexOf(Init(held), x)) + [Last(held)]
  {}

  lemma {:induction false} SortedOnce(lv: Levels, held: seq<Mutex>)
    requires Sorted(lv, held)
    ensures HeldOnce(held)
  {
    if held != [] { SortedOnce(lv, Init(held)); }
  }

  lemma {:induction false} RemovedMembers(held: seq<Mutex>, x: Mutex)
    requires HeldOnce(held) && x in held
    ensures forall m :: m in Removed(held, IndexOf(held, x)) <==> m in held && m != x
    decreases |held|
  {
    RemovedStep(held, x);
    if Last(held) != x { RemovedMembers(Init(held), x); }
    hide Removed, IndexOf;
    assert held == Init(held) + [Last(held)];
  }

  /** Taking one mutex out, wherever it is, keeps the order. */
  lemma {:induction false} RemovedSorted(lv: Levels, held: seq<Mutex>, x: Mutex)
    requires Sorted(lv, held) && x in held
    ensures var r := Removed(held, IndexOf(held, x)); Sorted(lv, r) && Top(lv, r) <= Top(lv, held)
    decreases |held|
  {
    RemovedStep(held, x);
    if Last(held) != x {
      RemovedSorted(lv, Init(held), x);
      SortedOnce(lv, Init(held));
      RemovedMembers(Init(held), x);
      hide Removed, IndexOf;
      PushBeneath(lv, Removed(Init(held), IndexOf(Init(held), x)), Last(held), x);
    }
  }

  lemma {:induction false} RemovedBeneath(lv: Levels, held: seq<Mutex>, x: Mutex, m: Mutex)
    requires Sorted(lv, held) && x in held
    ensures var r := Removed(held, IndexOf(held, x)); Beneath(lv, r, m) <= (if m == x then 0 else Beneath(lv, held, m))
    decreases |held|
  {
    RemovedStep(held, x);
    if Last(held) == x {
      if m == x { AbsentBeneath(lv, Init(held), m); }
    } else {
      RemovedBeneath(lv, Init(held), x, m);
      RemovedSorted(lv, Init(held), x);
      hide Removed, IndexOf;
      PushBeneath(lv, Removed(Init(held), IndexOf(Init(held), x)), Last(held), m);
    }
  }

  lemma {:induction false} AbsentBeneath(lv: Levels, held: seq<Mutex>, m: Mutex)
    requires m !in held
    ensures Beneath(lv, held, m) == 0
  {
    if held != [] { AbsentBeneath(lv, Init(held), m); }
  }

  // -- Every step keeps it -------------------------------------------------------------------

  lemma TakeKeeps(s: State, m: Mutex)
    requires Ordered(s) && !Owned(s, m) && s.current <= s.level(m)
    ensures Ordered(Take(s, m).(current := s.level(m)))
  {
    PushBeneath(s.level, s.held, m, m);
  }

  lemma AcquireKeeps(s: State, m: Mutex, granted: bool)
    requires Inv(s) && !s.ofMethod(m)
    ensures Inv(DoAcquire(s, m, granted))
  {
    var t := DoAcquire(s, m, granted);
    if t.held != s.held {
      TakeKeeps(s, m);
      forall k | 0 <= k < |s.frames| && Latest(s.frames, k) ensures Beneath(s.level, t.held, s.frames[k].mutex) <= s.frames[k].prev {
        PushBeneath(s.level, s.held, m, s.frames[k].mutex);
      }
    }
  }

  lemma DropKeeps(s: State, m: Mutex)
    requires Inv(s) && m in s.held
    ensures var t := Drop(s, m);
      Ordered(t.(current := Top(s.level, t.held))) && Restorable(s.level, t.held, s.frames) && m !in t.held
  {
    var t := Drop(s, m);
    RemovedSorted(s.level, s.held, m);
    SortedOnce(s.level, s.held);
    RemovedMembers(s.held, m);
    forall k | 0 <= k < |s.frames| && Latest(s.frames, k) ensures Beneath(s.level, t.held, s.frames[k].mutex) <= s.frames[k].prev {
      RemovedBeneath(s.level, s.held, m, s.frames[k].mutex);
    }
  }

  lemma ReleaseKeeps(s: State, m: Mutex)
    requires Inv(s) && !s.ofMethod(m)
    ensures Inv(DoRelease(s, m))
  {
    if Owned(s, m) { DropKeeps(s, m); }
  }

  lemma EnterKeeps(s: State, m: Mutex, granted: bool)
    requires Inv(s) && s.ofMethod(m)
    ensures Inv(DoEnter(s, m, granted))
  {
    var t := DoEnter(s, m, granted);
    if t != s {
      if !Owned(s, m) { TakeKeeps(s, m); }
      forall k | 0 <= k < |t.frames| && Latest(t.frames, k) ensures Beneath(s.level, t.held, t.frames[k].mutex) <= t.frames[k].prev {
        PushBeneath(s.level, s.held, m, t.frames[k].mutex);
        BeneathTop(s.level, s.held, m);
        if k < |s.frames| {
          assert t.frames[|s.frames|].mutex == m;
          assert Latest(s.frames, k) by {
            assert forall l :: 0 <= l < |s.frames| ==> t.frames[l] == s.frames[l];
          }
        }
      }
    }
  }

  /** Giving up the newest call together with its mutex. */
  lemma FrameGone(lv: Levels, held: seq<Mutex>, frames: seq<Frame>)
    requires frames != [] && Restorable(lv, held, frames) && frames[|frames|-1].mutex !in held
    ensures Restorable(lv, held, frames[..|frames|-1])
  {
    var n := |frames| - 1;
    var rest := frames[..n];
    forall k | 0 <= k < n && Latest(rest, k) ensures Beneath(lv, held, rest[k].mutex) <= rest[k].prev {
      if frames[k].mutex == frames[n].mutex {
        AbsentBeneath(lv, held, frames[n].mutex);
      } else {
        assert Latest(frames, k) by { assert forall l :: 0 <= l < n ==> rest[l] == frames[l]; }
      }
    }
  }

  /** The newest call finds its mutex on top, or nothing above the level it restores. */
  predicate ReturnFits(s: State)
    requires s.frames != []
  {
    var f := s.frames[|s.frames|-1];
    (s.held != [] && Last(s.held) == f.mutex) || Top(s.level, s.held) <= f.prev
  }

  /** A return keeps the order exactly if it fits: otherwise the newest mutex stays and
      its level is above the restored one. */
  lemma ReturnKeepsIff(s: State)
    requires Inv(s) && s.frames != []
    ensures Ordered(DoReturn(s)) <==> ReturnFits(s)
    ensures ReturnFits(s) ==> Inv(DoReturn(s))
  {
    var f, t := s.frames[|s.frames|-1], DoReturn(s);
    if f.mutex in s.held {
      DropKeeps(s, f.mutex);
      RemovedStep(s.held, f.mutex);
      FrameGone(s.level, t.held, s.frames);
      NewestFits(s.level, s.held, s.frames);
    } else {
      FrameGone(s.level, s.held, s.frames);
    }
    hide Restorable, Removed, IndexOf;
    assert MethodFrames(t);
  }

  lemma NewestFits(lv: Levels, held: seq<Mutex>, frames: seq<Frame>)
    requires frames != [] && Restorable(lv, held, frames)
    ensures Beneath(lv, held, frames[|frames|-1].mutex) <= frames[|frames|-1].prev
  {
    assert Latest(frames, |frames| - 1);
  }

  // -- Whole runs ---------------------------------------------------------------------------

  ghost predicate IsRun(run: seq<State>, acts: seq<Action>) {
    && |run| == |acts| + 1
    && run[0].held == [] && run[0].depth == map[] && run[0].current == 0 && run[0].frames == []
    && forall i :: 0 <= i < |acts| ==> Enabled(run[i], acts[i]) && run[i+1] == Apply(run[i], acts[i])
  }

  /** Up to `i`, every return fitted. */
  ghost predicate AllFit(run: seq<State>, acts: seq<Action>, i: nat)
    requires |run| == |acts| + 1 && i < |run|
  {
    forall k :: 0 <= k < i && acts[k].Return? && run[k].frames != [] ==> ReturnFits(run[k])
  }

  lemma StepKeepsIff(s: State, a: Action)
    requires Inv(s) && Enabled(s, a)
    ensures Ordered(Apply(s, a)) <==> (a.Return? ==> ReturnFits(s))
    ensures (a.Return? ==> ReturnFits(s)) ==> Inv(Apply(s, a))
  {
    hide Ordered, MethodFrames, Restorable, ReturnFits;
    match a
    case Acquire(m, granted) => AcquireKeeps(s, m, granted);
    case Release(m) => ReleaseKeeps(s, m);
    case Enter(m, granted) => EnterKeeps(s, m, granted);
    case Return => ReturnKeepsIff(s);
  }

  /** As long as every return fits, at every point of every run the held mutexes are
      distinct, owned and in order of their sync levels, and the context's level is at
      least the newest one's. */
  lemma {:induction false} RunOrdered(run: seq<State>, acts: seq<Action>, i: nat)
    requires IsRun(run, acts) && i < |run| && AllFit(run, acts, i)
    ensures Inv(run[i])
  {
    if i > 0 {
      RunOrdered(run, acts, i - 1);
      hide Inv, ReturnFits;
      assert Enabled(run[i-1], acts[i-1]) && run[i] == Apply(run[i-1], acts[i-1]);
      StepKeepsIff(run[i-1], acts[i-1]);
    }
  }

  lemma {:induction false} OrderedFits(run: seq<State>, acts: seq<Action>, n: nat)
    requires IsRun(run, acts) && n < |run| && forall i :: 0 <= i <= n ==> Ordered(run[i])
    ensures AllFit(run, acts, n)
  {
    if n > 0 {
      OrderedFits(run, acts, n - 1);
      RunOrdered(run, acts, n - 1);
      hide Inv, ReturnFits, Ordered;
      assert Enabled(run[n-1], acts[n-1]) && run[n] == Apply(run[n-1], acts[n-1]);
      StepKeepsIff(run[n-1], acts[n-1]);
    }
  }

  /** The order holds throughout a run exactly if every return in it fits. */
  lemma RunOrderedIff(run: seq<State>, acts: seq<Action>)
    requires IsRun(run, acts)
    ensures (forall i :: 0 <= i < |run| ==> Ordered(run[i])) <==> AllFit(run, acts, |acts|)
  {
    hide Ordered, ReturnFits;
    if AllFit(run, acts, |acts|) {
      forall i | 0 <= i < |run| ensures Ordered(run[i]) { RunOrdered(run, acts, i); }
    }
    if forall i :: 0 <= i < |run| ==> Ordered(run[i]) { OrderedFits(run, acts, |acts|); }
  }

  /** A serialized method of level 0 acquires a mutex of level 5 and returns without
      releasing it: the context goes back to level 0 while the mutex is held. */
  lemma ReturnLeavesLevelLow(lv: Levels, method0: Mutex, m: Mutex)
    requires lv(method0) == 0 && lv(m) == 5
    ensures var s0 := State(lv, x => x == method0, [], map[], 0, []);
      var s := DoReturn(DoAcquire(DoEnter(s0, method0, true), m, true));
      s.held == [m] && s.current == 0 < Top(lv, s.held)
  {
    var s0 := State(lv, x => x == method0, [], map[], 0, []);
    var s1 := DoEnter(s0, method0, true);
    assert s1.held == [method0];
    var s2 := DoAcquire(s1, m, true);
    assert s2.held == [method0, m] && Init(s2.held) == [method0];
    RemovedStep([method0, m], method0);
    RemovedStep([method0], method0);
    assert Init([method0]) == [];
  }

  // -- Serialized methods that call themselves -------------------------------------------------

  /** Every active serialized call still holds its mutex. */
  ghost predicate CallsProtected(s: State) { forall k :: 0 <= k < |s.frames| ==> s.frames[k].mutex in s.held }

  /** A nested call of the same method takes the mutex away from the outer one. */
  lemma NestedCallUnlocks(lv: Levels, m: Mutex)
    ensures var s0 := State(lv, _ => true, [], map[], 0, []);
      var s2 := DoEnter(DoEnter(s0, m, true), m, true);
      Enabled(s2, Return) && DoReturn(s2).frames == [Frame(m, 0)] && m !in DoReturn(s2).held
  {
    var s0 := State(lv, _ => true, [], map[], 0, []);
    var s1 := DoEnter(s0, m, true);
    var s2 := DoEnter(s1, m, true);
    assert s1.held == [m] && s2.frames == [Frame(m, 0), Frame(m, lv(m))] && s2.held == [m];
    assert IndexOf([m], m) == 0;
  }

  /** Held mutexes are distinct and exactly the owned ones, and calls lock mutexes of
      methods: this needs no return to fit. */
  ghost predicate Consistent(s: State) { HeldOnce(s.held) && HeldIsOwned(s.held, s.depth) && MethodFrames(s) }

  ghost predicate HeldIsOwned(held: seq<Mutex>, depth: map<Mutex, nat>) {
    (forall m :: m in held ==> m in depth) && (forall m :: m in depth ==> m in held)
  }

  lemma TakenOnce(held: seq<Mutex>, m: Mutex)
    requires HeldOnce(held) && m !in held
    ensures HeldOnce(held + [m])
  {
    assert Init(held + [m]) == held;
  }

  lemma {:induction false} RemovedOnce(held: seq<Mutex>, x: Mutex)
    requires HeldOnce(held) && x in held
    ensures HeldOnce(Removed(held, IndexOf(held, x)))
    decreases |held|
  {
    RemovedStep(held, x);
    if Last(held) != x {
      RemovedOnce(Init(held), x);
      RemovedMembers(Init(held), x);
      hide Removed, IndexOf;
      TakenOnce(Removed(Init(held), IndexOf(Init(held), x)), Last(held));
    }
  }

  lemma TakeConsistent(s: State, m: Mutex)
    requires Consistent(s) && !Owned(s, m)
    ensures Consistent(Take(s, m))
  {
    hide HeldOnce;
    TakenOnce(s.held, m);
    assert HeldIsOwned(s.held + [m], s.depth[m := 1]) by { hide MethodFrames; }
  }

  lemma DropConsistent(s: State, m: Mutex)
    requires Consistent(s) && m in s.held
    ensures Consistent(Drop(s, m))
  {
    hide Removed, IndexOf, HeldOnce;
    RemovedOnce(s.held, m);
    RemovedMembers(s.held, m);
  }

  lemma StepConsistent(s: State, a: Action)
    requires Consistent(s) && Enabled(s, a)
    ensures Consistent(Apply(s, a))
  {
    var m := if a.Return? then s.frames[|s.frames|-1].mutex else a.mutex;
    if m in s.held { DropConsistent(s, m); }
    if !Owned(s, m) { TakeConsistent(s, m); }
    assert a.Enter? ==> s.ofMethod(m);
    hide HeldOnce, HeldIsOwned, Removed, IndexOf, Top;
  }

  lemma {:induction false} RunConsistent(run: seq<State>, acts: seq<Action>, i: nat)
    requires IsRun(run, acts) && i < |run|
    ensures Consistent(run[i])
  {
    if i > 0 {
      RunConsistent(run, acts, i - 1);
      StepConsistent(run[i-1], acts[i-1]);
    }
  }

  /** No other active call is a call of the method that returns. */
  predicate NotNested(s: State) {
    forall k :: 0 <= k < |s.frames| - 1 ==> s.frames[k].mutex != s.frames[|s.frames|-1].mutex
  }

  /** A return keeps the remaining calls protected exactly when none of them is a call
      of the same method. */
  lemma ReturnProtectsIff(s: State)
    requires Consistent(s) && Enabled(s, Return) && CallsProtected(s)
    ensures CallsProtected(DoReturn(s)) <==> NotNested(s)
  {
    var n := |s.frames| - 1;
    var t := DoReturn(s);
    RemovedMembers(s.held, s.frames[n].mutex);
    assert forall k :: 0 <= k < n ==> t.frames[k] == s.frames[k];
    assert forall k :: 0 <= k < n ==> (t.frames[k].mutex in t.held <==> s.frames[k].mutex != s.frames[n].mutex);
  }

  /** No other step takes a method's mutex away. */
  lemma OtherStepsProtect(s: State, a: Action)
    requires Consistent(s) && Enabled(s, a) && !a.Return? && CallsProtected(s)
    ensures CallsProtected(Apply(s, a))
  {
    if a.Release? && a.mutex in s.held { RemovedMembers(s.held, a.mutex); }
  }

  lemma StepProtectsIff(s: State, a: Action)
    requires Consistent(s) && Enabled(s, a) && CallsProtected(s)
    ensures CallsProtected(Apply(s, a)) <==> (a.Return? ==> NotNested(s))
  {
    if a.Return? { ReturnProtectsIff(s); } else { OtherStepsProtect(s, a); }
  }

  lemma {:induction false} RunProtected(run: seq<State>, acts: seq<Action>, i: nat)
    requires IsRun(run, acts) && i < |run| && forall k :: 0 <= k < i && acts[k].Return? ==> NotNested(run[k])
    ensures CallsProtected(run[i])
  {
    if i > 0 {
      RunProtected(run, acts, i - 1);
      RunConsistent(run, acts, i - 1);
      StepProtectsIff(run[i-1], acts[i-1]);
    }
  }

  /** In every run, whatever its returns restore: each active serialized call holds its
      mutex throughout exactly if no return leaves a call of the same method behind. */
  lemma RunProtectedIff(run: seq<State>, acts: seq<Action>)
    requires IsRun(run, acts)
    ensures (forall i :: 0 <= i < |run| ==> CallsProtected(run[i])) <==>
      forall k :: 0 <= k < |acts| && acts[k].Return? ==> NotNested(run[k])
  {
    hide CallsProtected, NotNested, Consistent;
    if forall k :: 0 <= k < |acts| && acts[k].Return? ==> NotNested(run[k]) {
      forall i | 0 <= i < |run| ensures CallsProtected(run[i]) { RunProtected(run, acts, i); }
    }
    if forall i :: 0 <= i < |run| ==> CallsProtected(run[i]) {
      forall k | 0 <= k < |acts| && acts[k].Return? ensures NotNested(run[k]) {
        assert CallsProtected(run[k]) && CallsProtected(run[k+1]);
        RunConsistent(run, acts, k);
        StepProtectsIff(run[k], acts[k]);
      }
    }
  }

  // -- Releasing over the split storage -------------------------------------------------------

  lemma {:induction false} LastIndex(held: seq<Mutex>, m: Mutex, i: nat)
    requires i < |held| && held[i] == m && m !in held[i + 1..]
    ensures m in held && IndexOf(held, m) == i
    decreases |held|
  {
    if i < |held| - 1 {
      assert Last(held) == held[i + 1..][|held| - i - 2];
      assert held[i + 1..] == Init(held)[i + 1..] + [Last(held)];
      LastIndex(Init(held), m, i);
    }
  }

  /** The interpreter context: the held mutexes in their split storage, what this thread
      owns, the sync level and the active serialized calls. */
  class Context {
    const level: Levels
    const ofMethod: Mutex -> bool
    const held: HeldArray
    var depth: map<Mutex, nat>
    var current: nat
    var frames: seq<Frame>

    constructor (level: Levels, ofMethod: Mutex -> bool)
      ensures Valid() && View() == State(level, ofMethod, [], map[], 0, []) && fresh(held) && fresh(held.fixed) && fresh(held.dynamic)
    {
      this.level, this.ofMethod := level, ofMethod;
      held := new HeldArray();
      depth, current, frames := map[], 0, [];
    }

    ghost predicate Valid()
      reads this, held, held.fixed, held.dynamic
    {
      held.Valid()
    }

    ghost function View(): State
      requires Valid()
      reads this, held, held.fixed, held.dynamic
    {
      State(level, ofMethod, held.Contents(), depth, current, frames)
    }

    method Newest() returns (m: Mutex)
      requires Valid() && held.size > 0
      ensures m == Last(held.Contents())
    {
      m := held.At(held.size - 1);
    }

    /** Takes the mutex out of the storage, the newest at once and any other after a
        search, and gives it up; fails if it is not there. */
    method TakeOut(m: Mutex) returns (ok: bool)
      requires Valid() && held.size > 0
      modifies this`depth, held`size, held.fixed, held.dynamic
      ensures Valid() && ok == (m in old(held.Contents()))
      ensures View() == if ok then Drop(old(View()), m) else old(View())
    {
      ghost var was := held.Contents();
      var item := Newest();
      if item == m {
        held.Pop();
      } else {
        var found, i := FindFromEnd(held, m);
        if !found { return false; }
        LastIndex(was, m, i);
        RemoveIdx(held, i);
      }
      depth := depth - {m};
      return true;
    }

    /** held_mutexes_array_remove_and_release. */
    method RemoveAndRelease(m: Mutex, force: bool) returns (ok: bool)
      requires Valid() && (!force ==> m in depth)
      modifies this`depth, held`size, held.fixed, held.dynamic
      ensures Valid()
      ensures force ==> ok == (m in old(held.Contents())) && View() == if ok then Drop(old(View()), m) else old(View())
      ensures !force ==> View().(current := if ok then Top(level, held.Contents()) else current) == DoRelease(old(View()), m)
    {
      if held.size == 0 { return false; }
      var item := Newest();
      if level(item) != level(m) && !force { return true; }
      if !force && depth[m] > 1 {
        depth := depth[m := depth[m] - 1];
        return true;
      }
      ok := TakeOut(m);
    }

    /** The Acquire operation; `granted` is what the wait for a free mutex comes to. */
    method Acquire(m: Mutex, granted: bool)
      requires Valid()
      modifies this, held, held.fixed, held.dynamic
      ensures Valid() && View() == DoAcquire(old(View()), m, granted) && (held.dynamic == old(held.dynamic) || fresh(held.dynamic))
    {
      if current > level(m) { return; }
      if m in depth {
        if depth[m] != 0xFFFF { depth := depth[m := depth[m] + 1]; }
      } else if granted {
        depth := depth[m := 1];
        held.Push(m);
        current := level(m);
      }
    }

    /** The entry into a serialized method. */
    method EnterMethod(m: Mutex, granted: bool)
      requires Valid()
      modifies this, held, held.fixed, held.dynamic
      ensures Valid() && View() == DoEnter(old(View()), m, granted) && (held.dynamic == old(held.dynamic) || fresh(held.dynamic))
    {
      if current > level(m) { return; }
      if m !in depth {
        if !granted { return; }
        depth := depth[m := 1];
        held.Push(m);
      }
      frames := frames + [Frame(m, current)];
      current := level(m);
    }

    /** The Release operation. */
    method Release(m: Mutex)
      requires Valid()
      modifies this`depth, this`current, held`size, held.fixed, held.dynamic
      ensures Valid() && View() == DoRelease(old(View()), m)
    {
      if m !in depth { return; }
      var ok := RemoveAndRelease(m, false);
      if ok {
        if held.size == 0 {
          current := 0;
        } else {
          var newest := Newest();
          current := level(newest);
        }
      }
    }

    /** The return from a serialized method. */
    method ReturnFromMethod()
      requires Valid() && frames != []
      modifies this, held`size, held.fixed, held.dynamic
      ensures Valid() && View() == DoReturn(old(View()))
    {
      var f := frames[|frames|-1];
      var _ := RemoveAndRelease(f.mutex, true);
      current := f.prev;
      frames := frames[..|frames|-1];
    }
  }
}
