/**
 Deep copy of AML packages.  Nested packages are copied from an explicit stack of
 requests; the result must be what a recursive copy would build.
 */
module DeepCopy {

  /** Object, buffer and package identities are indices. */
  datatype Obj =
    | Uninit
    | Int(value: nat)
    | Str(buffer: nat)
    | Buf(buffer: nat)
    | Pkg(package: nat)
    | Ref(kind: nat, inner: nat)

  datatype Heap = Heap(objects: seq<Obj>, buffers: seq<seq<bv8>>, packages: seq<seq<nat>>)

  const REFOF := 0
  const PKG_INDEX := 4

  /** A package element that is a package-index reference stands for what it refers to. */
  function Unwrap(h: Heap, o: nat): nat {
    if o < |h.objects| && h.objects[o].Ref? && h.objects[o].kind == PKG_INDEX then h.objects[o].inner else o
  }

  // -- What is copied ---------------------------------------------------------------

  /** A finite nesting of at most `d` packages, none of whose objects is `dst`. */
  ghost predicate Source(h: Heap, u: nat, d: nat, dst: nat)
    decreases d, 0
  {
    && u < |h.objects| && u != dst
    && match h.objects[u]
       case Str(b) => b < |h.buffers|
       case Buf(b) => b < |h.buffers|
       case Pkg(p) => d > 0 && p < |h.packages| && Elements(h, p, d - 1, dst)
       case _ => true
  }

  ghost predicate Elements(h: Heap, p: nat, d: nat, dst: nat)
    requires p < |h.packages|
    decreases d, 2
  {
    forall i :: 0 <= i < |h.packages[p]| ==> Element(h, h.packages[p][i], d, dst)
  }

  ghost predicate Element(h: Heap, o: nat, d: nat, dst: nat)
    decreases d, 1
  {
    o < |h.objects| && o != dst && Source(h, Unwrap(h, o), d, dst)
  }

  /** What an object holds, as a value. */
  datatype Value = VUninit | VInt(value: nat) | VStr(bytes: seq<bv8>) | VBuf(bytes: seq<bv8>) | VRef(kind: nat, inner: nat) | VPkg(elements: seq<Value>)

  /** The value of an object; with `unwrap`, package-index references inside packages
      stand for what they refer to. */
  function View(h: Heap, o: nat, unwrap: bool, d: nat): Value
    decreases d, 0
  {
    if o >= |h.objects| then VUninit
    else match h.objects[o]
      case Uninit => VUninit
      case Int(v) => VInt(v)
      case Str(b) => VStr(if b < |h.buffers| then h.buffers[b] else [])
      case Buf(b) => VBuf(if b < |h.buffers| then h.buffers[b] else [])
      case Ref(kind, inner) => VRef(kind, inner)
      case Pkg(p) => VPkg(if d == 0 || p >= |h.packages| then [] else Views(h, h.packages[p], unwrap, d - 1))
  }

  function Views(h: Heap, list: seq<nat>, unwrap: bool, d: nat): seq<Value>
    decreases d, |list| + 1
  {
    if list == [] then []
    else [View(h, if unwrap then Unwrap(h, list[0]) else list[0], unwrap, d)] + Views(h, list[1..], unwrap, d)
  }

  /** What a deep copy makes of a value: every reference becomes one of the RefOf kind. */
  function Copied(v: Value): Value {
    match v
    case VRef(_, inner) => VRef(REFOF, inner)
    case VPkg(elements) => VPkg(CopiedAll(elements))
    case _ => v
  }

  function CopiedAll(vs: seq<Value>): (r: seq<Value>)
    ensures |r| == |vs| && forall i :: 0 <= i < |vs| ==> r[i] == Copied(vs[i])
  {
    if vs == [] then [] else [Copied(vs[0])] + CopiedAll(vs[1..])
  }

  /** Every reference in the value, at whatever depth, is of the RefOf kind. */
  predicate OnlyRefOf(v: Value) {
    match v
    case VRef(kind, _) => kind == REFOF
    case VPkg(elements) => forall i :: 0 <= i < |elements| ==> OnlyRefOf(elements[i])
    case _ => true
  }

  /** A value survives copying unchanged exactly if it holds no reference of another kind. */
  lemma {:induction false} CopiedSameIff(v: Value)
    ensures Copied(v) == v <==> OnlyRefOf(v)
  {
    if v.VPkg? {
      forall i | 0 <= i < |v.elements| ensures Copied(v.elements[i]) == v.elements[i] <==> OnlyRefOf(v.elements[i]) {
        CopiedSameIff(v.elements[i]);
      }
      if CopiedAll(v.elements) == v.elements {
        forall i | 0 <= i < |v.elements| ensures OnlyRefOf(v.elements[i]) { assert CopiedAll(v.elements)[i] == v.elements[i]; }
      }
      assert OnlyRefOf(v) ==> CopiedAll(v.elements) == v.elements;
    }
  }

  const ARGUMENT := 2

  /** A package holding one reference to a method argument: its copy refers to the same
      object, but as a RefOf reference. */
  lemma ArgumentKindLost(inner: nat)
    ensures var v := VPkg([VRef(ARGUMENT, inner)]); Copied(v) == VPkg([VRef(REFOF, inner)]) && Copied(v) != v
  {
    assert CopiedAll([VRef(ARGUMENT, inner)]) == [VRef(REFOF, inner)];
    assert VPkg([VRef(ARGUMENT, inner)]).elements[0] != VPkg([VRef(REFOF, inner)]).elements[0];
  }

  // -- How far a copy has got -----------------------------------------------------------

  /** Copies still to be made: which object is to become a copy of which package. */
  type Pending = map<nat, nat>

  /** `o` is a finished copy of the leaf `u`, with a buffer of its own. */
  ghost predicate Leaf(h0: Heap, h: Heap, o: nat, u: nat)
    requires o < |h.objects| && u < |h0.objects|
  {
    match h0.objects[u]
    case Uninit => h.objects[o].Uninit?
    case Int(v) => h.objects[o] == Int(v)
    case Str(b) => h.objects[o].Str? && OwnBuffer(h0, h, b, h.objects[o].buffer)
    case Buf(b) => h.objects[o].Buf? && OwnBuffer(h0, h, b, h.objects[o].buffer)
    case Ref(_, inner) => h.objects[o] == Ref(REFOF, inner)
    case Pkg(_) => false
  }

  ghost predicate OwnBuffer(h0: Heap, h: Heap, b: nat, c: nat) {
    b < |h0.buffers| <= c < |h.buffers| && h.buffers[c] == h0.buffers[b]
  }

  /** `o` is a copy of `u`, except that some nested packages are still pending. */
  ghost predicate Matches(h0: Heap, h: Heap, pend: Pending, o: nat, u: nat, d: nat)
    decreases d
  {
    && o < |h.objects| && u < |h0.objects|
    && if o in pend then h0.objects[u] == Pkg(pend[o])
       else if !h0.objects[u].Pkg? then Leaf(h0, h, o, u)
       else
         d > 0 && h.objects[o].Pkg? &&
         Contents(h0, h, pend, h.objects[o].package, h0.objects[u].package, d)
  }

  /** A package of its own, element by element. */
  ghost predicate Contents(h0: Heap, h: Heap, pend: Pending, q: nat, p: nat, d: nat)
    requires d > 0
    decreases d, 0
  {
    && p < |h0.packages| <= q < |h.packages| && |h.packages[q]| == |h0.packages[p]|
    && forall i :: 0 <= i < |h0.packages[p]| ==> Matches(h0, h, pend, h.packages[q][i], Unwrap(h0, h0.packages[p][i]), d - 1)
  }

  /** Everything but object `o` is kept, and more may be added. */
  ghost predicate Grows(h: Heap, h': Heap, o: nat) {
    && |h.objects| <= |h'.objects| && h.buffers <= h'.buffers && h.packages <= h'.packages
    && forall x :: 0 <= x < |h.objects| && x != o ==> h'.objects[x] == h.objects[x]
  }

  ghost predicate SamePending(pend: Pending, pend': Pending, n: nat, o: nat) {
    forall x :: 0 <= x < n && x != o ==> (x in pend <==> x in pend') && (x in pend ==> pend'[x] == pend[x])
  }

  /** A new element: pending if it is a package, finished otherwise. */
  ghost predicate Begun(h0: Heap, h: Heap, pend: Pending, c: nat, u: nat) {
    && c < |h.objects| && u < |h0.objects|
    && if h0.objects[u].Pkg? then c in pend && pend[c] == h0.objects[u].package
       else c !in pend && Leaf(h0, h, c, u)
  }

  /** One request has been served: `o` is a copy of package `p` whose elements have begun. */
  ghost predicate Served(h0: Heap, h: Heap, pend: Pending, h': Heap, pend': Pending, o: nat, p: nat) {
    && o < |h.objects| && p < |h0.packages| <= |h.packages| && o !in pend'
    && Grows(h, h', o) && SamePending(pend, pend', |h.objects|, o)
    && h'.objects[o].Pkg?
    && var q := h'.objects[o].package;
       && |h.packages| <= q < |h'.packages| && |h'.packages[q]| == |h0.packages[p]|
       && forall i :: 0 <= i < |h0.packages[p]| ==> Begun(h0, h', pend', h'.packages[q][i], Unwrap(h0, h0.packages[p][i]))
  }

  lemma BegunMatches(h0: Heap, h: Heap, pend: Pending, c: nat, u: nat, d: nat)
    requires Begun(h0, h, pend, c, u)
    ensures Matches(h0, h, pend, c, u, d)
  {}

  lemma LeafGrows(h0: Heap, h: Heap, h': Heap, o: nat, x: nat, u: nat)
    requires Grows(h, h', o) && x < |h.objects| && x != o && u < |h0.objects| && Leaf(h0, h, x, u)
    ensures Leaf(h0, h', x, u)
  {}

  /** Serving a request keeps every copy on course. */
  lemma {:induction false} ServedKeeps(h0: Heap, h: Heap, pend: Pending, h': Heap, pend': Pending, o: nat, p: nat, x: nat, u: nat, d: nat, dst: nat)
    requires Served(h0, h, pend, h', pend', o, p) && o in pend && pend[o] == p
    requires Matches(h0, h, pend, x, u, d) && Source(h0, u, d, dst)
    ensures Matches(h0, h', pend', x, u, d)
    decreases d
  {
    if x == o {
      var q := h'.objects[o].package;
      forall i | 0 <= i < |h0.packages[p]| ensures Matches(h0, h', pend', h'.packages[q][i], Unwrap(h0, h0.packages[p][i]), d - 1) {
        BegunMatches(h0, h', pend', h'.packages[q][i], Unwrap(h0, h0.packages[p][i]), d - 1);
      }
    } else if x !in pend {
      if h0.objects[u].Pkg? {
        var q, r := h.objects[x].package, h0.objects[u].package;
        assert Elements(h0, r, d - 1, dst);
        forall i | 0 <= i < |h0.packages[r]| ensures Matches(h0, h', pend', h'.packages[q][i], Unwrap(h0, h0.packages[r][i]), d - 1) {
          assert Element(h0, h0.packages[r][i], d - 1, dst);
          ServedKeeps(h0, h, pend, h', pend', o, p, h.packages[q][i], Unwrap(h0, h0.packages[r][i]), d - 1, dst);
        }
        assert Contents(h0, h', pend', q, r, d);
      } else {
        LeafGrows(h0, h, h', o, x, u);
      }
    }
  }

  // -- What a finished copy is ------------------------------------------------------------

  /** No package or buffer of the source is used. */
  ghost predicate OwnStorage(h0: Heap, h: Heap, o: nat, d: nat)
    decreases d
  {
    && o < |h.objects|
    && match h.objects[o]
       case Str(b) => b >= |h0.buffers|
       case Buf(b) => b >= |h0.buffers|
       case Pkg(p) => d > 0 && |h0.packages| <= p < |h.packages| && forall i :: 0 <= i < |h.packages[p]| ==> OwnStorage(h0, h, h.packages[p][i], d - 1)
       case _ => true
  }

  /** With nothing pending, the copy has the copied value of the source, and shares
      nothing with it. */
  lemma {:induction false} MatchesMeans(h0: Heap, h: Heap, o: nat, u: nat, d: nat)
    requires Matches(h0, h, map[], o, u, d)
    ensures View(h, o, false, d) == Copied(View(h0, u, true, d)) && OwnStorage(h0, h, o, d)
    decreases d, 0
  {
    if h0.objects[u].Pkg? {
      var q, p := h.objects[o].package, h0.objects[u].package;
      forall i | 0 <= i < |h0.packages[p]| ensures OwnStorage(h0, h, h.packages[q][i], d - 1) {
        MatchesMeans(h0, h, h.packages[q][i], Unwrap(h0, h0.packages[p][i]), d - 1);
      }
      ContentsMean(h0, h, h.packages[q], h0.packages[p], d - 1);
    }
  }

  lemma {:induction false} ContentsMean(h0: Heap, h: Heap, copy: seq<nat>, list: seq<nat>, d: nat)
    requires |copy| == |list| && forall i :: 0 <= i < |list| ==> Matches(h0, h, map[], copy[i], Unwrap(h0, list[i]), d)
    ensures Views(h, copy, false, d) == CopiedAll(Views(h0, list, true, d))
    decreases d, |list| + 1
  {
    if list != [] {
      MatchesMeans(h0, h, copy[0], Unwrap(h0, list[0]), d);
      ContentsMean(h0, h, copy[1..], list[1..], d);
    }
  }

  // -- The stack of requests -----------------------------------------------------------------

  datatype Request = Request(dst: nat, src: nat)

  /** How many packages a copy of `p` will make. */
  ghost function Weight(h: Heap, p: nat, d: nat): nat
    decreases d, 1, 0
  {
    if p < |h.packages| then 1 + Kids(h, p, |h.packages[p]|, d) else 1
  }

  ghost function Kids(h: Heap, p: nat, n: nat, d: nat): nat
    requires p < |h.packages| && n <= |h.packages[p]|
    decreases d, 0, n
  {
    if n == 0 then 0 else Kids(h, p, n - 1, d) + Kid(h, Unwrap(h, h.packages[p][n-1]), d)
  }

  ghost function Kid(h: Heap, u: nat, d: nat): nat
    decreases d, 0, 0
  {
    if u < |h.objects| && h.objects[u].Pkg? && d > 0 then Weight(h, h.objects[u].package, d - 1) else 0
  }

  ghost function Total(h: Heap, reqs: seq<Request>, depths: seq<nat>): nat
    requires |depths| == |reqs|
  {
    if reqs == [] then 0
    else Total(h, reqs[..|reqs|-1], depths[..|reqs|-1]) + Weight(h, reqs[|reqs|-1].src, depths[|reqs|-1])
  }

  lemma TotalPush(h: Heap, reqs: seq<Request>, depths: seq<nat>, r: Request, d: nat)
    requires |depths| == |reqs|
    ensures Total(h, reqs + [r], depths + [d]) == Total(h, reqs, depths) + Weight(h, r.src, d)
  {
    assert (reqs + [r])[..|reqs|] == reqs && (depths + [d])[..|reqs|] == depths;
  }

  /** The stack holds exactly the pending copies, each of a well-formed package. */
  ghost predicate Stack(h0: Heap, h: Heap, pend: Pending, reqs: seq<Request>, depths: seq<nat>, dst: nat) {
    && |depths| == |reqs|
    && (forall k :: 0 <= k < |reqs| ==> reqs[k].dst in pend && pend[reqs[k].dst] == reqs[k].src)
    && (forall k, l :: 0 <= k < l < |reqs| ==> reqs[k].dst != reqs[l].dst)
    && (forall x :: x in pend ==> exists k :: 0 <= k < |reqs| && reqs[k].dst == x)
    && (forall x :: x in pend ==> x < |h.objects| && (x == dst || x >= |h0.objects|))
    && (forall k :: 0 <= k < |reqs| ==> reqs[k].src < |h0.packages| && Elements(h0, reqs[k].src, depths[k], dst))
  }

  lemma StackPop(h0: Heap, h: Heap, pend: Pending, reqs: seq<Request>, depths: seq<nat>, dst: nat)
    requires Stack(h0, h, pend, reqs, depths, dst) && reqs != []
    ensures var n := |reqs| - 1; Stack(h0, h, pend - {reqs[n].dst}, reqs[..n], depths[..n], dst)
  {
    var n := |reqs| - 1;
    var less := pend - {reqs[n].dst};
    forall x | x in less ensures exists k :: 0 <= k < n && reqs[..n][k].dst == x {
      var k :| 0 <= k < |reqs| && reqs[k].dst == x;
      assert reqs[..n][k].dst == x;
    }
  }

  lemma StackPush(h0: Heap, h: Heap, pend: Pending, reqs: seq<Request>, depths: seq<nat>, dst: nat, r: Request, d: nat)
    requires Stack(h0, h, pend, reqs, depths, dst) && r.dst !in pend
    requires |h0.objects| <= r.dst < |h.objects| && r.src < |h0.packages| && Elements(h0, r.src, d, dst)
    ensures Stack(h0, h, pend[r.dst := r.src], reqs + [r], depths + [d], dst)
  {
    var more := reqs + [r];
    var grown := pend[r.dst := r.src];
    forall x | x in grown ensures exists k :: 0 <= k < |more| && more[k].dst == x {
      if x == r.dst {
        assert more[|reqs|].dst == x;
      } else {
        var k :| 0 <= k < |reqs| && reqs[k].dst == x;
        assert more[k].dst == x;
      }
    }
  }

  // -- The code ------------------------------------------------------------------------------

  class ObjectStore {
    var heap: Heap

    /** A package of `n` objects of its own. */
    method PackageAlloc(dst: nat, n: nat)
      requires dst < |heap.objects|
      modifies this
      ensures Grows(old(heap), heap, dst) && NewPackage(old(heap), heap, dst, n)
    {
      var base := |heap.objects|;
      heap := Heap(heap.objects[dst := Pkg(|heap.packages|)] + seq(n, _ => Uninit),
                   heap.buffers,
                   heap.packages + [seq(n, i => base + i)]);
    }

    /** Deep assignment of anything but a package. */
    method AssignLeaf(dst: nat, src: nat, ghost h0: Heap)
      requires dst < |heap.objects| && src < |heap.objects| && dst != src
      requires SourceKept(h0, heap, src) && !heap.objects[src].Pkg? && heap.objects[dst].Uninit?
      modifies this
      ensures Grows(old(heap), heap, dst) && |heap.objects| == |old(heap).objects| && heap.packages == old(heap).packages
      ensures Leaf(h0, heap, dst, src)
    {
      match heap.objects[src] {
        case Uninit =>
        case Int(v) => heap := heap.(objects := heap.objects[dst := Int(v)]);
        case Str(b) =>
          heap := heap.(objects := heap.objects[dst := Str(|heap.buffers|)], buffers := heap.buffers + [heap.buffers[b]]);
        case Buf(b) =>
          heap := heap.(objects := heap.objects[dst := Buf(|heap.buffers|)], buffers := heap.buffers + [heap.buffers[b]]);
        case Ref(_, inner) => heap := heap.(objects := heap.objects[dst := Ref(REFOF, inner)]);
      }
    }

    /** Copies or requests the next element of the package being copied. */
    method CopyElement(src: nat, c: nat, reqs: seq<Request>, ghost job: Job, ghost pend: Pending, ghost depths: seq<nat>, ghost i: nat)
      returns (reqs': seq<Request>, ghost pend': Pending, ghost depths': seq<nat>)
      requires i < |job.list| && src == job.list[i] && c == job.base + i && Progress(job, heap, pend, reqs, depths, i)
      modifies this
      ensures Progress(job, heap, pend', reqs', depths', i + 1)
    {
      hide Progress;
      NextElement(job, heap, pend, reqs, depths, i);
      var u := Unwrap(heap, src);
      ghost var before := heap;
      reqs', pend', depths' := reqs, pend, depths;
      if heap.objects[u].Pkg? {
        var r := Request(c, heap.objects[u].package);
        ProgressPush(job, heap, pend, reqs, depths, i, r);
        reqs', pend', depths' := reqs + [r], pend[c := r.src], depths + [job.d - 1];
      } else {
        AssignLeaf(c, u, job.h0);
        ProgressLeaf(job, before, heap, pend, reqs, depths, i);
      }
    }

    /** Copies one package; nested packages are only requested. */
    method CopyOne(o: nat, p: nat, reqs: seq<Request>, ghost h0: Heap, ghost pend: Pending, ghost depths: seq<nat>, ghost d: nat, ghost dst: nat)
      returns (reqs': seq<Request>, ghost pend': Pending, ghost depths': seq<nat>)
      requires Grows(h0, heap, dst) && dst < |h0.objects| && Stack(h0, heap, pend, reqs, depths, dst)
      requires o < |heap.objects| && o !in pend && (o == dst || o >= |h0.objects|)
      requires p < |h0.packages| && Elements(h0, p, d, dst)
      modifies this
      ensures Grows(h0, heap, dst) && Served(h0, old(heap), pend, heap, pend', o, p)
      ensures Stack(h0, heap, pend', reqs', depths', dst) && |depths'| == |reqs'|
      ensures Total(h0, reqs', depths') == Total(h0, reqs, depths) + Kids(h0, p, |h0.packages[p]|, d)
    {
      var list, base := heap.packages[p], |heap.objects|;
      assert list == h0.packages[p] && |h0.objects| <= base && |depths| == |reqs|;
      hide Progress, Grows, Stack, Elements, Kids, Total, Served, NewPackage;
      ghost var job := Job(h0, heap, pend, o, p, list, base, d, dst, Total(h0, reqs, depths));
      PackageAlloc(o, |list|);
      ProgressStart(job, heap, reqs, depths);
      reqs', pend', depths' := reqs, pend, depths;
      for i := 0 to |list|
        invariant Progress(job, heap, pend', reqs', depths', i)
      {
        reqs', pend', depths' := CopyElement(list[i], base + i, reqs', job, pend', depths', i);
      }
      ProgressDone(job, heap, pend', reqs', depths');
    }

    /** A deep copy has the copied value of the source, package-index references removed:
        the same value exactly if no reference is of another kind than RefOf.  It shares no
        package and no buffer with the source, and leaves everything else as it was. */
    method DeepCopyPackage(dst: nat, src: nat, ghost d: nat)
      requires dst < |heap.objects| && Source(heap, src, d, dst) && heap.objects[src].Pkg?
      modifies this
      ensures Grows(old(heap), heap, dst)
      ensures View(heap, dst, false, d) == Copied(View(old(heap), src, true, d))
      ensures View(heap, dst, false, d) == View(old(heap), src, true, d) <==> OnlyRefOf(View(old(heap), src, true, d))
      ensures OwnStorage(old(heap), heap, dst, d)
    {
      ghost var h0 := heap;
      var p := heap.objects[src].package;
      var reqs := [Request(dst, p)];
      ghost var pend: Pending, depths: seq<nat> := map[dst := p], [d - 1];
      assert reqs[0].dst == dst;
      hide Total, Kids, View, OwnStorage;
      while reqs != []
        invariant |depths| == |reqs| && Working(h0, heap, pend, reqs, depths, dst, src, d)
        decreases Total(h0, reqs, depths)
      {
        hide Working;
        var r := reqs[|reqs| - 1];
        Popped(h0, heap, pend, reqs, depths, dst, src, d);
        ghost var before, left := heap, pend - {r.dst};
        ghost var k := depths[|reqs| - 1];
        ghost var pend', depths';
        reqs, pend', depths' := CopyOne(r.dst, r.src, reqs[..|reqs| - 1], h0, left, depths[..|reqs| - 1], k, dst);
        Pushed(h0, before, pend, heap, pend', r, reqs, depths', dst, src, d);
        pend, depths := pend', depths';
      }
      assert pend == map[];
      MatchesMeans(h0, heap, dst, src, d);
      CopiedSameIff(View(h0, src, true, d));
    }
  }

  /** `dst` has become a package of `n` fresh, distinct, uninitialized objects in the
      order they were made, and nothing else was made. */
  ghost predicate NewPackage(h: Heap, h': Heap, dst: nat, n: nat) {
    && dst < |h.objects| && |h'.objects| == |h.objects| + n && h'.buffers == h.buffers
    && |h'.packages| == |h.packages| + 1 && h'.objects[dst] == Pkg(|h.packages|)
    && var list := h'.packages[|h.packages|];
       && |list| == n && (forall i, j :: 0 <= i < j < n ==> list[i] < list[j])
       && (forall i :: 0 <= i < n ==> |h.objects| <= list[i] < |h'.objects| && h'.objects[list[i]].Uninit?)
  }

  /** Being fresh, in order and `n` in number, the elements are the `n` newest objects. */
  lemma {:induction false} InOrder(list: seq<nat>, base: nat, k: nat)
    requires k < |list| && (forall i, j :: 0 <= i < j < |list| ==> list[i] < list[j])
    requires forall i :: 0 <= i < |list| ==> base <= list[i] < base + |list|
    ensures list[k] == base + k
  {
    AtLeast(list, base, k);
    AtMost(list, base, k);
  }

  lemma {:induction false} AtLeast(list: seq<nat>, base: nat, k: nat)
    requires k < |list| && (forall i, j :: 0 <= i < j < |list| ==> list[i] < list[j]) && base <= list[0]
    ensures list[k] >= base + k
  {
    if k > 0 { AtLeast(list, base, k - 1); }
  }

  lemma {:induction false} AtMost(list: seq<nat>, base: nat, k: nat)
    requires k < |list| && (forall i, j :: 0 <= i < j < |list| ==> list[i] < list[j]) && list[|list|-1] < base + |list|
    ensures list[k] <= base + k
    decreases |list| - k
  {
    if k < |list| - 1 { AtMost(list, base, k + 1); }
  }

  /** The source object is as it was. */
  ghost predicate SourceKept(h0: Heap, h: Heap, src: nat) {
    && src < |h0.objects| && src < |h.objects| && h.objects[src] == h0.objects[src] && h0.buffers <= h.buffers
    && match h0.objects[src] case Str(b) => b < |h0.buffers| case Buf(b) => b < |h0.buffers| case _ => true
  }

  lemma StackGrows(h0: Heap, h: Heap, h': Heap, pend: Pending, reqs: seq<Request>, depths: seq<nat>, dst: nat)
    requires Stack(h0, h, pend, reqs, depths, dst) && |h.objects| <= |h'.objects|
    ensures Stack(h0, h', pend, reqs, depths, dst)
  {}

  lemma ElementAt(h: Heap, p: nat, i: nat, d: nat, dst: nat)
    requires p < |h.packages| && Elements(h, p, d, dst) && i < |h.packages[p]|
    ensures Element(h, h.packages[p][i], d, dst) && Source(h, Unwrap(h, h.packages[p][i]), d, dst)
    ensures Kids(h, p, i + 1, d) == Kids(h, p, i, d) + Kid(h, Unwrap(h, h.packages[p][i]), d)
  {}

  /** The first `i` elements have begun, the others are still empty. */
  ghost predicate Copying(h0: Heap, h: Heap, pend: Pending, list: seq<nat>, base: nat, i: nat) {
    && base + |list| <= |h.objects|
    && (forall j :: 0 <= j < i && j < |list| ==> Begun(h0, h, pend, base + j, Unwrap(h0, list[j])))
    && (forall x :: base + i <= x < base + |list| ==> h.objects[x].Uninit? && x !in pend)
  }

  lemma CopyingStep(h0: Heap, h: Heap, pend: Pending, h': Heap, pend': Pending, list: seq<nat>, base: nat, i: nat)
    requires Copying(h0, h, pend, list, base, i) && i < |list| && |h'.objects| == |h.objects|
    requires Grows(h, h', base + i) && SamePending(pend, pend', |h.objects|, base + i)
    requires Begun(h0, h', pend', base + i, Unwrap(h0, list[i]))
    ensures Copying(h0, h', pend', list, base, i + 1)
  {
    forall j | 0 <= j < i ensures Begun(h0, h', pend', base + j, Unwrap(h0, list[j])) {
      assert Begun(h0, h, pend, base + j, Unwrap(h0, list[j]));
      if !h0.objects[Unwrap(h0, list[j])].Pkg? { LeafGrows(h0, h, h', base + i, base + j, Unwrap(h0, list[j])); }
    }
  }

  /** One package being copied: the heap before, and what is to be done. */
  datatype Job = Job(h0: Heap, before: Heap, pend: Pending, o: nat, p: nat, list: seq<nat>, base: nat, d: nat, dst: nat, total: nat)

  /** The first `i` elements of the package have begun. */
  ghost predicate Progress(j: Job, h: Heap, pend: Pending, reqs: seq<Request>, depths: seq<nat>, i: nat) {
    && j.o < j.base == |j.before.objects| && j.dst < |j.h0.objects| <= j.base && (j.o == j.dst || j.o >= |j.h0.objects|)
    && j.p < |j.h0.packages| && j.list == j.h0.packages[j.p] && i <= |j.list| && Elements(j.h0, j.p, j.d, j.dst)
    && Grows(j.h0, h, j.dst) && Grows(j.before, h, j.o) && |h.objects| == j.base + |j.list| && |j.h0.packages| <= |j.before.packages|
    && |h.packages| == |j.before.packages| + 1 && |h.packages[|j.before.packages|]| == |j.list|
    && (forall k :: 0 <= k < |j.list| ==> h.packages[|j.before.packages|][k] == j.base + k)
    && h.objects[j.o] == Pkg(|j.before.packages|)
    && Copying(j.h0, h, pend, j.list, j.base, i) && j.o !in pend && SamePending(j.pend, pend, j.base, j.o)
    && Stack(j.h0, h, pend, reqs, depths, j.dst)
    && |depths| == |reqs| && Total(j.h0, reqs, depths) == j.total + Kids(j.h0, j.p, i, j.d)
  }

  lemma ProgressStart(j: Job, h: Heap, reqs: seq<Request>, depths: seq<nat>)
    requires j.o < j.base == |j.before.objects| && j.dst < |j.h0.objects| <= j.base && (j.o == j.dst || j.o >= |j.h0.objects|)
    requires j.p < |j.h0.packages| && j.list == j.h0.packages[j.p] && Elements(j.h0, j.p, j.d, j.dst)
    requires Grows(j.h0, j.before, j.dst) && Stack(j.h0, j.before, j.pend, reqs, depths, j.dst) && j.o !in j.pend
    requires j.total == Total(j.h0, reqs, depths)
    requires Grows(j.before, h, j.o) && NewPackage(j.before, h, j.o, |j.list|)
    ensures Progress(j, h, j.pend, reqs, depths, 0)
  {
    hide Elements, Total, Leaf;
    StackGrows(j.h0, j.before, h, j.pend, reqs, depths, j.dst);
    var list := h.packages[|j.before.packages|];
    forall k | 0 <= k < |list| ensures list[k] == j.base + k { InOrder(list, j.base, k); }
    NonePending(j.h0, j.before, j.pend, reqs, depths, j.dst);
    forall x | j.base <= x < j.base + |list| ensures h.objects[x].Uninit? && x !in j.pend { assert list[x - j.base] == x; }
    hide Stack;
  }

  lemma NonePending(h0: Heap, h: Heap, pend: Pending, reqs: seq<Request>, depths: seq<nat>, dst: nat)
    requires Stack(h0, h, pend, reqs, depths, dst)
    ensures forall x :: x in pend ==> x < |h.objects|
  {}

  lemma NextElement(j: Job, h: Heap, pend: Pending, reqs: seq<Request>, depths: seq<nat>, i: nat)
    requires Progress(j, h, pend, reqs, depths, i) && i < |j.list|
    ensures j.list[i] < |j.h0.objects|
    ensures var u := Unwrap(j.h0, j.list[i]);
      && u == Unwrap(h, j.list[i]) && u < |h.objects| && u != j.base + i && j.base + i < |h.objects| && h.objects[j.base + i].Uninit?
      && SourceKept(j.h0, h, u)
      && (h.objects[u].Pkg? ==> j.d > 0)
  {
    ElementAt(j.h0, j.p, i, j.d, j.dst);
    hide Stack, Total, Kids, Elements;
  }

  lemma ProgressPush(j: Job, h: Heap, pend: Pending, reqs: seq<Request>, depths: seq<nat>, i: nat, r: Request)
    requires Progress(j, h, pend, reqs, depths, i) && i < |j.list| && r.dst == j.base + i && j.d > 0
    requires var u := Unwrap(j.h0, j.list[i]); u < |j.h0.objects| && j.h0.objects[u] == Pkg(r.src)
    ensures Progress(j, h, pend[r.dst := r.src], reqs + [r], depths + [j.d - 1], i + 1)
  {
    hide Kids, Weight, Total, Stack, Elements, Leaf;
    ElementAt(j.h0, j.p, i, j.d, j.dst);
    StackPush(j.h0, h, pend, reqs, depths, j.dst, r, j.d - 1);
    TotalPush(j.h0, reqs, depths, r, j.d - 1);
    CopyingStep(j.h0, h, pend, h, pend[r.dst := r.src], j.list, j.base, i);
  }

  lemma ProgressLeaf(j: Job, h: Heap, h': Heap, pend: Pending, reqs: seq<Request>, depths: seq<nat>, i: nat)
    requires Progress(j, h, pend, reqs, depths, i) && i < |j.list|
    requires Grows(h, h', j.base + i) && |h'.objects| == |h.objects| && h'.packages == h.packages
    requires var u := Unwrap(j.h0, j.list[i]); u < |j.h0.objects| && !j.h0.objects[u].Pkg? && Leaf(j.h0, h', j.base + i, u)
    ensures Progress(j, h', pend, reqs, depths, i + 1)
  {
    hide Kids, Weight, Total, Stack, Elements, Leaf;
    ElementAt(j.h0, j.p, i, j.d, j.dst);
    StackGrows(j.h0, h, h', pend, reqs, depths, j.dst);
    CopyingStep(j.h0, h, pend, h', pend, j.list, j.base, i);
  }

  lemma ProgressDone(j: Job, h: Heap, pend: Pending, reqs: seq<Request>, depths: seq<nat>)
    requires Progress(j, h, pend, reqs, depths, |j.list|)
    ensures Grows(j.h0, h, j.dst) && Served(j.h0, j.before, j.pend, h, pend, j.o, j.p)
    ensures Stack(j.h0, h, pend, reqs, depths, j.dst) && |depths| == |reqs|
    ensures Total(j.h0, reqs, depths) == j.total + Kids(j.h0, j.p, |j.list|, j.d)
  {
    hide Kids, Weight, Total, Stack, Elements, Leaf;
  }

  // -- The whole copy -----------------------------------------------------------------------

  ghost predicate Working(h0: Heap, h: Heap, pend: Pending, reqs: seq<Request>, depths: seq<nat>, dst: nat, src: nat, d: nat) {
    && dst < |h0.objects| && Grows(h0, h, dst) && Stack(h0, h, pend, reqs, depths, dst)
    && Source(h0, src, d, dst) && Matches(h0, h, pend, dst, src, d)
  }

  lemma Popped(h0: Heap, h: Heap, pend: Pending, reqs: seq<Request>, depths: seq<nat>, dst: nat, src: nat, d: nat)
    requires |depths| == |reqs| && reqs != [] && Working(h0, h, pend, reqs, depths, dst, src, d)
    ensures dst < |h0.objects| && Grows(h0, h, dst)
    ensures var n := |reqs| - 1;
      var r := reqs[n];
      && Stack(h0, h, pend - {r.dst}, reqs[..n], depths[..n], dst) && r.dst in pend && pend[r.dst] == r.src
      && r.dst < |h.objects| && (r.dst == dst || r.dst >= |h0.objects|)
      && r.src < |h0.packages| && Elements(h0, r.src, depths[n], dst)
      && Total(h0, reqs, depths) == Total(h0, reqs[..n], depths[..n]) + 1 + Kids(h0, r.src, |h0.packages[r.src]|, depths[n])
  {
    StackPop(h0, h, pend, reqs, depths, dst);
    hide Matches, Elements, Source, Grows, Kids;
  }

  lemma Pushed(h0: Heap, h: Heap, pend: Pending, h': Heap, pend': Pending, r: Request, reqs: seq<Request>, depths: seq<nat>, dst: nat, src: nat, d: nat)
    requires dst < |h0.objects| && Grows(h0, h', dst) && Stack(h0, h', pend', reqs, depths, dst)
    requires Served(h0, h, pend - {r.dst}, h', pend', r.dst, r.src) && r.dst in pend && pend[r.dst] == r.src
    requires Source(h0, src, d, dst) && Matches(h0, h, pend, dst, src, d)
    ensures Working(h0, h', pend', reqs, depths, dst, src, d)
  {
    hide Stack, Grows, Source, Matches, Begun;
    assert Served(h0, h, pend, h', pend', r.dst, r.src);
    ServedKeeps(h0, h, pend, h', pend', r.dst, r.src, dst, src, d, dst);
  }
}
