/**
 Reference counting of ACPI objects.  A reference object and everything it leads
 to is counted as one chain, so the count of an object is a weighted sum over the
 references pointing at it.
 */
module RefCount {
  import opened Common

  /** An object by its allocation number; a freed one keeps its cell. */
  datatype Cell = Cell(count: int, isRef: bool, inner: Option<nat>, live: bool)

  type Cells = seq<Cell>

  // -- Chains -------------------------------------------------------------------

  function Next(c: Cell): Option<nat> { if c.isRef then c.inner else None }

  /** `chain` is the whole chain starting at its first object. */
  ghost predicate IsChain(cells: Cells, chain: seq<nat>) {
    && chain != []
    && (forall i :: 0 <= i < |chain| ==> chain[i] < |cells|)
    && (forall i :: 0 <= i < |chain| - 1 ==> Next(cells[chain[i]]) == Some(chain[i+1]))
    && Next(cells[chain[|chain|-1]]) == None
  }

  /** A finite chain meets no object twice. */
  lemma {:induction false} ChainDistinct(cells: Cells, chain: seq<nat>, i: nat, j: nat)
    requires IsChain(cells, chain) && i < j < |chain|
    ensures chain[i] != chain[j]
    decreases |chain| - j
  {
    if j + 1 < |chain| { ChainDistinct(cells, chain, i + 1, j + 1); }
    assert Next(cells[chain[i]]) == Some(chain[i+1]);
  }

  lemma ChainTail(cells: Cells, chain: seq<nat>)
    requires IsChain(cells, chain) && |chain| > 1
    ensures IsChain(cells, chain[1..])
  {
    forall i | 0 <= i < |chain| - 2 ensures Next(cells[chain[1..][i]]) == Some(chain[1..][i+1]) {
      assert Next(cells[chain[i+1]]) == Some(chain[i+2]);
    }
  }

  // -- The weighted sum -------------------------------------------------------------

  function Weight(c: Cell, x: nat): int { if Next(c) == Some(x) then c.count else 0 }

  /** What the references among the first `n` objects contribute to `x`. */
  function Inflow(cells: Cells, n: nat, x: nat): int
    requires n <= |cells|
  {
    if n == 0 then 0 else Inflow(cells, n - 1, x) + Weight(cells[n-1], x)
  }

  lemma {:induction false} InflowChange(a: Cells, b: Cells, n: nat, o: nat, x: nat)
    requires |a| == |b| && n <= |a| && o < |a| && b == a[o := b[o]]
    ensures Inflow(b, n, x) == Inflow(a, n, x) + if o < n then Weight(b[o], x) - Weight(a[o], x) else 0
  {
    if n > 0 { InflowChange(a, b, n - 1, o, x); }
  }

  lemma {:induction false} InflowAtLeast(cells: Cells, n: nat, p: nat, x: nat)
    requires n <= |cells| && forall i :: 0 <= i < |cells| ==> cells[i].count >= 0
    ensures Inflow(cells, n, x) >= 0
    ensures p < n ==> Inflow(cells, n, x) >= Weight(cells[p], x)
  {
    if n > 0 { InflowAtLeast(cells, n - 1, p, x); }
  }

  /** What the counts should be: outside handles plus references, where `due` is
      still missing at one object. */
  ghost predicate Balanced(cells: Cells, handles: seq<int>, at: nat, due: int) {
    && |handles| == |cells|
    && forall x :: 0 <= x < |cells| ==>
      cells[x].count + (if x == at then due else 0) == handles[x] + Inflow(cells, |cells|, x)
  }

  function Bump(cells: Cells, o: nat, d: int): Cells
    requires o < |cells|
  {
    cells[o := cells[o].(count := cells[o].count + d)]
  }

  /** Every object of the chain counted up or down. */
  ghost function Mark(cells: Cells, chain: seq<nat>, d: int): Cells
    requires forall i :: 0 <= i < |chain| ==> chain[i] < |cells|
    decreases |chain|
  {
    if chain == [] then cells else Mark(Bump(cells, chain[0], d), chain[1..], d)
  }

  /** Counting one object passes what is missing on to the next in the chain. */
  lemma BumpPasses(cells: Cells, handles: seq<int>, o: nat, d: int)
    requires o < |cells| && Balanced(cells, handles, o, d)
    ensures var b := Bump(cells, o, d);
      match Next(cells[o]) case None => Balanced(b, handles, o, 0) case Some(c) => Balanced(b, handles, c, d)
  {
    var b := Bump(cells, o, d);
    forall x | 0 <= x < |cells|
      ensures Inflow(b, |b|, x) == Inflow(cells, |cells|, x) + if Next(cells[o]) == Some(x) then d else 0
    {
      InflowChange(cells, b, |cells|, o, x);
    }
  }

  lemma {:induction false} MarkBalances(cells: Cells, handles: seq<int>, chain: seq<nat>, d: int)
    requires IsChain(cells, chain) && Balanced(cells, handles, chain[0], d)
    ensures |Mark(cells, chain, d)| == |cells| && Balanced(Mark(cells, chain, d), handles, chain[0], 0)
    decreases |chain|
  {
    BumpPasses(cells, handles, chain[0], d);
    var b := Bump(cells, chain[0], d);
    if |chain| > 1 {
      ChainTail(cells, chain);
      assert IsChain(b, chain[1..]);
      MarkBalances(b, handles, chain[1..], d);
    } else {
      assert Mark(b, chain[1..], d) == b;
    }
  }

  /** Marking changes the counts of exactly the chain's objects, and nothing else. */
  lemma {:induction false} MarkAt(cells: Cells, chain: seq<nat>, d: int, x: nat)
    requires forall i :: 0 <= i < |chain| ==> chain[i] < |cells|
    requires forall i, j :: 0 <= i < j < |chain| ==> chain[i] != chain[j]
    requires x < |cells|
    ensures |Mark(cells, chain, d)| == |cells|
    ensures Mark(cells, chain, d)[x] == cells[x].(count := cells[x].count + if x in chain then d else 0)
    decreases |chain|
  {
    if chain != [] {
      MarkAt(Bump(cells, chain[0], d), chain[1..], d, x);
      assert chain == [chain[0]] + chain[1..];
    }
  }

  lemma MarkChain(cells: Cells, chain: seq<nat>, d: int)
    requires IsChain(cells, chain)
    ensures |Mark(cells, chain, d)| == |cells|
    ensures forall x :: 0 <= x < |cells| ==>
      Mark(cells, chain, d)[x] == cells[x].(count := cells[x].count + if x in chain then d else 0)
  {
    forall i, j | 0 <= i < j < |chain| ensures chain[i] != chain[j] { ChainDistinct(cells, chain, i, j); }
    forall x | 0 <= x < |cells|
      ensures |Mark(cells, chain, d)| == |cells|
      ensures Mark(cells, chain, d)[x] == cells[x].(count := cells[x].count + if x in chain then d else 0)
    {
      MarkAt(cells, chain, d, x);
    }
    assert |Mark(cells, chain, d)| == |cells| by { MarkAt(cells, chain, d, chain[0]); }
  }

  // -- The invariant of the heap ---------------------------------------------------

  /** Live objects are counted, freed ones are neither counted nor held. */
  ghost predicate LiveCounts(cells: Cells, handles: seq<int>)
    requires |handles| == |cells|
  {
    forall x :: 0 <= x < |cells| ==> if cells[x].live then cells[x].count >= 1 else cells[x].count == handles[x] == 0
  }

  /** A live reference leads to a live object. */
  ghost predicate LiveLinks(cells: Cells) {
    forall p :: 0 <= p < |cells| && cells[p].live && Next(cells[p]).Some? ==>
      Next(cells[p]).value < |cells| && cells[Next(cells[p]).value].live
  }

  ghost predicate Inv(cells: Cells, handles: seq<int>) {
    Balanced(cells, handles, 0, 0) && LiveCounts(cells, handles) && LiveLinks(cells)
  }

  lemma HeldIsLive(cells: Cells, handles: seq<int>, o: nat)
    requires Inv(cells, handles) && o < |cells| && handles[o] >= 1
    ensures cells[o].live
  {}

  lemma {:induction false} ChainLive(cells: Cells, handles: seq<int>, chain: seq<nat>, i: nat)
    requires Inv(cells, handles) && IsChain(cells, chain) && cells[chain[0]].live && i < |chain|
    ensures cells[chain[i]].live
  {
    if i > 0 {
      ChainLive(cells, handles, chain, i - 1);
      assert Next(cells[chain[i-1]]) == Some(chain[i]);
    }
  }

  /** The outside handles are worth something. */
  ghost predicate Held(handles: seq<int>) { forall x :: 0 <= x < |handles| ==> handles[x] >= 0 }

  ghost predicate Counting(cells: Cells) { forall x :: 0 <= x < |cells| ==> cells[x].count >= 0 }

  /** Counts never decrease along a chain. */
  lemma CountsGrow(cells: Cells, handles: seq<int>, p: nat, c: nat)
    requires Balanced(cells, handles, 0, 0) && Held(handles) && Counting(cells)
    requires p < |cells| && c < |cells| && Next(cells[p]) == Some(c)
    ensures cells[p].count <= cells[c].count
  {
    InflowAtLeast(cells, |cells|, p, c);
  }

  lemma {:induction false} CountsGrowAlong(cells: Cells, handles: seq<int>, chain: seq<nat>, i: nat, j: nat)
    requires Balanced(cells, handles, 0, 0) && Held(handles) && Counting(cells) && IsChain(cells, chain)
    requires i <= j < |chain|
    ensures cells[chain[i]].count <= cells[chain[j]].count
  {
    if i < j {
      CountsGrowAlong(cells, handles, chain, i, j - 1);
      assert Next(cells[chain[j-1]]) == Some(chain[j]);
      CountsGrow(cells, handles, chain[j-1], chain[j]);
    }
  }

  // -- Releasing -----------------------------------------------------------------------

  function FreeIfZero(cells: Cells, o: nat): Cells
    requires o < |cells|
  {
    if cells[o].count == 0 then cells[o := cells[o].(live := false)] else cells
  }

  ghost function FreeChain(cells: Cells, chain: seq<nat>): Cells
    requires forall i :: 0 <= i < |chain| ==> chain[i] < |cells|
    decreases |chain|
  {
    if chain == [] then cells else FreeChain(FreeIfZero(cells, chain[0]), chain[1..])
  }

  ghost function Unref(cells: Cells, chain: seq<nat>): Cells
    requires IsChain(cells, chain)
  {
    MarkChain(cells, chain, -1);
    var m := Mark(cells, chain, -1);
    if m[chain[0]].count == 0 then FreeChain(m, chain) else m
  }

  lemma {:induction false} FreeChainAt(cells: Cells, chain: seq<nat>, x: nat)
    requires (forall i :: 0 <= i < |chain| ==> chain[i] < |cells|) && x < |cells|
    ensures |FreeChain(cells, chain)| == |cells|
    ensures FreeChain(cells, chain)[x] == if x in chain && cells[x].count == 0 then cells[x].(live := false) else cells[x]
    decreases |chain|
  {
    if chain != [] {
      FreeChainAt(FreeIfZero(cells, chain[0]), chain[1..], x);
      assert chain == [chain[0]] + chain[1..];
    }
  }

  lemma {:induction false} InflowSame(a: Cells, b: Cells, n: nat, x: nat)
    requires |a| == |b| && n <= |a| && forall i :: 0 <= i < |a| ==> b[i].(live := a[i].live) == a[i]
    ensures Inflow(a, n, x) == Inflow(b, n, x)
  {
    if n > 0 { InflowSame(a, b, n - 1, x); }
  }

  /** The state between counting down and freeing. */
  ghost predicate Marked(cells: Cells, m: Cells, chain: seq<nat>, d: int) {
    && |m| == |cells|
    && forall x :: 0 <= x < |cells| ==> m[x] == cells[x].(count := cells[x].count + if x in chain then d else 0)
  }

  lemma UnrefMarks(cells: Cells, handles: seq<int>, chain: seq<nat>)
    requires Inv(cells, handles) && IsChain(cells, chain) && cells[chain[0]].live
    ensures var m, h := Mark(cells, chain, -1), handles[chain[0] := handles[chain[0]] - 1];
      Marked(cells, m, chain, -1) && IsChain(m, chain) && Balanced(m, h, 0, 0) && Counting(m)
    ensures forall x :: x in chain ==> cells[x].live
  {
    var o := chain[0];
    var h := handles[o := handles[o] - 1];
    MarkChain(cells, chain, -1);
    assert Balanced(cells, h, o, -1);
    MarkBalances(cells, h, chain, -1);
    forall x | x in chain ensures cells[x].live {
      var i :| 0 <= i < |chain| && chain[i] == x;
      ChainLive(cells, handles, chain, i);
    }
  }

  /** After an unref exactly the chain's objects are counted down, and exactly those
      that reach zero are freed. */
  lemma UnrefMeaning(cells: Cells, handles: seq<int>, chain: seq<nat>)
    requires Inv(cells, handles) && Held(handles) && IsChain(cells, chain) && cells[chain[0]].live && handles[chain[0]] >= 1
    ensures var m, u := Mark(cells, chain, -1), Unref(cells, chain);
      && Marked(cells, m, chain, -1) && |u| == |m|
      && forall x :: 0 <= x < |cells| ==> u[x] == m[x].(live := cells[x].live && m[x].count != 0)
  {
    var o := chain[0];
    var h := handles[o := handles[o] - 1];
    var m, u := Mark(cells, chain, -1), Unref(cells, chain);
    UnrefMarks(cells, handles, chain);
    forall x | 0 <= x < |cells| ensures |u| == |m| && u[x] == m[x].(live := cells[x].live && m[x].count != 0) {
      FreeChainAt(m, chain, x);
      if x in chain && m[o].count != 0 {
        var i :| 0 <= i < |chain| && chain[i] == x;
        CountsGrowAlong(m, h, chain, 0, i);
      }
    }
    FreeChainAt(m, chain, o);
  }

  /** The freed objects are a prefix of the chain. */
  lemma UnrefFreesPrefix(cells: Cells, handles: seq<int>, chain: seq<nat>, i: nat, j: nat)
    requires Inv(cells, handles) && Held(handles) && IsChain(cells, chain) && cells[chain[0]].live && handles[chain[0]] >= 1
    requires i <= j < |chain|
    ensures |Unref(cells, chain)| == |cells|
    ensures !Unref(cells, chain)[chain[j]].live ==> !Unref(cells, chain)[chain[i]].live
  {
    UnrefMeaning(cells, handles, chain);
    UnrefMarks(cells, handles, chain);
    CountsGrowAlong(Mark(cells, chain, -1), handles[chain[0] := handles[chain[0]] - 1], chain, i, j);
  }

  /** Freeing what has reached zero leaves the sums alone. */
  lemma FreedBalanced(m: Cells, u: Cells, h: seq<int>)
    requires Balanced(m, h, 0, 0) && |u| == |m| && forall x :: 0 <= x < |m| ==> u[x].(live := m[x].live) == m[x]
    ensures Balanced(u, h, 0, 0)
  {
    forall x | 0 <= x < |m| ensures Inflow(u, |u|, x) == Inflow(m, |m|, x) { InflowSame(m, u, |m|, x); }
  }

  lemma FreedLinks(cells: Cells, m: Cells, u: Cells, h: seq<int>)
    requires LiveLinks(cells) && |cells| == |m| == |u| && Balanced(m, h, 0, 0) && Held(h) && Counting(m)
    requires forall x :: 0 <= x < |m| ==> Next(m[x]) == Next(cells[x]) && u[x] == m[x].(live := cells[x].live && m[x].count != 0)
    ensures LiveLinks(u)
  {
    hide Balanced;
    forall p | 0 <= p < |u| && u[p].live && Next(u[p]).Some?
      ensures Next(u[p]).value < |u| && u[Next(u[p]).value].live
    {
      assert cells[p].live && Next(cells[p]) == Next(u[p]);
      CountsGrow(m, h, p, Next(m[p]).value);
    }
  }

  /** What is freed is not held. */
  lemma FreedCounts(cells: Cells, handles: seq<int>, m: Cells, u: Cells, h: seq<int>)
    requires |handles| == |cells| == |m| == |u| == |h| && LiveCounts(cells, handles) && Balanced(m, h, 0, 0) && Held(h) && Counting(m)
    requires forall x :: 0 <= x < |m| ==> h[x] <= handles[x] && u[x] == m[x].(live := cells[x].live && m[x].count != 0)
    requires forall x :: 0 <= x < |m| && !cells[x].live ==> m[x].count == 0
    ensures LiveCounts(u, h)
  {
    forall x | 0 <= x < |u| ensures if u[x].live then u[x].count >= 1 else u[x].count == h[x] == 0 {
      InflowAtLeast(m, |m|, 0, x);
      assert m[x].count == h[x] + Inflow(m, |m|, x);
    }
  }

  /** Giving up a handle keeps the invariant: nothing live leads to a freed object. */
  lemma UnrefKeeps(cells: Cells, handles: seq<int>, chain: seq<nat>)
    requires Inv(cells, handles) && Held(handles) && IsChain(cells, chain) && cells[chain[0]].live && handles[chain[0]] >= 1
    ensures Inv(Unref(cells, chain), handles[chain[0] := handles[chain[0]] - 1])
  {
    assert |handles| == |cells|;
    hide Unref, Mark, Balanced, LiveLinks;
    var h := handles[chain[0] := handles[chain[0]] - 1];
    var m, u := Mark(cells, chain, -1), Unref(cells, chain);
    UnrefMeaning(cells, handles, chain);
    UnrefMarks(cells, handles, chain);
    FreedBalanced(m, u, h);
    FreedLinks(cells, m, u, h);
    FreedCounts(cells, handles, m, u, h);
  }

  // -- Taking a handle, attaching and detaching ------------------------------------------

  lemma MarkedUpLive(cells: Cells, handles: seq<int>, m: Cells, chain: seq<nat>)
    requires |handles| == |cells| && LiveCounts(cells, handles) && LiveLinks(cells) && IsChain(cells, chain) && Marked(cells, m, chain, 1)
    requires forall i :: 0 <= i < |chain| ==> cells[chain[i]].live
    ensures LiveCounts(m, handles[chain[0] := handles[chain[0]] + 1]) && LiveLinks(m) && IsChain(m, chain)
  {
    assert cells[chain[0]].live;
  }

  lemma RefKeeps(cells: Cells, handles: seq<int>, chain: seq<nat>)
    requires Inv(cells, handles) && IsChain(cells, chain) && cells[chain[0]].live
    ensures Inv(Mark(cells, chain, 1), handles[chain[0] := handles[chain[0]] + 1])
    ensures IsChain(Mark(cells, chain, 1), chain)
  {
    assert |handles| == |cells|;
    hide Mark, Balanced, LiveCounts, LiveLinks, Marked;
    RefMarks(cells, handles, chain);
    forall i | 0 <= i < |chain| ensures cells[chain[i]].live { ChainLive(cells, handles, chain, i); }
    MarkedUpLive(cells, handles, Mark(cells, chain, 1), chain);
  }

  lemma RefMarks(cells: Cells, handles: seq<int>, chain: seq<nat>)
    requires Balanced(cells, handles, 0, 0) && IsChain(cells, chain)
    ensures Balanced(Mark(cells, chain, 1), handles[chain[0] := handles[chain[0]] + 1], 0, 0)
    ensures Marked(cells, Mark(cells, chain, 1), chain, 1)
  {
    var o := chain[0];
    var h := handles[o := handles[o] + 1];
    MarkChain(cells, chain, 1);
    assert Balanced(cells, h, o, 1);
    MarkBalances(cells, h, chain, 1);
  }

  function SetInner(cells: Cells, p: nat, inner: Option<nat>): Cells
    requires p < |cells|
  {
    cells[p := cells[p].(inner := inner)]
  }

  ghost function RefTimes(cells: Cells, chain: seq<nat>, n: nat): Cells
    requires IsChain(cells, chain)
    decreases n
  {
    if n == 0 then cells else
      MarkChain(cells, chain, 1);
      assert IsChain(Mark(cells, chain, 1), chain);
      RefTimes(Mark(cells, chain, 1), chain, n - 1)
  }

  lemma {:induction false} RefTimesKeeps(cells: Cells, handles: seq<int>, chain: seq<nat>, n: nat)
    requires Inv(cells, handles) && IsChain(cells, chain) && cells[chain[0]].live
    ensures Inv(RefTimes(cells, chain, n), handles[chain[0] := handles[chain[0]] + n])
    decreases n
  {
    var o := chain[0];
    if n == 0 {
      assert handles[o := handles[o]] == handles;
    } else {
      RefKeeps(cells, handles, chain);
      MarkChain(cells, chain, 1);
      var h := handles[o := handles[o] + 1];
      RefTimesKeeps(Mark(cells, chain, 1), h, chain, n - 1);
      assert h[o := h[o] + (n - 1)] == handles[o := handles[o] + n];
    }
  }

  /** Linking or unlinking a child moves the parent's count between links and handles. */
  lemma SetInnerKeeps(cells: Cells, handles: seq<int>, p: nat, c: nat, link: bool)
    requires Inv(cells, handles) && p < |cells| && c < |cells| && cells[p].live && cells[p].isRef && cells[c].live
    requires Next(cells[p]) == if link then None else Some(c)
    ensures var n := cells[p].count;
      Inv(SetInner(cells, p, if link then Some(c) else None), handles[c := handles[c] + if link then -n else n])
  {
    var b := SetInner(cells, p, if link then Some(c) else None);
    forall x | 0 <= x < |cells|
      ensures Inflow(b, |b|, x) == Inflow(cells, |cells|, x) + Weight(b[p], x) - Weight(cells[p], x)
    {
      InflowChange(cells, b, |cells|, p, x);
    }
  }

  ghost function Attach(cells: Cells, p: nat, chain: seq<nat>): Cells
    requires p < |cells| && IsChain(cells, chain) && p !in chain && cells[p].count >= 0
  {
    var b := SetInner(cells, p, Some(chain[0]));
    assert IsChain(b, chain);
    RefTimes(b, chain, cells[p].count)
  }

  /** Attaching a child keeps the handles and the invariant. */
  lemma AttachKeeps(cells: Cells, handles: seq<int>, p: nat, chain: seq<nat>)
    requires Inv(cells, handles) && p < |cells| && IsChain(cells, chain) && p !in chain
    requires cells[p].live && cells[p].isRef && cells[p].inner == None && cells[chain[0]].live
    ensures Inv(Attach(cells, p, chain), handles)
  {
    var c, n := chain[0], cells[p].count;
    var b, h := SetInner(cells, p, Some(c)), handles[c := handles[c] - n];
    SetInnerKeeps(cells, handles, p, c, true);
    assert handles[c := handles[c] + -n] == h;
    assert IsChain(b, chain);
    RefTimesKeeps(b, h, chain, n);
    assert h[c := h[c] + n] == handles;
  }

  lemma UnrefShape(cells: Cells, chain: seq<nat>)
    requires IsChain(cells, chain)
    ensures |Unref(cells, chain)| == |cells| && IsChain(Unref(cells, chain), chain)
    ensures forall x :: 0 <= x < |cells| ==> Next(Unref(cells, chain)[x]) == Next(cells[x])
    ensures forall x :: 0 <= x < |cells| && Unref(cells, chain)[x].live ==> cells[x].live
  {
    MarkChain(cells, chain, -1);
    var m := Mark(cells, chain, -1);
    forall x | 0 <= x < |cells|
      ensures |FreeChain(m, chain)| == |m|
      ensures FreeChain(m, chain)[x] == if x in chain && m[x].count == 0 then m[x].(live := false) else m[x]
    {
      FreeChainAt(m, chain, x);
    }
    FreeChainAt(m, chain, chain[0]);
  }

  ghost function UnrefTimes(cells: Cells, chain: seq<nat>, n: nat): Cells
    requires IsChain(cells, chain)
    decreases n
  {
    if n == 0 then cells else
      UnrefShape(cells, chain);
      UnrefTimes(Unref(cells, chain), chain, n - 1)
  }

  lemma UnrefTimesStep(cells: Cells, chain: seq<nat>, n: nat)
    requires IsChain(cells, chain) && n > 0
    ensures IsChain(Unref(cells, chain), chain) && UnrefTimes(cells, chain, n) == UnrefTimes(Unref(cells, chain), chain, n - 1)
  {
    UnrefShape(cells, chain);
  }

  /** The handles after giving up `n` on one object. */
  ghost function Paid(handles: seq<int>, o: nat, n: int): seq<int>
    requires o < |handles|
  {
    handles[o := handles[o] - n]
  }

  lemma PaidStep(handles: seq<int>, o: nat, n: nat)
    requires o < |handles| && Held(handles) && handles[o] >= n > 0
    ensures |Paid(handles, o, 1)| == |handles| && Held(Paid(handles, o, 1)) && Paid(handles, o, 1)[o] >= n - 1
    ensures Paid(Paid(handles, o, 1), o, n - 1) == Paid(handles, o, n)
  {}

  lemma PayOne(cells: Cells, handles: seq<int>, chain: seq<nat>)
    requires Inv(cells, handles) && Held(handles) && IsChain(cells, chain) && handles[chain[0]] >= 1
    ensures |handles| == |cells| && Inv(Unref(cells, chain), Paid(handles, chain[0], 1))
  {
    HeldIsLive(cells, handles, chain[0]);
    hide Inv, Unref;
    UnrefKeeps(cells, handles, chain);
  }

  lemma {:induction false} UnrefTimesKeeps(cells: Cells, handles: seq<int>, chain: seq<nat>, n: nat)
    requires Inv(cells, handles) && Held(handles) && IsChain(cells, chain) && handles[chain[0]] >= n
    ensures Inv(UnrefTimes(cells, chain, n), Paid(handles, chain[0], n))
    decreases n
  {
    var o := chain[0];
    if n == 0 {
      assert Paid(handles, o, 0) == handles;
    } else {
      assert |handles| == |cells|;
      hide Inv, Unref, UnrefTimes, Paid, Held;
      PayOne(cells, handles, chain);
      UnrefTimesStep(cells, chain, n);
      PaidStep(handles, o, n);
      UnrefTimesKeeps(Unref(cells, chain), Paid(handles, o, 1), chain, n - 1);
    }
  }

  /** A reference is not on the chain of what it leads to. */
  lemma ParentOutside(cells: Cells, p: nat, chain: seq<nat>)
    requires IsChain(cells, chain) && p < |cells| && Next(cells[p]) == Some(chain[0])
    ensures IsChain(cells, [p] + chain) && p !in chain
  {
    assert IsChain(cells, [p] + chain);
    if p in chain {
      var i :| 0 <= i < |chain| && chain[i] == p;
      ChainDistinct(cells, [p] + chain, 0, i + 1);
    }
  }

  ghost function Detach(cells: Cells, p: nat, chain: seq<nat>): Cells
    requires p < |cells| && IsChain(cells, chain) && p !in chain && cells[p].count >= 0
  {
    var b := SetInner(cells, p, None);
    assert IsChain(b, chain);
    UnrefTimes(b, chain, cells[p].count)
  }

  /** Detaching a child keeps the other handles and the invariant. */
  lemma DetachKeeps(cells: Cells, handles: seq<int>, p: nat, chain: seq<nat>)
    requires Inv(cells, handles) && Held(handles) && p < |cells| && IsChain(cells, chain) && p !in chain
    requires cells[p].live && Next(cells[p]) == Some(chain[0])
    ensures Inv(Detach(cells, p, chain), handles)
  {
    var c, n := chain[0], cells[p].count;
    var b, h := SetInner(cells, p, None), handles[c := handles[c] + n];
    SetInnerKeeps(cells, handles, p, c, false);
    assert IsChain(b, chain);
    UnrefTimesKeeps(b, h, chain, n);
    assert Paid(h, c, n) == handles;
  }

  // -- Every chain stays finite -------------------------------------------------------

  ghost predicate HasChain(cells: Cells, o: nat) { exists chain :: IsChain(cells, chain) && chain[0] == o }

  ghost predicate Acyclic(cells: Cells) { forall o :: 0 <= o < |cells| && cells[o].live ==> HasChain(cells, o) }

  lemma SameChains(a: Cells, b: Cells)
    requires Acyclic(a) && |a| == |b|
    requires forall x :: 0 <= x < |a| ==> Next(a[x]) == Next(b[x]) && (b[x].live ==> a[x].live)
    ensures Acyclic(b)
  {
    forall o | 0 <= o < |b| && b[o].live ensures HasChain(b, o) {
      var chain :| IsChain(a, chain) && chain[0] == o;
      assert IsChain(b, chain);
    }
  }

  /** Redirecting one reference to a finite chain it is not on, or to nothing. */
  lemma Redirect(cells: Cells, p: nat, chain: seq<nat>)
    requires Acyclic(cells) && p < |cells| && cells[p].isRef
    requires chain != [] ==> IsChain(cells, chain) && p !in chain
    ensures Acyclic(SetInner(cells, p, if chain == [] then None else Some(chain[0])))
  {
    var b := SetInner(cells, p, if chain == [] then None else Some(chain[0]));
    forall o | 0 <= o < |b| && b[o].live ensures HasChain(b, o) {
      var q :| IsChain(cells, q) && q[0] == o;
      if p in q {
        var i :| 0 <= i < |q| && q[i] == p;
        forall j | 0 <= j < |q| && j != i ensures q[j] != p {
          if j < i { ChainDistinct(cells, q, j, i); } else { ChainDistinct(cells, q, i, j); }
        }
        assert IsChain(b, q[..i+1] + chain);
      } else {
        assert IsChain(b, q);
      }
    }
  }

  lemma {:induction false} RefTimesShape(cells: Cells, chain: seq<nat>, n: nat)
    requires IsChain(cells, chain)
    ensures |RefTimes(cells, chain, n)| == |cells|
    ensures forall x :: 0 <= x < |cells| ==>
      Next(RefTimes(cells, chain, n)[x]) == Next(cells[x]) && RefTimes(cells, chain, n)[x].live == cells[x].live
    decreases n
  {
    if n > 0 {
      MarkChain(cells, chain, 1);
      assert IsChain(Mark(cells, chain, 1), chain);
      RefTimesShape(Mark(cells, chain, 1), chain, n - 1);
    }
  }

  lemma {:induction false} UnrefTimesShape(cells: Cells, chain: seq<nat>, n: nat)
    requires IsChain(cells, chain)
    ensures |UnrefTimes(cells, chain, n)| == |cells|
    ensures forall x :: 0 <= x < |cells| ==>
      Next(UnrefTimes(cells, chain, n)[x]) == Next(cells[x]) && (UnrefTimes(cells, chain, n)[x].live ==> cells[x].live)
    decreases n
  {
    if n > 0 {
      UnrefShape(cells, chain);
      UnrefTimesShape(Unref(cells, chain), chain, n - 1);
    }
  }

  // -- Whole runs ---------------------------------------------------------------------

  datatype State = State(cells: Cells, handles: seq<int>)

  /** Each step names the chain the code walks. */
  datatype Action =
    | Create(isRef: bool)
    | TakeHandle(chain: seq<nat>)
    | DropHandle(chain: seq<nat>)
    | AttachChild(parent: nat, chain: seq<nat>)
    | DetachChild(parent: nat, chain: seq<nat>)

  ghost predicate LiveChain(cells: Cells, chain: seq<nat>) { IsChain(cells, chain) && cells[chain[0]].live }

  ghost predicate LiveRef(cells: Cells, p: nat) { p < |cells| && cells[p].live && cells[p].isRef && cells[p].count >= 0 }

  /** What callers owe: no handle is given up twice, no cycle is closed, and a parent
      that already has a child is detached first. */
  ghost predicate Enabled(s: State, a: Action) {
    match a
    case Create(_) => true
    case TakeHandle(chain) => LiveChain(s.cells, chain) && |s.handles| == |s.cells|
    case DropHandle(chain) => LiveChain(s.cells, chain) && |s.handles| == |s.cells| && s.handles[chain[0]] >= 1
    case AttachChild(p, chain) => LiveRef(s.cells, p) && LiveChain(s.cells, chain) && p !in chain && s.cells[p].inner == None
    case DetachChild(p, chain) => LiveRef(s.cells, p) && IsChain(s.cells, chain) && p !in chain && s.cells[p].inner == Some(chain[0])
  }

  ghost function Apply(s: State, a: Action): State
    requires Enabled(s, a)
  {
    match a
    case Create(isRef) => State(s.cells + [Cell(1, isRef, None, true)], s.handles + [1])
    case TakeHandle(chain) => State(Mark(s.cells, chain, 1), s.handles[chain[0] := s.handles[chain[0]] + 1])
    case DropHandle(chain) => State(Unref(s.cells, chain), s.handles[chain[0] := s.handles[chain[0]] - 1])
    case AttachChild(p, chain) => s.(cells := Attach(s.cells, p, chain))
    case DetachChild(p, chain) => s.(cells := Detach(s.cells, p, chain))
  }

  ghost predicate IsRun(run: seq<State>, acts: seq<Action>) {
    && |run| == |acts| + 1 && run[0] == State([], [])
    && forall i :: 0 <= i < |acts| ==> Enabled(run[i], acts[i]) && run[i+1] == Apply(run[i], acts[i])
  }

  ghost predicate Sound(s: State) { Inv(s.cells, s.handles) && Held(s.handles) && Acyclic(s.cells) }

  lemma {:induction false} InflowPrefix(a: Cells, b: Cells, n: nat, x: nat)
    requires n <= |a| && a <= b
    ensures Inflow(b, n, x) == Inflow(a, n, x)
  {
    if n > 0 { InflowPrefix(a, b, n - 1, x); }
  }

  /** Nothing points at an object that does not exist yet. */
  lemma {:induction false} InflowOutside(cells: Cells, handles: seq<int>, n: nat, x: nat)
    requires Inv(cells, handles) && n <= |cells| && x >= |cells|
    ensures Inflow(cells, n, x) == 0
  {
    if n > 0 {
      InflowOutside(cells, handles, n - 1, x);
      assert cells[n-1].live || cells[n-1].count == 0;
    }
  }

  lemma CreateBalanced(cells: Cells, handles: seq<int>, isRef: bool)
    requires Inv(cells, handles)
    ensures Balanced(cells + [Cell(1, isRef, None, true)], handles + [1], 0, 0)
  {
    var b := cells + [Cell(1, isRef, None, true)];
    forall x | 0 <= x < |b| ensures Inflow(b, |b|, x) == if x < |cells| then Inflow(cells, |cells|, x) else 0 {
      InflowPrefix(cells, b, |cells|, x);
      if x == |cells| { InflowOutside(cells, handles, |cells|, x); }
    }
  }

  lemma CreateAcyclic(cells: Cells, isRef: bool)
    requires Acyclic(cells)
    ensures Acyclic(cells + [Cell(1, isRef, None, true)])
  {
    var b := cells + [Cell(1, isRef, None, true)];
    forall o | 0 <= o < |b| && b[o].live ensures HasChain(b, o) {
      if o < |cells| {
        var chain :| IsChain(cells, chain) && chain[0] == o;
        assert IsChain(b, chain);
      } else {
        assert IsChain(b, [o]);
      }
    }
  }

  lemma CreateKeeps(s: State, isRef: bool)
    requires Sound(s)
    ensures Sound(Apply(s, Create(isRef)))
  {
    CreateBalanced(s.cells, s.handles, isRef);
    CreateAcyclic(s.cells, isRef);
    hide Balanced, Acyclic;
  }

  lemma TakeKeeps(s: State, chain: seq<nat>)
    requires Sound(s) && Enabled(s, TakeHandle(chain))
    ensures Sound(Apply(s, TakeHandle(chain)))
  {
    hide Inv, Mark;
    RefKeeps(s.cells, s.handles, chain);
    MarkChain(s.cells, chain, 1);
    SameChains(s.cells, Mark(s.cells, chain, 1));
  }

  lemma DropKeeps(s: State, chain: seq<nat>)
    requires Sound(s) && Enabled(s, DropHandle(chain))
    ensures Sound(Apply(s, DropHandle(chain)))
  {
    hide Inv, Unref;
    UnrefKeeps(s.cells, s.handles, chain);
    UnrefShape(s.cells, chain);
    SameChains(s.cells, Unref(s.cells, chain));
  }

  lemma LinkKeeps(s: State, a: Action)
    requires Sound(s) && Enabled(s, a) && (a.AttachChild? || a.DetachChild?)
    ensures Sound(Apply(s, a))
  {
    var p, chain := a.parent, a.chain;
    var b := SetInner(s.cells, p, if a.AttachChild? then Some(chain[0]) else None);
    assert IsChain(b, chain);
    Redirect(s.cells, p, if a.AttachChild? then chain else []);
    if a.AttachChild? {
      AttachKeeps(s.cells, s.handles, p, chain);
      RefTimesShape(b, chain, s.cells[p].count);
    } else {
      DetachKeeps(s.cells, s.handles, p, chain);
      UnrefTimesShape(b, chain, s.cells[p].count);
    }
    SameChains(b, Apply(s, a).cells);
  }

  /** Conservation over every run: each count is the outside handles plus the counts
      of the references to it, and every chain the code walks is finite. */
  lemma {:induction false} RunConserves(run: seq<State>, acts: seq<Action>, i: nat)
    requires IsRun(run, acts) && i < |run|
    ensures Sound(run[i])
  {
    if i > 0 {
      RunConserves(run, acts, i - 1);
      var s, a := run[i-1], acts[i-1];
      assert Enabled(s, a) && run[i] == Apply(s, a);
      hide Sound;
      match a
      case Create(isRef) => CreateKeeps(s, isRef);
      case TakeHandle(chain) => TakeKeeps(s, chain);
      case DropHandle(chain) => DropKeeps(s, chain);
      case AttachChild(_, _) => LinkKeeps(s, a);
      case DetachChild(_, _) => LinkKeeps(s, a);
    }
  }

  // -- No leak and no dangling reference ------------------------------------------------

  ghost function Below(n: nat): (r: set<nat>)
    ensures |r| == n && forall x: nat :: x in r <==> x < n
  {
    if n == 0 then {} else Below(n - 1) + {n - 1}
  }

  ghost function Members(s: seq<nat>): set<nat> { set x | x in s }

  lemma {:induction false} MembersCount(s: seq<nat>)
    requires forall i, j :: 0 <= i < j < |s| ==> s[i] != s[j]
    ensures |Members(s)| == |s|
  {
    if s != [] {
      MembersCount(s[1..]);
      assert Members(s) == Members(s[1..]) + {s[0]};
    }
  }

  lemma ChainShort(cells: Cells, chain: seq<nat>)
    requires IsChain(cells, chain)
    ensures |chain| <= |cells|
  {
    forall i, j | 0 <= i < j < |chain| ensures chain[i] != chain[j] { ChainDistinct(cells, chain, i, j); }
    MembersCount(chain);
    var m, all := Members(chain), Below(|cells|);
    assert m + (all - m) == all;
  }

  lemma {:induction false} SomeInflow(cells: Cells, n: nat, x: nat) returns (p: nat)
    requires n <= |cells| && Inflow(cells, n, x) >= 1
    ensures p < n && Next(cells[p]) == Some(x) && cells[p].count >= 1
  {
    if Weight(cells[n-1], x) >= 1 { p := n - 1; } else { p := SomeInflow(cells, n - 1, x); }
  }

  /** On the chain of an object that somebody outside holds. */
  ghost predicate Reachable(s: State, o: nat) {
    |s.handles| == |s.cells| &&
    exists chain :: IsChain(s.cells, chain) && s.handles[chain[0]] >= 1 && o in chain
  }

  lemma {:induction false} LiveIsReachable(s: State, chain: seq<nat>, o: nat)
    requires Sound(s) && LiveChain(s.cells, chain) && o in chain
    ensures Reachable(s, o)
    decreases |s.cells| - |chain|
  {
    if s.handles[chain[0]] < 1 {
      var p := SomeInflow(s.cells, |s.cells|, chain[0]);
      ParentOutside(s.cells, p, chain);
      ChainShort(s.cells, [p] + chain);
      LiveIsReachable(s, [p] + chain, o);
    }
  }

  /** An object is alive exactly when somebody outside can still reach it: nothing
      leaks, and nothing in use is freed. */
  lemma LiveExactlyReachable(s: State, o: nat)
    requires Sound(s) && o < |s.cells|
    ensures s.cells[o].live <==> Reachable(s, o)
  {
    if s.cells[o].live {
      var chain :| IsChain(s.cells, chain) && chain[0] == o;
      LiveIsReachable(s, chain, o);
    }
    if Reachable(s, o) {
      var chain :| IsChain(s.cells, chain) && s.handles[chain[0]] >= 1 && o in chain;
      var i :| 0 <= i < |chain| && chain[i] == o;
      ChainLive(s.cells, s.handles, chain, i);
    }
  }

  // -- The code --------------------------------------------------------------------------

  /** The objects as the code updates them: it walks a chain and changes one count at
      a time. */
  class ObjectHeap {
    var cells: Cells

    method RefObject(obj: Option<nat>, ghost chain: seq<nat>)
      requires obj.Some? ==> InUse(cells, chain) && chain[0] == obj.value
      modifies this
      ensures cells == if obj.Some? then Mark(old(cells), chain, 1) else old(cells)
    {
      var at := obj;
      ghost var i := 0;
      while at.Some?
        invariant obj.Some? ==> i <= |chain| && IsChain(old(cells), chain) && SameLinks(old(cells), cells)
        invariant obj.Some? ==> Mark(cells, chain[i..], 1) == Mark(old(cells), chain, 1)
        invariant obj.Some? ==> at == if i == |chain| then None else Some(chain[i])
        invariant obj.None? ==> at.None? && cells == old(cells)
        decreases |chain| - i
      {
        assert chain[i..][0] == chain[i] && chain[i..][1..] == chain[i+1..];
        var c := cells[at.value];
        cells := Bump(cells, at.value, 1);
        at := if c.isRef then c.inner else None;
        i := i + 1;
      }
    }

    method UnrefObject(obj: Option<nat>, ghost chain: seq<nat>)
      requires obj.Some? ==> InUse(cells, chain) && chain[0] == obj.value
      modifies this
      ensures cells == if obj.Some? then Unref(old(cells), chain) else old(cells)
    {
      if obj.None? { return; }
      var at := obj;
      ghost var i := 0;
      while at.Some?
        invariant i <= |chain| && IsChain(old(cells), chain) && SameLinks(old(cells), cells)
        invariant Mark(cells, chain[i..], -1) == Mark(old(cells), chain, -1)
        invariant at == if i == |chain| then None else Some(chain[i])
        decreases |chain| - i
      {
        assert chain[i..][0] == chain[i] && chain[i..][1..] == chain[i+1..];
        var c := cells[at.value];
        cells := Bump(cells, at.value, -1);
        at := if c.isRef then c.inner else None;
        i := i + 1;
      }
      assert IsChain(cells, chain);
      if cells[obj.value].count == 0 { FreeTheChain(obj.value, chain); }
    }

    method FreeTheChain(obj: nat, ghost chain: seq<nat>)
      requires IsChain(cells, chain) && chain[0] == obj
      modifies this
      ensures cells == FreeChain(old(cells), chain)
    {
      var at := Some(obj);
      ghost var i := 0;
      while at.Some?
        invariant i <= |chain| && IsChain(old(cells), chain) && SameLinks(old(cells), cells)
        invariant FreeChain(cells, chain[i..]) == FreeChain(old(cells), chain)
        invariant at == if i == |chain| then None else Some(chain[i])
        decreases |chain| - i
      {
        assert chain[i..][0] == chain[i] && chain[i..][1..] == chain[i+1..];
        var c := cells[at.value];
        cells := FreeIfZero(cells, at.value);
        at := if c.isRef then c.inner else None;
        i := i + 1;
      }
    }

    /** Attaching counts the child once for every count of the parent. */
    method AttachChild(parent: nat, child: nat, ghost chain: seq<nat>)
      requires parent < |cells| && InUse(cells, chain) && chain[0] == child && parent !in chain && cells[parent].count >= 0
      modifies this
      ensures cells == Attach(old(cells), parent, chain)
    {
      cells := SetInner(cells, parent, Some(child));
      assert IsChain(cells, chain);
      var refs := cells[parent].count;
      ghost var b := cells;
      while refs > 0
        invariant refs >= 0 && IsChain(b, chain) && InUse(cells, chain) && RefTimes(cells, chain, refs) == RefTimes(b, chain, b[parent].count)
      {
        hide InUse;
        MarkInUse(cells, chain);
        RefObject(Some(child), chain);
        refs := refs - 1;
      }
    }

    /** Detaching gives up as many counts of the child; the last one may free it. */
    method DetachChild(parent: nat, ghost chain: seq<nat>, ghost handles: seq<int>)
      requires Inv(cells, handles) && Held(handles) && parent < |cells| && cells[parent].live && cells[parent].isRef
      requires cells[parent].inner.Some? ==> IsChain(cells, chain) && chain[0] == cells[parent].inner.value && parent !in chain
      modifies this
      ensures cells == if old(cells)[parent].inner.Some? then Detach(old(cells), parent, chain) else old(cells)
    {
      var child := cells[parent].inner;
      ghost var h := handles;
      if child.Some? {
        SetInnerKeeps(cells, handles, parent, child.value, false);
        h := handles[child.value := handles[child.value] + cells[parent].count];
      }
      cells := SetInner(cells, parent, None);
      assert child.Some? ==> IsChain(cells, chain);
      var refs := cells[parent].count;
      ghost var b := cells;
      while refs > 0
        invariant refs >= 0 && (child.None? ==> cells == b)
        invariant child.Some? ==> IsChain(b, chain) && IsChain(cells, chain) && Inv(cells, h) && Held(h) && |h| == |cells| && h[chain[0]] >= refs
        invariant child.Some? ==> UnrefTimes(cells, chain, refs) == UnrefTimes(b, chain, b[parent].count)
      {
        hide Inv, Unref, UnrefTimes, InUse;
        if child.Some? {
          HeldIsLive(cells, h, chain[0]);
          HeldInUse(cells, h, chain);
          UnrefKeeps(cells, h, chain);
          UnrefTimesStep(cells, chain, refs);
          h := h[chain[0] := h[chain[0]] - 1];
        }
        UnrefObject(child, chain);
        refs := refs - 1;
      }
    }
  }

  /** Nothing on the chain has been counted down to zero yet. */
  ghost predicate InUse(cells: Cells, chain: seq<nat>) {
    IsChain(cells, chain) && forall i :: 0 <= i < |chain| ==> cells[chain[i]].count >= 1
  }

  lemma MarkInUse(cells: Cells, chain: seq<nat>)
    requires InUse(cells, chain)
    ensures IsChain(cells, chain) && IsChain(Mark(cells, chain, 1), chain) && InUse(Mark(cells, chain, 1), chain)
  {
    MarkChain(cells, chain, 1);
  }

  lemma HeldInUse(cells: Cells, handles: seq<int>, chain: seq<nat>)
    requires Inv(cells, handles) && Held(handles) && IsChain(cells, chain) && handles[chain[0]] >= 1
    ensures InUse(cells, chain)
  {
    forall i | 0 <= i < |chain| ensures cells[chain[i]].count >= 1 { ChainLive(cells, handles, chain, i); }
  }

  ghost predicate SameLinks(a: Cells, b: Cells) {
    |a| == |b| && forall x :: 0 <= x < |a| ==> a[x].isRef == b[x].isRef && a[x].inner == b[x].inner
  }
}
