/**
 The iterative namespace traversal: a loop over node, depth and a walking-up
 flag that must behave like the recursive descending/ascending visit.
 */
module NamespaceWalk {
  import opened Common
  import opened Namespace

  datatype Decision = Continue | NextPeer | Break | Unknown

  /** A callback takes the user state, a node and its depth. */
  type Callback<!S> = (S, Node, nat) -> (S, Decision)

  datatype Query<!S> = Query(
    descending: Option<Callback<S>>,
    ascending: Option<Callback<S>>,
    typeMask: set<ObjectType>,
    maxDepth: nat,
    permanentOnly: bool)

  datatype Stop = Going | Broke | Rejected

  /** What the traversal carries from node to node.  `matches` is the source's
      local flag; a node without an object leaves it as the previous node set it. */
  datatype Walk<S> = Walk(matches: bool, user: S, stop: Stop)

  /** One look at a node, on the way down or on the way up. */
  function Visit<S>(q: Query<S>, w: Walk<S>, n: Node, depth: nat, up: bool): (Walk<S>, Decision) {
    var m := if n.kind.None? then w.matches else n.kind.value in q.typeMask;
    var w1 := w.(matches := m);
    if !m then (w1, Continue)
    else if q.permanentOnly && n.temporary then (w1, NextPeer)
    else
      var cb := if up then q.ascending else q.descending;
      if cb.None? then (w1, Continue)
      else
        var (u, d) := cb.value(w.user, n, depth);
        (w1.(user := u, stop := if d.Break? then Broke else w.stop), d)
  }

  predicate Descends<S>(q: Query<S>, d: Decision, depth: nat, kids: Forest) {
    d.Continue? && depth != q.maxDepth && kids.Cons?
  }

  /** The recursive meaning of the traversal. */
  function WalkForest<S>(q: Query<S>, f: Forest, depth: nat, w: Walk<S>): Walk<S> {
    if f.Nil? || w.stop != Going then w
    else
      var (w1, d) := Visit(q, w, f.node, depth, false);
      if w1.stop != Going then w1
      else if d.Unknown? then w1.(stop := Rejected)
      else
        var w2 := if Descends(q, d, depth, f.kids) then WalkForest(q, f.kids, depth + 1, w1) else w1;
        if w2.stop != Going then w2
        else
          var w3 := Visit(q, w2, f.node, depth, true).0;
          WalkForest(q, f.rest, depth, w3)
  }

  /** What is left to do once the subtree below the last cell is finished. */
  ghost function Finish<S>(q: Query<S>, cells: seq<Forest>, w: Walk<S>): Walk<S> {
    if cells == [] || w.stop != Going || cells[|cells|-1].Nil? then w
    else
      var top := cells[|cells|-1];
      var w1 := Visit(q, w, top.node, |cells|, true).0;
      Finish(q, cells[..|cells|-1], WalkForest(q, top.rest, |cells|, w1))
  }

  // -- The loop ---------------------------------------------------------------

  /** The node the cells below `cells` hang off. */
  ghost function Above(cells: seq<Forest>, root: Node): Node {
    if cells == [] || cells[|cells|-1].Nil? then root else cells[|cells|-1].node
  }

  /** The cells from the first level down to the current node, with their links. */
  ghost predicate OnPath(cells: seq<Forest>, root: Node)
    reads set f, n | f in cells && n in Nodes(f) :: n
  {
    cells != [] ==>
      var top, below := cells[|cells|-1], cells[..|cells|-1];
      top.Cons? && Linked(top, Above(below, root)) && OnPath(below, root)
  }

  /** Putting a cell on top: the first child, or the next sibling. */
  lemma PushOnPath(cells: seq<Forest>, f: Forest, root: Node)
    requires OnPath(cells, root) && f.Cons? && Linked(f, Above(cells, root))
    ensures OnPath(cells + [f], root)
  {
    assert (cells + [f])[..|cells|] == cells;
  }

  ghost function Pending(cells: seq<Forest>): nat {
    if cells == [] then 0
    else
      var top := cells[|cells|-1];
      1 + (if top.Cons? then 2 * Size(top.rest) else 0) + Pending(cells[..|cells|-1])
  }

  ghost function Measure(cells: seq<Forest>, up: bool): nat {
    if cells == [] || up then Pending(cells)
    else 2 * Size(cells[|cells|-1]) + Pending(cells[..|cells|-1])
  }

  /** The result of the whole traversal, seen from the middle of it. */
  ghost function Goal<S>(q: Query<S>, cells: seq<Forest>, up: bool, w: Walk<S>): Walk<S> {
    if up || cells == [] then Finish(q, cells, w)
    else Finish(q, cells[..|cells|-1], WalkForest(q, cells[|cells|-1], |cells|, w))
  }

  lemma ClimbToSibling<S>(q: Query<S>, cells: seq<Forest>, w: Walk<S>)
    requires cells != [] && w.stop == Going && cells[|cells|-1].Cons? && cells[|cells|-1].rest.Cons?
    ensures var w1 := Visit(q, w, cells[|cells|-1].node, |cells|, true).0;
      w1.stop == Going ==>
        var cells' := cells[..|cells|-1] + [cells[|cells|-1].rest];
        Goal(q, cells, true, w) == Goal(q, cells', false, w1) && Measure(cells', false) < Measure(cells, true)
  {
    var below := cells[..|cells|-1];
    assert (below + [cells[|cells|-1].rest])[..|cells|-1] == below;
  }

  lemma ClimbToParent<S>(q: Query<S>, cells: seq<Forest>, w: Walk<S>)
    requires cells != [] && w.stop == Going && cells[|cells|-1].Cons? && cells[|cells|-1].rest.Nil?
    ensures var w1 := Visit(q, w, cells[|cells|-1].node, |cells|, true).0;
      w1.stop == Going ==>
        var cells' := cells[..|cells|-1];
        Goal(q, cells, true, w) == Goal(q, cells', true, w1) && Measure(cells', true) < Measure(cells, true)
  {}

  lemma DescendToChild<S>(q: Query<S>, cells: seq<Forest>, w: Walk<S>)
    requires cells != [] && w.stop == Going && cells[|cells|-1].Cons?
    ensures var (w1, d) := Visit(q, w, cells[|cells|-1].node, |cells|, false);
      w1.stop == Going && Descends(q, d, |cells|, cells[|cells|-1].kids) ==>
        var cells' := cells + [cells[|cells|-1].kids];
        Goal(q, cells, false, w) == Goal(q, cells', false, w1) && Measure(cells', false) < Measure(cells, false)
  {
    assert (cells + [cells[|cells|-1].kids])[..|cells|] == cells;
  }

  lemma TurnAround<S>(q: Query<S>, cells: seq<Forest>, w: Walk<S>)
    requires cells != [] && w.stop == Going && cells[|cells|-1].Cons?
    ensures var (w1, d) := Visit(q, w, cells[|cells|-1].node, |cells|, false);
      w1.stop == Going && !d.Unknown? && !Descends(q, d, |cells|, cells[|cells|-1].kids) ==>
        Goal(q, cells, false, w) == Goal(q, cells, true, w1) && Measure(cells, true) < Measure(cells, false)
  {}

  /** A break or an unknown decision ends the traversal on the spot. */
  lemma StopHere<S>(q: Query<S>, cells: seq<Forest>, up: bool, w: Walk<S>)
    requires cells != [] && w.stop == Going && cells[|cells|-1].Cons?
    ensures var (w1, d) := Visit(q, w, cells[|cells|-1].node, |cells|, up);
      && (w1.stop != Going ==> Goal(q, cells, up, w) == w1)
      && (w1.stop == Going && !up && d.Unknown? ==> Goal(q, cells, up, w) == w1.(stop := Rejected))
  {
    var top, below := cells[|cells|-1], cells[..|cells|-1];
    var (w1, d) := Visit(q, w, top.node, |cells|, up);
    var stopped := if w1.stop != Going then w1 else w1.(stop := Rejected);
    assert WalkForest(q, top.rest, |cells|, stopped) == stopped;
    assert Finish(q, below, stopped) == stopped;
  }

  /** Where the loop goes next, as cells: to the sibling, up, down, or around. */
  ghost function NextCells<S>(q: Query<S>, cells: seq<Forest>, up: bool, d: Decision): (seq<Forest>, bool)
    requires cells != [] && cells[|cells|-1].Cons?
  {
    var top, below := cells[|cells|-1], cells[..|cells|-1];
    if up then if top.rest.Cons? then (below + [top.rest], false) else (below, true)
    else if Descends(q, d, |cells|, top.kids) then (cells + [top.kids], false)
    else (cells, true)
  }

  /** The node the loop goes to next, read off the links. */
  function NextNode<S>(q: Query<S>, node: Node, depth: nat, up: bool, d: Decision): Node?
    reads node
  {
    if up then if node.next != null then node.next else node.parent
    else if d.Continue? && depth != q.maxDepth && node.child != null then node.child
    else node
  }

  lemma AdvancePath<S>(q: Query<S>, cells: seq<Forest>, up: bool, d: Decision, root: Node)
    requires cells != [] && OnPath(cells, root)
    ensures var (cells', up') := NextCells(q, cells, up, d);
      && OnPath(cells', root)
      && NextNode(q, cells[|cells|-1].node, |cells|, up, d) == Above(cells', root)
  {
    var top, below := cells[|cells|-1], cells[..|cells|-1];
    if up && top.rest.Cons? { PushOnPath(below, top.rest, root); }
    if !up && top.kids.Cons? { PushOnPath(cells, top.kids, root); }
  }

  lemma AdvanceGoal<S>(q: Query<S>, cells: seq<Forest>, up: bool, w: Walk<S>)
    requires cells != [] && cells[|cells|-1].Cons? && w.stop == Going
    ensures var (w1, d) := Visit(q, w, cells[|cells|-1].node, |cells|, up);
      w1.stop == Going && (up || !d.Unknown?) ==>
        var (cells', up') := NextCells(q, cells, up, d);
        Goal(q, cells', up', w1) == Goal(q, cells, up, w) && Measure(cells', up') < Measure(cells, up)
  {
    if up {
      if cells[|cells|-1].rest.Cons? { ClimbToSibling(q, cells, w); } else { ClimbToParent(q, cells, w); }
    } else {
      DescendToChild(q, cells, w);
      TurnAround(q, cells, w);
    }
  }

  datatype Status = Ok | InvalidArgument

  function Report<S>(w: Walk<S>): (Status, S) {
    (if w.stop.Rejected? then InvalidArgument else Ok, w.user)
  }

  method DoForEachChild<S>(start: Node?, q: Query<S>, user: S, ghost kids: Forest)
    returns (status: Status, result: S)
    requires start != null ==> start.child == First(kids) && Linked(kids, start)
    ensures (q.descending.None? && q.ascending.None?) || start == null || q.maxDepth == 0 ==>
      status == InvalidArgument && result == user
    ensures !(q.descending.None? && q.ascending.None?) && start != null && q.maxDepth != 0 ==>
      (status, result) == Report(WalkForest(q, kids, 1, Walk(false, user, Going)))
  {
    if q.descending.None? && q.ascending.None? { return InvalidArgument, user; }
    if start == null || q.maxDepth == 0 { return InvalidArgument, user; }
    if start.child == null { return Ok, user; }

    var node, depth, walkingUp, w := start.child, 1, false, Walk(false, user, Going);
    ghost var cells: seq<Forest> := [kids];
    PushOnPath([], kids, start);
    assert [] + [kids] == cells;
    while depth > 0
      invariant depth == |cells| && w.stop == Going && OnPath(cells, start)
      invariant node == Above(cells, start)
      invariant depth == 0 ==> walkingUp
      invariant Goal(q, cells, walkingUp, w) == WalkForest(q, kids, 1, Walk(false, user, Going))
      decreases Measure(cells, walkingUp)
    {
      var r := Visit(q, w, node, depth, walkingUp);
      StopHere(q, cells, walkingUp, w);
      if r.0.stop == Broke { return Ok, r.0.user; }
      if !walkingUp && r.1.Unknown? { return InvalidArgument, r.0.user; }

      AdvancePath(q, cells, walkingUp, r.1, start);
      AdvanceGoal(q, cells, walkingUp, w);
      cells := NextCells(q, cells, walkingUp, r.1).0;
      w := r.0;
      if walkingUp {
        if node.next != null {
          node := node.next;
          walkingUp := false;
        } else {
          depth := depth - 1;
          node := node.parent;
        }
      } else if r.1.Continue? && depth != q.maxDepth && node.child != null {
        node := node.child;
        depth := depth + 1;
      } else {
        walkingUp := true;
      }
    }
    result := w.user;
    status := Ok;
  }

  // -- What the recursive meaning visits -----------------------------------------

  datatype Event = Down(at: Placed) | Up(at: Placed)

  /** What a recording traversal is told: the decisions and the filters. */
  datatype Rules = Rules(decide: (Node, nat) -> Decision, mask: set<ObjectType>, maxDepth: nat, permanentOnly: bool)

  function Logger(c: Rules, up: bool): Callback<seq<Event>> {
    (log: seq<Event>, n: Node, depth: nat) =>
      (log + [if up then Up(Placed(n, depth)) else Down(Placed(n, depth))], c.decide(n, depth))
  }

  /** A query whose two callbacks record every call. */
  function Recording(c: Rules): Query<seq<Event>> {
    Query(Some(Logger(c, false)), Some(Logger(c, true)), c.mask, c.maxDepth, c.permanentOnly)
  }

  predicate Matches(c: Rules, n: Node) { n.kind.Some? && n.kind.value in c.mask }

  predicate Passes(c: Rules, n: Node) { !(c.permanentOnly && n.temporary) }

  /** Callbacks are meant for nodes of a wanted type that are not filtered out. */
  predicate Wanted(c: Rules, n: Node) { Matches(c, n) && Passes(c, n) }

  /** Both looks at every node: on the way down, and on the way up after its children. */
  function Tour(f: Forest, d: nat): seq<Event> {
    if f.Nil? then []
    else [Down(Placed(f.node, d))] + Tour(f.kids, d + 1) + [Up(Placed(f.node, d))] + Tour(f.rest, d)
  }

  /** The match flag after a look at `n`. */
  predicate Flag(c: Rules, m: bool, n: Node) { if n.kind.None? then m else Matches(c, n) }

  function FlagAfter(c: Rules, looks: seq<Event>, m: bool): bool {
    if looks == [] then m else FlagAfter(c, looks[1..], Flag(c, m, looks[0].at.node))
  }

  /** The calls made on a sequence of looks: those where the flag is up. */
  function Called(c: Rules, looks: seq<Event>, m: bool): seq<Event> {
    if looks == [] then []
    else
      var m1 := Flag(c, m, looks[0].at.node);
      (if m1 && Passes(c, looks[0].at.node) then [looks[0]] else []) + Called(c, looks[1..], m1)
  }

  lemma {:induction false} CalledConcat(c: Rules, a: seq<Event>, b: seq<Event>, m: bool)
    ensures Called(c, a + b, m) == Called(c, a, m) + Called(c, b, FlagAfter(c, a, m))
    ensures FlagAfter(c, a + b, m) == FlagAfter(c, b, FlagAfter(c, a, m))
  {
    if a == [] {
      assert a + b == b;
    } else {
      hide Flag, Passes;
      var m1 := Flag(c, m, a[0].at.node);
      CalledConcat(c, a[1..], b, m1);
      assert (a + b)[1..] == a[1..] + b;
      Append(if m1 && Passes(c, a[0].at.node) then [a[0]] else [], Called(c, a[1..], m1), Called(c, b, FlagAfter(c, a[1..], m1)));
    }
  }

  /** The part of a forest that is looked at when the flag is `m` at the beginning, and
      the flag at the end. */
  datatype Looked = Looked(forest: Forest, flag: bool)

  function Look(c: Rules, f: Forest, d: nat, m: bool): Looked {
    if f.Nil? then Looked(Nil, m)
    else
      var m1 := Flag(c, m, f.node);
      var kids := if Enters(c, Placed(f.node, d), m1) then Look(c, f.kids, d + 1, m1) else Looked(Nil, m1);
      var rest := Look(c, f.rest, d, Flag(c, kids.flag, f.node));
      Looked(Cons(f.node, kids.forest, rest.forest), rest.flag)
  }

  /** With the flag as it is, the traversal looks below this node. */
  predicate Enters(c: Rules, at: Placed, m: bool) {
    at.depth != c.maxDepth && (m ==> Passes(c, at.node) && c.decide(at.node, at.depth).Continue?)
  }

  lemma Append<T>(x: seq<T>, a: seq<T>, b: seq<T>)
    ensures x + (a + b) == x + a + b
  {}

  lemma VisitCalls(c: Rules, w: Walk<seq<Event>>, n: Node, d: nat, up: bool)
    requires w.stop == Going && c.decide(n, d) in {Continue, NextPeer}
    ensures var (w1, dec) := Visit(Recording(c), w, n, d, up);
      var e := if up then Up(Placed(n, d)) else Down(Placed(n, d));
      && w1 == Walk(Flag(c, w.matches, n), w.user + Called(c, [e], w.matches), Going)
      && !dec.Unknown? && (dec.Continue? && d != c.maxDepth <==> Enters(c, Placed(n, d), w1.matches))
  {
    var e := if up then Up(Placed(n, d)) else Down(Placed(n, d));
    CalledOne(c, e, w.matches);
    hide Called;
    assert Visit(Recording(c), w, n, d, up).0.user == w.user + Called(c, [e], w.matches);
  }

  ghost predicate Traversed(c: Rules, f: Forest, d: nat, w: Walk<seq<Event>>, w': Walk<seq<Event>>) {
    var l := Look(c, f, d, w.matches);
    w' == Walk(l.flag, w.user + Called(c, Tour(l.forest, d), w.matches), Going) && l.flag == FlagAfter(c, Tour(l.forest, d), w.matches)
  }

  lemma CalledOne(c: Rules, e: Event, m: bool)
    ensures FlagAfter(c, [e], m) == Flag(c, m, e.at.node)
    ensures Called(c, [e], m) == if Flag(c, m, e.at.node) && Passes(c, e.at.node) then [e] else []
  {
    assert [e][1..] == [];
  }

  /** Down, the children, up, the siblings. */
  lemma CalledFour(c: Rules, e1: Event, kids: seq<Event>, e2: Event, rest: seq<Event>, m: bool)
    ensures var m1 := Flag(c, m, e1.at.node);
      var m2 := FlagAfter(c, kids, m1);
      var m3 := Flag(c, m2, e2.at.node);
      var all := [e1] + kids + [e2] + rest;
      && Called(c, all, m) == Called(c, [e1], m) + Called(c, kids, m1) + Called(c, [e2], m2) + Called(c, rest, m3)
      && FlagAfter(c, all, m) == FlagAfter(c, rest, m3)
  {
    hide Called, FlagAfter, Flag;
    CalledOne(c, e1, m);
    CalledConcat(c, [e1], kids, m);
    var m2 := FlagAfter(c, kids, Flag(c, m, e1.at.node));
    CalledConcat(c, [e1] + kids, [e2], m);
    CalledOne(c, e2, m2);
    CalledConcat(c, [e1] + kids + [e2], rest, m);
  }

  lemma Glue<T>(x: seq<T>, a: seq<T>, b: seq<T>, c: seq<T>, d: seq<T>)
    ensures x + a + b + c + d == x + (a + b + c + d)
  {}

  lemma TraversedCons(c: Rules, f: Forest, d: nat, w: Walk<seq<Event>>, w2: Walk<seq<Event>>, w4: Walk<seq<Event>>)
    requires f.Cons?
    requires var m1 := Flag(c, w.matches, f.node);
      var w1 := Walk(m1, w.user + Called(c, [Down(Placed(f.node, d))], w.matches), Going);
      var w3 := Walk(Flag(c, w2.matches, f.node), w2.user + Called(c, [Up(Placed(f.node, d))], w2.matches), Going);
      && (if Enters(c, Placed(f.node, d), m1) then Traversed(c, f.kids, d + 1, w1, w2) else w2 == w1)
      && Traversed(c, f.rest, d, w3, w4)
    ensures Traversed(c, f, d, w, w4)
  {
    var m1 := Flag(c, w.matches, f.node);
    var kids := if Enters(c, Placed(f.node, d), m1) then Look(c, f.kids, d + 1, m1) else Looked(Nil, m1);
    var rest := Look(c, f.rest, d, Flag(c, kids.flag, f.node));
    hide Called, FlagAfter, Flag, Enters;
    NoLooks(c, m1);
    var here := Placed(f.node, d);
    var inner, after := Tour(kids.forest, d + 1), Tour(rest.forest, d);
    CalledFour(c, Down(here), inner, Up(here), after, w.matches);
    assert w2.user == w.user + Called(c, [Down(here)], w.matches) + Called(c, inner, m1);
    Glue(w.user, Called(c, [Down(here)], w.matches), Called(c, inner, m1), Called(c, [Up(here)], w2.matches), Called(c, after, Flag(c, w2.matches, f.node)));
  }

  lemma NoLooks(c: Rules, m: bool)
    ensures Called(c, [], m) == [] && FlagAfter(c, [], m) == m
  {}

  /** For every forest, with or without objects, every depth limit, filter and pruning
      callback: the traversal tours the part of the forest it looks at, and calls back
      exactly where the carried flag is up. */
  lemma {:induction false} WalkCalls(c: Rules, f: Forest, d: nat, w: Walk<seq<Event>>)
    requires w.stop == Going && forall n, k :: c.decide(n, k) in {Continue, NextPeer}
    ensures Traversed(c, f, d, w, WalkForest(Recording(c), f, d, w))
    decreases f
  {
    if f.Nil? {
      assert w.user + [] == w.user;
    } else {
      var q := Recording(c);
      VisitCalls(c, w, f.node, d, false);
      var (w1, dec) := Visit(q, w, f.node, d, false);
      var w2 := if Descends(q, dec, d, f.kids) then WalkForest(q, f.kids, d + 1, w1) else w1;
      WalkCalls(c, f.kids, d + 1, w1);
      NothingBelow(c, d + 1, w1);
      VisitCalls(c, w2, f.node, d, true);
      var w3 := Visit(q, w2, f.node, d, true).0;
      WalkCalls(c, f.rest, d, w3);
      hide Visit, Traversed, WalkForest, Called, Flag;
      assert WalkForest(q, f, d, w) == WalkForest(q, f.rest, d, w3) by { WalkCons(q, f, d, w); }
      TraversedCons(c, f, d, w, w2, WalkForest(q, f.rest, d, w3));
    }
  }

  lemma NothingBelow(c: Rules, d: nat, w: Walk<seq<Event>>)
    requires w.stop == Going
    ensures Traversed(c, Nil, d, w, w)
  {
    assert w.user + [] == w.user;
  }

  lemma WalkCons<S>(q: Query<S>, f: Forest, d: nat, w: Walk<S>)
    requires f.Cons? && w.stop == Going
    ensures var (w1, dec) := Visit(q, w, f.node, d, false);
      var w2 := if Descends(q, dec, d, f.kids) then WalkForest(q, f.kids, d + 1, w1) else w1;
      w1.stop == Going && !dec.Unknown? && w2.stop == Going ==>
        WalkForest(q, f, d, w) == WalkForest(q, f.rest, d, Visit(q, w2, f.node, d, true).0)
  {}

  // -- What the traversal is meant to look at -----------------------------------------

  /** The traversal looks below this node. */
  predicate Open(c: Rules, at: Placed) {
    && at.depth != c.maxDepth
    && (Matches(c, at.node) ==> Wanted(c, at.node) && c.decide(at.node, at.depth).Continue?)
  }

  /** The forest with everything below a closed node cut off. */
  function Prune(c: Rules, f: Forest, d: nat): Forest {
    if f.Nil? then Nil
    else Cons(f.node, if Open(c, Placed(f.node, d)) then Prune(c, f.kids, d + 1) else Nil, Prune(c, f.rest, d))
  }

  /** The events of wanted nodes. */
  function Chosen(c: Rules, looks: seq<Event>): seq<Event> {
    if looks == [] then [] else (if Wanted(c, looks[0].at.node) then [looks[0]] else []) + Chosen(c, looks[1..])
  }

  lemma {:induction false} ChosenConcat(c: Rules, a: seq<Event>, b: seq<Event>)
    ensures Chosen(c, a + b) == Chosen(c, a) + Chosen(c, b)
  {
    if a == [] {
      assert a + b == b;
    } else {
      hide Wanted;
      ChosenConcat(c, a[1..], b);
      assert (a + b)[1..] == a[1..] + b;
      Append(if Wanted(c, a[0].at.node) then [a[0]] else [], Chosen(c, a[1..]), Chosen(c, b));
    }
  }

  lemma ChosenOne(c: Rules, e: Event)
    ensures Chosen(c, [e]) == if Wanted(c, e.at.node) then [e] else []
  {
    assert [e][1..] == [];
  }

  lemma ChosenFour(c: Rules, e1: Event, kids: seq<Event>, e2: Event, rest: seq<Event>)
    ensures Chosen(c, [e1] + kids + [e2] + rest) == Chosen(c, [e1]) + Chosen(c, kids) + Chosen(c, [e2]) + Chosen(c, rest)
  {
    hide Chosen;
    ChosenConcat(c, [e1], kids);
    ChosenConcat(c, [e1] + kids, [e2]);
    ChosenConcat(c, [e1] + kids + [e2], rest);
  }

  ghost predicate AllWanted(c: Rules, log: seq<Event>) { forall e :: e in log ==> Wanted(c, e.at.node) }

  lemma {:induction false} ChosenWanted(c: Rules, looks: seq<Event>)
    ensures AllWanted(c, Chosen(c, looks))
  {
    if looks != [] { ChosenWanted(c, looks[1..]); }
  }

  ghost predicate NoneWanted(c: Rules, f: Forest) { forall n :: n in Nodes(f) ==> !Wanted(c, n) }

  lemma {:induction false} NoneChosen(c: Rules, f: Forest, d: nat)
    ensures NoneWanted(c, f) <==> Chosen(c, Tour(f, d)) == []
    decreases f
  {
    if f.Cons? {
      NoneChosen(c, f.kids, d + 1);
      NoneChosen(c, f.rest, d);
      var here := Placed(f.node, d);
      ChosenFour(c, Down(here), Tour(f.kids, d + 1), Up(here), Tour(f.rest, d));
      ChosenOne(c, Down(here));
      ChosenOne(c, Up(here));
      hide Chosen, Wanted;
      assert NoneWanted(c, f) <==> !Wanted(c, f.node) && NoneWanted(c, f.kids) && NoneWanted(c, f.rest);
    }
  }

  // -- When the calls are the wanted ones -------------------------------------------

  /** Look `i` is at a node without an object, and the last look at a node with one
      before it was a match. */
  ghost predicate Carried(c: Rules, looks: seq<Event>, i: nat) {
    i < |looks| && exists j :: 0 <= j < i && Matches(c, looks[j].at.node) && Bare(looks, j + 1, i)
  }

  ghost predicate Bare(looks: seq<Event>, from: nat, to: nat) {
    forall k :: from <= k <= to && k < |looks| ==> looks[k].at.node.kind.None?
  }

  /** The same, look by look, starting from flag `m`. */
  ghost predicate CarriedFrom(c: Rules, looks: seq<Event>, m: bool, i: nat) {
    i < |looks| && (Carried(c, looks, i) || (m && Bare(looks, 0, i)))
  }

  lemma CarriedTail(c: Rules, looks: seq<Event>, m: bool, i: nat)
    requires 0 < i < |looks|
    ensures CarriedFrom(c, looks, m, i) <==> CarriedFrom(c, looks[1..], Flag(c, m, looks[0].at.node), i - 1)
  {
    var tail := looks[1..];
    assert forall from, to :: 0 <= from <= to && Bare(tail, from, to) <==> 0 <= from <= to && Bare(looks, from + 1, to + 1) by {
      forall from, to | 0 <= from <= to ensures Bare(tail, from, to) <==> Bare(looks, from + 1, to + 1) { BareTail(looks, from, to); }
    }
    if Carried(c, looks, i) {
      var j :| 0 <= j < i && Matches(c, looks[j].at.node) && Bare(looks, j + 1, i);
      if j > 0 { assert Matches(c, tail[j-1].at.node) && Bare(tail, j, i - 1); } else { assert Bare(tail, 0, i - 1); }
    }
    if Carried(c, tail, i - 1) {
      var j :| 0 <= j < i - 1 && Matches(c, tail[j].at.node) && Bare(tail, j + 1, i - 1);
      assert Matches(c, looks[j+1].at.node) && Bare(looks, j + 2, i);
    }
    if Bare(tail, 0, i - 1) && Matches(c, looks[0].at.node) { assert Bare(looks, 0 + 1, i); }
  }

  lemma BareTail(looks: seq<Event>, from: nat, to: nat)
    requires looks != [] && from <= to
    ensures Bare(looks[1..], from, to) <==> Bare(looks, from + 1, to + 1)
  {
    var tail := looks[1..];
    if Bare(tail, from, to) {
      forall k | from + 1 <= k <= to + 1 && k < |looks| ensures looks[k].at.node.kind.None? { assert tail[k-1] == looks[k]; }
    }
    if Bare(looks, from + 1, to + 1) {
      forall k | from <= k <= to && k < |tail| ensures tail[k].at.node.kind.None? { assert tail[k] == looks[k+1]; }
    }
  }

  /** For each look, the nodes that the traversal misses if it does not look below the
      node: on the way down, what should be looked at there. */
  function Hidden(c: Rules, f: Forest, d: nat, m: bool): seq<Forest> {
    if f.Nil? then []
    else
      var m1 := Flag(c, m, f.node);
      var enters := Enters(c, Placed(f.node, d), m1);
      var kids := if enters then Look(c, f.kids, d + 1, m1) else Looked(Nil, m1);
      [if d == c.maxDepth then Nil else Prune(c, f.kids, d + 1)] +
      (if enters then Hidden(c, f.kids, d + 1, m1) else []) + [Nil] + Hidden(c, f.rest, d, Flag(c, kids.flag, f.node))
  }

  /** Where the flag is carried to a node without an object, the node is filtered out and
      hides no wanted one. */
  ghost predicate Harmless(c: Rules, looks: seq<Event>, hidden: seq<Forest>, m: bool) {
    && |looks| == |hidden|
    && forall i :: 0 <= i < |looks| && CarriedFrom(c, looks, m, i) ==> !Passes(c, looks[i].at.node) && NoneWanted(c, hidden[i])
  }

  /** The same for one look. */
  ghost predicate HarmlessLook(c: Rules, look: Event, hidden: Forest, m: bool) {
    look.at.node.kind.None? && m ==> !Passes(c, look.at.node) && NoneWanted(c, hidden)
  }

  lemma HarmlessStep(c: Rules, looks: seq<Event>, hidden: seq<Forest>, m: bool)
    requires looks != [] && |looks| == |hidden|
    ensures Harmless(c, looks, hidden, m) <==>
      HarmlessLook(c, looks[0], hidden[0], m) && Harmless(c, looks[1..], hidden[1..], Flag(c, m, looks[0].at.node))
  {
    var tail, m1 := looks[1..], Flag(c, m, looks[0].at.node);
    assert CarriedFrom(c, looks, m, 0) <==> looks[0].at.node.kind.None? && m;
    forall i | 0 < i < |looks| ensures CarriedFrom(c, looks, m, i) <==> CarriedFrom(c, tail, m1, i - 1) { CarriedTail(c, looks, m, i); }
    hide CarriedFrom, Flag, Passes, NoneWanted;
    if Harmless(c, looks, hidden, m) {
      forall i | 0 <= i < |tail| && CarriedFrom(c, tail, m1, i) ensures !Passes(c, tail[i].at.node) && NoneWanted(c, hidden[1..][i]) {
        assert CarriedFrom(c, looks, m, i + 1);
      }
    }
  }

  lemma NothingHarmless(c: Rules, m: bool)
    ensures Harmless(c, [], [], m) && FlagAfter(c, [], m) == m
  {}

  lemma {:induction false} HarmlessConcat(c: Rules, a: seq<Event>, ha: seq<Forest>, b: seq<Event>, hb: seq<Forest>, m: bool)
    requires |a| == |ha| && |b| == |hb|
    ensures Harmless(c, a + b, ha + hb, m) <==> Harmless(c, a, ha, m) && Harmless(c, b, hb, FlagAfter(c, a, m))
    decreases |a|
  {
    hide Harmless, HarmlessLook, Flag;
    if a == [] {
      assert a + b == b && ha == [] && ha + hb == hb;
      NothingHarmless(c, m);
    } else {
      var m1 := Flag(c, m, a[0].at.node);
      var ta, tha := a[1..], ha[1..];
      HarmlessStep(c, a, ha, m);
      HarmlessConcat(c, ta, tha, b, hb, m1);
      assert (a + b)[1..] == ta + b && (ha + hb)[1..] == tha + hb;
      HarmlessStep(c, a + b, ha + hb, m);
    }
  }

  lemma HarmlessOne(c: Rules, e: Event, h: Forest, m: bool)
    ensures Harmless(c, [e], [h], m) <==> HarmlessLook(c, e, h, m)
  {
    HarmlessStep(c, [e], [h], m);
    assert [e][1..] == [] && [h][1..] == [];
  }

  lemma HarmlessFour(c: Rules, e1: Event, h: Forest, kids: seq<Event>, hk: seq<Forest>, e2: Event, rest: seq<Event>, hr: seq<Forest>, m: bool)
    requires |kids| == |hk| && |rest| == |hr|
    ensures var m1 := Flag(c, m, e1.at.node);
      var m2 := FlagAfter(c, kids, m1);
      Harmless(c, [e1] + kids + [e2] + rest, [h] + hk + [Nil] + hr, m) <==>
        && HarmlessLook(c, e1, h, m) && Harmless(c, kids, hk, m1)
        && HarmlessLook(c, e2, Nil, m2) && Harmless(c, rest, hr, Flag(c, m2, e2.at.node))
  {
    hide Harmless, HarmlessLook, Flag, FlagAfter;
    CalledOne(c, e1, m);
    HarmlessOne(c, e1, h, m);
    HarmlessConcat(c, [e1], [h], kids, hk, m);
    CalledConcat(c, [e1], kids, m);
    var m2 := FlagAfter(c, kids, Flag(c, m, e1.at.node));
    HarmlessConcat(c, [e1] + kids, [h] + hk, [e2], [Nil], m);
    HarmlessOne(c, e2, Nil, m2);
    CalledOne(c, e2, m2);
    CalledConcat(c, [e1] + kids, [e2], m);
    HarmlessConcat(c, [e1] + kids + [e2], [h] + hk + [Nil], rest, hr, m);
  }

  /** The calls made on `looks` against the calls wanted on `plan`: they are the same, or
      some call is unwanted, or some wanted call is missing. */
  ghost predicate Compared(c: Rules, looks: seq<Event>, hidden: seq<Forest>, m: bool, plan: seq<Event>) {
    && |looks| == |hidden|
    && (Harmless(c, looks, hidden, m) ==> Called(c, looks, m) == Chosen(c, plan))
    && (!Harmless(c, looks, hidden, m) && AllWanted(c, Called(c, looks, m)) ==> |Called(c, looks, m)| < |Chosen(c, plan)|)
  }

  lemma WantedParts(c: Rules, a: seq<Event>, b: seq<Event>, x: seq<Event>, y: seq<Event>)
    ensures AllWanted(c, a + b + x + y) <==> AllWanted(c, a) && AllWanted(c, b) && AllWanted(c, x) && AllWanted(c, y)
  {
    hide Wanted;
    var s := a + b + x + y;
    assert forall e :: e in s <==> e in a || e in b || e in x || e in y;
  }

  /** A look that is not carried is called exactly if its node is wanted. */
  lemma LookCalled(c: Rules, e: Event, m: bool)
    ensures !(e.at.node.kind.None? && m) ==> Called(c, [e], m) == Chosen(c, [e])
    ensures e.at.node.kind.None? && m ==> Chosen(c, [e]) == [] && Called(c, [e], m) == if Passes(c, e.at.node) then [e] else []
    ensures AllWanted(c, Chosen(c, [e]))
  {
    CalledOne(c, e, m);
    ChosenOne(c, e);
  }

  /** The flag is not carried to the node: it is entered as it should be. */
  lemma ComparedPlain(c: Rules, here: Placed, h: Forest, kids: seq<Event>, hk: seq<Forest>, planned: seq<Event>,
                      rest: seq<Event>, hr: seq<Forest>, after: seq<Event>, m: bool)
    requires !(here.node.kind.None? && m)
    requires Compared(c, kids, hk, Flag(c, m, here.node), planned)
    requires Compared(c, rest, hr, Flag(c, FlagAfter(c, kids, Flag(c, m, here.node)), here.node), after)
    ensures Compared(c, [Down(here)] + kids + [Up(here)] + rest, [h] + hk + [Nil] + hr, m, [Down(here)] + planned + [Up(here)] + after)
  {
    var e1, e2 := Down(here), Up(here);
    var m1 := Flag(c, m, here.node);
    var m2 := FlagAfter(c, kids, m1);
    var m3 := Flag(c, m2, here.node);
    HarmlessFour(c, e1, h, kids, hk, e2, rest, hr, m);
    CalledFour(c, e1, kids, e2, rest, m);
    ChosenFour(c, e1, planned, e2, after);
    LookCalled(c, e1, m);
    LookCalled(c, e2, m2);
    WantedParts(c, Called(c, [e1], m), Called(c, kids, m1), Called(c, [e2], m2), Called(c, rest, m3));
    assert HarmlessLook(c, e1, h, m);
    assert NoneWanted(c, Nil);
    assert HarmlessLook(c, e2, Nil, m2) <==> !(here.node.kind.None? && m2 && Passes(c, here.node));
    if here.node.kind.None? && m2 && Passes(c, here.node) {
      assert e2 in Called(c, [e2], m2) && !Wanted(c, e2.at.node);
      assert !AllWanted(c, Called(c, [e2], m2));
    }
    hide Called, Chosen, Harmless, HarmlessLook, AllWanted, Flag, FlagAfter;
  }

  /** The flag is carried to the node: a call too many, or what is below it is missing. */
  lemma ComparedCarried(c: Rules, here: Placed, h: Forest, kids: seq<Event>, hk: seq<Forest>, planned: seq<Event>,
                        rest: seq<Event>, hr: seq<Forest>, after: seq<Event>, m: bool)
    requires here.node.kind.None? && m && |kids| == |hk|
    requires !Passes(c, here.node) ==> kids == [] && hk == [] && (NoneWanted(c, h) <==> Chosen(c, planned) == [])
    requires Compared(c, rest, hr, Flag(c, FlagAfter(c, kids, m), here.node), after)
    ensures Compared(c, [Down(here)] + kids + [Up(here)] + rest, [h] + hk + [Nil] + hr, m, [Down(here)] + planned + [Up(here)] + after)
  {
    var e1, e2 := Down(here), Up(here);
    var m2 := FlagAfter(c, kids, m);
    var m3 := Flag(c, m2, here.node);
    HarmlessFour(c, e1, h, kids, hk, e2, rest, hr, m);
    CalledFour(c, e1, kids, e2, rest, m);
    ChosenFour(c, e1, planned, e2, after);
    LookCalled(c, e1, m);
    LookCalled(c, e2, m2);
    WantedParts(c, Called(c, [e1], m), Called(c, kids, m), Called(c, [e2], m2), Called(c, rest, m3));
    assert NoneWanted(c, Nil);
    NoLooks(c, m);
    if Passes(c, here.node) {
      assert e1 in Called(c, [e1], m) && !Wanted(c, e1.at.node);
      assert !AllWanted(c, Called(c, [e1], m));
    } else {
      assert Harmless(c, [], [], m);
    }
    hide Called, Chosen, Harmless, AllWanted, Flag, FlagAfter, NoneWanted;
  }

  /** What the traversal calls, against what is wanted in the plainly pruned forest. */
  lemma {:induction false} LookCompared(c: Rules, f: Forest, d: nat, m: bool)
    ensures FlagAfter(c, Tour(Look(c, f, d, m).forest, d), m) == Look(c, f, d, m).flag
    ensures Compared(c, Tour(Look(c, f, d, m).forest, d), Hidden(c, f, d, m), m, Tour(Prune(c, f, d), d))
    decreases f
  {
    if f.Cons? {
      var here, m1 := Placed(f.node, d), Flag(c, m, f.node);
      var enters := Enters(c, here, m1);
      var kids := if enters then Look(c, f.kids, d + 1, m1) else Looked(Nil, m1);
      var m3 := Flag(c, kids.flag, f.node);
      var rest := Look(c, f.rest, d, m3);
      var inner, after := Tour(kids.forest, d + 1), Tour(rest.forest, d);
      var hk := if enters then Hidden(c, f.kids, d + 1, m1) else [];
      var h := if d == c.maxDepth then Nil else Prune(c, f.kids, d + 1);
      var planned := Tour(if Open(c, here) then Prune(c, f.kids, d + 1) else Nil, d + 1);
      if enters { LookCompared(c, f.kids, d + 1, m1); } else { NoLooks(c, m1); }
      LookCompared(c, f.rest, d, m3);
      CalledFour(c, Down(here), inner, Up(here), after, m);
      if f.node.kind.None? && m {
        NoneChosen(c, h, d + 1);
        assert Open(c, here) <==> d != c.maxDepth;
        assert !Passes(c, f.node) ==> !enters;
        ComparedCarried(c, here, h, inner, hk, planned, after, Hidden(c, f.rest, d, m3), Tour(Prune(c, f.rest, d), d), m);
      } else {
        assert enters <==> Open(c, here);
        assert !enters ==> Compared(c, [], [], m1, []);
        ComparedPlain(c, here, h, inner, hk, planned, after, Hidden(c, f.rest, d, m3), Tour(Prune(c, f.rest, d), d), m);
      }
      hide Compared, Flag, FlagAfter, Enters, Open;
    }
  }

  /** The exact condition on a forest: every node without an object that is looked at
      after a match, with only such nodes in between, is filtered out as temporary, and
      the looks on the way down that reach it so hide no wanted node below it. */
  ghost predicate Unspoilt(c: Rules, f: Forest) {
    var looks, hidden := Tour(Look(c, f, 1, false).forest, 1), Hidden(c, f, 1, false);
    && |looks| == |hidden|
    && forall i :: 0 <= i < |looks| && Carried(c, looks, i) ==> !Passes(c, looks[i].at.node) && NoneWanted(c, hidden[i])
  }

  /** The log of a traversal from the first level on. */
  function Log(c: Rules, f: Forest): seq<Event> { WalkForest(Recording(c), f, 1, Walk(false, [], Going)).user }

  lemma LogCompared(c: Rules, f: Forest)
    requires forall n, k :: c.decide(n, k) in {Continue, NextPeer}
    ensures var wanted := Chosen(c, Tour(Prune(c, f, 1), 1));
      && (Unspoilt(c, f) ==> Log(c, f) == wanted)
      && (!Unspoilt(c, f) && AllWanted(c, Log(c, f)) ==> |Log(c, f)| < |wanted|)
  {
    WalkCalls(c, f, 1, Walk(false, [], Going));
    LookCompared(c, f, 1, false);
    var looks := Tour(Look(c, f, 1, false).forest, 1);
    assert [] + Called(c, looks, false) == Called(c, looks, false);
    assert forall i :: CarriedFrom(c, looks, false, i) <==> Carried(c, looks, i);
    hide Called, Chosen, Look, Tour, Prune, Hidden, Carried, CarriedFrom;
  }

  /** The calls of a traversal are exactly the two looks at every wanted node of the
      forest that should be looked at if and only if the forest is unspoilt. */
  lemma CallsWantedIff(c: Rules, f: Forest)
    requires forall n, k :: c.decide(n, k) in {Continue, NextPeer}
    ensures Log(c, f) == Chosen(c, Tour(Prune(c, f, 1), 1)) <==> Unspoilt(c, f)
  {
    LogCompared(c, f);
    ChosenWanted(c, Tour(Prune(c, f, 1), 1));
  }

  /** Two siblings, the first of the wanted type, the second without an object: the
      second gets a call in each direction although it is not wanted. */
  lemma BareNodeIsCalled(c: Rules, a: Node, b: Node)
    requires Wanted(c, a) && b.kind.None? && Passes(c, b)
    requires forall n, k :: c.decide(n, k) in {Continue, NextPeer}
    ensures Log(c, Cons(a, Nil, Cons(b, Nil, Nil))) == [Down(Placed(a, 1)), Up(Placed(a, 1)), Down(Placed(b, 1)), Up(Placed(b, 1))]
    ensures !Wanted(c, b)
  {
    var f := Cons(a, Nil, Cons(b, Nil, Nil));
    WalkCalls(c, f, 1, Walk(false, [], Going));
    var da, ua, db, ub := Down(Placed(a, 1)), Up(Placed(a, 1)), Down(Placed(b, 1)), Up(Placed(b, 1));
    var g := Cons(b, Nil, Nil);
    assert Look(c, g, 1, true) == Looked(g, true);
    assert Look(c, f, 1, false) == Looked(f, true);
    assert Tour(g, 1) == [db] + [] + [ub] + [];
    assert Tour(f, 1) == [da] + [] + [ua] + Tour(g, 1);
    CalledFour(c, da, [], ua, Tour(g, 1), false);
    CalledFour(c, db, [], ub, [], true);
    CalledOne(c, da, false);
    CalledOne(c, ua, true);
    CalledOne(c, db, true);
    CalledOne(c, ub, true);
  }

  /** Two siblings, the first wanted, the second temporary and without an object: a
      wanted child of the second gets no call although it should be looked at. */
  lemma BareNodeHides(c: Rules, a: Node, b: Node, x: Node)
    requires Wanted(c, a) && Wanted(c, x) && b.kind.None? && !Passes(c, b) && c.maxDepth > 1
    requires forall n, k :: c.decide(n, k) in {Continue, NextPeer}
    ensures var f := Cons(a, Nil, Cons(b, Cons(x, Nil, Nil), Nil));
      Log(c, f) == [Down(Placed(a, 1)), Up(Placed(a, 1))] && Placed(x, 2) in Pre(Prune(c, f, 1), 1)
  {
    var kid := Cons(x, Nil, Nil);
    var g := Cons(b, kid, Nil);
    var f := Cons(a, Nil, g);
    WalkCalls(c, f, 1, Walk(false, [], Going));
    var da, ua, db, ub := Down(Placed(a, 1)), Up(Placed(a, 1)), Down(Placed(b, 1)), Up(Placed(b, 1));
    var seen := Cons(b, Nil, Nil);
    assert Look(c, g, 1, true) == Looked(seen, true);
    assert Look(c, f, 1, false) == Looked(Cons(a, Nil, seen), true);
    assert Tour(seen, 1) == [db] + [] + [ub] + [];
    assert Tour(Cons(a, Nil, seen), 1) == [da] + [] + [ua] + Tour(seen, 1);
    CalledFour(c, da, [], ua, Tour(seen, 1), false);
    CalledFour(c, db, [], ub, [], true);
    CalledOne(c, da, false);
    CalledOne(c, ua, true);
    CalledOne(c, db, true);
    CalledOne(c, ub, true);
    assert Prune(c, kid, 2) == kid && Prune(c, g, 1) == g;
    assert Pre(kid, 2) == [Placed(x, 2)] && Placed(x, 2) in Pre(g, 1);
  }

  // -- Preorder and postorder -----------------------------------------------------------

  function Keep(c: Rules, s: seq<Placed>): seq<Placed> {
    if s == [] then [] else (if Wanted(c, s[0].node) then [s[0]] else []) + Keep(c, s[1..])
  }

  function Downs(log: seq<Event>): seq<Placed> {
    if log == [] then [] else (if log[0].Down? then [log[0].at] else []) + Downs(log[1..])
  }

  function Ups(log: seq<Event>): seq<Placed> {
    if log == [] then [] else (if log[0].Up? then [log[0].at] else []) + Ups(log[1..])
  }

  lemma {:induction false} KeepConcat(c: Rules, a: seq<Placed>, b: seq<Placed>)
    ensures Keep(c, a + b) == Keep(c, a) + Keep(c, b)
  {
    if a == [] {
      assert a + b == b;
    } else {
      KeepConcat(c, a[1..], b);
      hide Wanted;
      var first := if Wanted(c, a[0].node) then [a[0]] else [];
      assert (a + b)[0] == a[0] && (a + b)[1..] == a[1..] + b;
      assert Keep(c, a) == first + Keep(c, a[1..]);
      Append(first, Keep(c, a[1..]), Keep(c, b));
    }
  }

  lemma {:induction false} DownsConcat(a: seq<Event>, b: seq<Event>)
    ensures Downs(a + b) == Downs(a) + Downs(b) && Ups(a + b) == Ups(a) + Ups(b)
  {
    if a == [] {
      assert a + b == b;
    } else {
      DownsConcat(a[1..], b);
      assert (a + b)[0] == a[0] && (a + b)[1..] == a[1..] + b;
      Append(if a[0].Down? then [a[0].at] else [], Downs(a[1..]), Downs(b));
      Append(if a[0].Up? then [a[0].at] else [], Ups(a[1..]), Ups(b));
    }
  }

  /** The looks on the way down are in preorder, those on the way up in postorder. */
  lemma {:induction false} TourOrders(f: Forest, d: nat)
    ensures Downs(Tour(f, d)) == Pre(f, d) && Ups(Tour(f, d)) == Post(f, d)
  {
    if f.Cons? {
      TourOrders(f.kids, d + 1);
      TourOrders(f.rest, d);
      var here := Placed(f.node, d);
      var kids, rest := Tour(f.kids, d + 1), Tour(f.rest, d);
      OneLook(here);
      DownsConcat([Down(here)], kids);
      DownsConcat([Down(here)] + kids, [Up(here)]);
      DownsConcat([Down(here)] + kids + [Up(here)], rest);
      hide Downs, Ups;
    }
  }

  lemma OneLook(at: Placed)
    ensures Downs([Down(at)]) == [at] && Ups([Down(at)]) == [] && Downs([Up(at)]) == [] && Ups([Up(at)]) == [at]
  {
    assert [Down(at)][1..] == [] && [Up(at)][1..] == [];
  }

  lemma {:induction false} ChosenKeeps(c: Rules, looks: seq<Event>)
    ensures Downs(Chosen(c, looks)) == Keep(c, Downs(looks)) && Ups(Chosen(c, looks)) == Keep(c, Ups(looks))
  {
    if looks != [] {
      ChosenKeeps(c, looks[1..]);
      hide Wanted;
      var e := looks[0];
      OneLook(e.at);
      var first := if Wanted(c, e.at.node) then [e] else [];
      DownsConcat(first, Chosen(c, looks[1..]));
      KeepOne(c, e.at);
      KeepConcat(c, Downs([e]), Downs(looks[1..]));
      KeepConcat(c, Ups([e]), Ups(looks[1..]));
      DownsConcat([e], looks[1..]);
      assert [e] + looks[1..] == looks;
    }
  }

  lemma KeepOne(c: Rules, at: Placed)
    ensures Keep(c, [at]) == if Wanted(c, at.node) then [at] else []
    ensures Keep(c, []) == []
  {
    assert [at][1..] == [];
  }

  ghost predicate Recorded(c: Rules, f: Forest, d: nat, log: seq<Event>) {
    Downs(log) == Keep(c, Pre(f, d)) && Ups(log) == Keep(c, Post(f, d))
  }

  lemma {:induction false} SplitLog(log: seq<Event>)
    ensures |log| == |Downs(log)| + |Ups(log)|
    ensures forall e :: e in log ==> e.at in Downs(log) || e.at in Ups(log)
  {
    if log != [] { SplitLog(log[1..]); }
  }

  /** `t` has exactly the wanted entries of `s`. */
  ghost predicate WantedOf(c: Rules, s: seq<Placed>, t: seq<Placed>) {
    && (forall i :: 0 <= i < |t| ==> t[i] in s && Wanted(c, t[i].node))
    && (forall i :: 0 <= i < |s| && Wanted(c, s[i].node) ==> s[i] in t)
  }

  lemma {:induction false} KeepWanted(c: Rules, s: seq<Placed>)
    ensures WantedOf(c, s, Keep(c, s))
  {
    if s != [] {
      KeepWanted(c, s[1..]);
      hide Wanted;
      assert Keep(c, s) == (if Wanted(c, s[0].node) then [s[0]] else []) + Keep(c, s[1..]);
    }
  }

  /** The wanted events, split into the two directions. */
  lemma ChosenOrders(c: Rules, f: Forest)
    ensures var wanted, g := Chosen(c, Tour(Prune(c, f, 1), 1)), Prune(c, f, 1);
      Recorded(c, g, 1, wanted) && |wanted| == |Keep(c, Pre(g, 1))| + |Keep(c, Post(g, 1))|
  {
    TourOrders(Prune(c, f, 1), 1);
    ChosenKeeps(c, Tour(Prune(c, f, 1), 1));
    SplitLog(Chosen(c, Tour(Prune(c, f, 1), 1)));
  }

  /** The descending callback is called in preorder and the ascending one in postorder,
      on exactly the wanted nodes of the pruned forest, each with its depth, if and only
      if the forest is unspoilt. */
  lemma PreAndPostorderIff(c: Rules, f: Forest)
    requires forall n, k :: c.decide(n, k) in {Continue, NextPeer}
    ensures Recorded(c, Prune(c, f, 1), 1, Log(c, f)) <==> Unspoilt(c, f)
  {
    LogCompared(c, f);
    ChosenOrders(c, f);
    if Recorded(c, Prune(c, f, 1), 1, Log(c, f)) {
      SplitLog(Log(c, f));
      KeepWanted(c, Pre(Prune(c, f, 1), 1));
      KeepWanted(c, Post(Prune(c, f, 1), 1));
      assert AllWanted(c, Log(c, f));
    }
  }

  // -- Breaking off -----------------------------------------------------------------------

  /** The same rules, except that no decision ends the traversal. */
  function Unbroken(c: Rules): Rules {
    c.(decide := (n: Node, d: nat) => if c.decide(n, d).NextPeer? then NextPeer else Continue)
  }

  lemma VisitUnbroken(c: Rules, w: Walk<seq<Event>>, n: Node, d: nat, up: bool)
    requires w.stop == Going
    ensures var (w1, d1) := Visit(Recording(c), w, n, d, up);
      var (w2, d2) := Visit(Recording(Unbroken(c)), w, n, d, up);
      && w1.user == w2.user && w1.matches == w2.matches && w2.stop == Going && !d2.Unknown? && !d2.Break?
      && (w1.stop == Going ==> w1 == w2) && (w1.stop == Going && !d1.Unknown? ==> d1 == d2)
      && w.user <= w1.user
  {}

  lemma {:induction false} LogGrows(c: Rules, f: Forest, d: nat, w: Walk<seq<Event>>)
    requires w.stop == Going
    ensures var w' := WalkForest(Recording(Unbroken(c)), f, d, w); w'.stop == Going && w.user <= w'.user
    decreases f
  {
    if f.Cons? {
      var q := Recording(Unbroken(c));
      VisitUnbroken(c, w, f.node, d, false);
      var (w1, dec) := Visit(q, w, f.node, d, false);
      LogGrows(c, f.kids, d + 1, w1);
      var w2 := if Descends(q, dec, d, f.kids) then WalkForest(q, f.kids, d + 1, w1) else w1;
      VisitUnbroken(c, w2, f.node, d, true);
      LogGrows(c, f.rest, d, Visit(q, w2, f.node, d, true).0);
      hide Visit;
    }
  }

  /** A traversal that is broken off, or rejected for an unknown decision, has made a
      prefix of the calls it would have made otherwise. */
  lemma {:induction false} BrokenIsPrefix(c: Rules, f: Forest, d: nat, w: Walk<seq<Event>>)
    requires w.stop == Going
    ensures var w1, w2 := WalkForest(Recording(c), f, d, w), WalkForest(Recording(Unbroken(c)), f, d, w);
      w1.user <= w2.user && (w1.stop == Going ==> w1 == w2)
    decreases f
  {
    if f.Cons? {
      var q, u := Recording(c), Recording(Unbroken(c));
      VisitUnbroken(c, w, f.node, d, false);
      var (a1, d1) := Visit(q, w, f.node, d, false);
      var (b1, d2) := Visit(u, w, f.node, d, false);
      LogGrows(c, f.kids, d + 1, b1);
      var b2 := if Descends(u, d2, d, f.kids) then WalkForest(u, f.kids, d + 1, b1) else b1;
      VisitUnbroken(c, b2, f.node, d, true);
      var b3 := Visit(u, b2, f.node, d, true).0;
      LogGrows(c, f.rest, d, b3);
      BrokenIsPrefix(c, f.kids, d + 1, b1);
      BrokenIsPrefix(c, f.rest, d, b3);
      hide Visit, Recording, Unbroken;
    }
  }

  lemma {:induction false} PruneIsSubforest(c: Rules, f: Forest, d: nat)
    ensures Nodes(Prune(c, f, d)) <= Nodes(f)
    ensures Distinct(f) ==> Distinct(Prune(c, f, d))
  {
    if f.Cons? {
      PruneIsSubforest(c, f.kids, d + 1);
      PruneIsSubforest(c, f.rest, d);
    }
  }

  /** The first two thirds of a pruned cons, membership by membership. */
  lemma PrunedMembers(c: Rules, f: Forest, d: nat, at: Placed)
    requires f.Cons? && Distinct(f)
    ensures at.node == f.node ==> (at in Pre(Prune(c, f, d), d) <==> at.depth == d)
    ensures at.node in Nodes(f.kids) ==>
      (at in Pre(Prune(c, f, d), d) <==> Open(c, Placed(f.node, d)) && at in Pre(Prune(c, f.kids, d + 1), d + 1))
    ensures at.node in Nodes(f.rest) ==> (at in Pre(Prune(c, f, d), d) <==> at in Pre(Prune(c, f.rest, d), d))
  {
    PruneIsSubforest(c, f.kids, d + 1);
    PruneIsSubforest(c, f.rest, d);
    PreMembers(Prune(c, f.kids, d + 1), d + 1);
    PreMembers(Prune(c, f.rest, d), d);
    var kept := if Open(c, Placed(f.node, d)) then Prune(c, f.kids, d + 1) else Nil;
    assert Pre(Prune(c, f, d), d) == [Placed(f.node, d)] + Pre(kept, d + 1) + Pre(Prune(c, f.rest, d), d);
  }

  /** The parent of a placed node survives pruning and is open. */
  ghost predicate ParentOpen(c: Rules, f: Forest, d: nat, at: Placed)
    reads at.node
  {
    && at.depth > d && at.node.parent != null
    && Placed(at.node.parent, at.depth - 1) in Pre(Prune(c, f, d), d)
    && Open(c, Placed(at.node.parent, at.depth - 1))
  }

  lemma PrunedBelow(c: Rules, f: Forest, d: nat, at: Placed)
    requires f.Cons? && Distinct(f) && Linked(f.kids, f.node) && at in Pre(f.kids, d + 1)
    requires at in Pre(Prune(c, f.kids, d + 1), d + 1) <==> at.depth == d + 1 || ParentOpen(c, f.kids, d + 1, at)
    ensures at in Pre(Prune(c, f, d), d) <==> ParentOpen(c, f, d, at)
  {
    DepthCountsParents(f.kids, d + 1, f.node, at);
    PrunedMembers(c, f, d, at);
    var up := Placed(at.node.parent, at.depth - 1);
    if up.depth > d { DepthCountsParents(f.kids, d + 1, f.node, up); }
    PrunedMembers(c, f, d, up);
  }

  lemma PrunedBeside(c: Rules, f: Forest, d: nat, parent: Node?, at: Placed)
    requires f.Cons? && Distinct(f) && Linked(f.rest, parent) && at in Pre(f.rest, d)
    requires at in Pre(Prune(c, f.rest, d), d) <==> at.depth == d || ParentOpen(c, f.rest, d, at)
    ensures at in Pre(Prune(c, f, d), d) <==> at.depth == d || ParentOpen(c, f, d, at)
  {
    DepthCountsParents(f.rest, d, parent, at);
    PrunedMembers(c, f, d, at);
    if at.depth > d {
      var up := Placed(at.node.parent, at.depth - 1);
      DepthCountsParents(f.rest, d, parent, up);
      PrunedMembers(c, f, d, up);
    }
  }

  /** A node survives pruning exactly when it is a root or its parent survives and
      is open: nothing is skipped and nothing below a closed node is looked at. */
  lemma {:induction false} PrunedExactly(c: Rules, f: Forest, d: nat, parent: Node?, at: Placed)
    requires Distinct(f) && Linked(f, parent) && at in Pre(f, d)
    ensures at in Pre(Prune(c, f, d), d) <==> at.depth == d || ParentOpen(c, f, d, at)
    decreases f
  {
    PreCons(f, d, at);
    if at in Pre(f.kids, d + 1) {
      PrunedExactly(c, f.kids, d + 1, f.node, at);
      PrunedBelow(c, f, d, at);
      DepthCountsParents(f.kids, d + 1, f.node, at);
    } else if at in Pre(f.rest, d) {
      PrunedExactly(c, f.rest, d, parent, at);
      PrunedBeside(c, f, d, parent, at);
    } else {
      PrunedMembers(c, f, d, at);
    }
  }

  lemma {:induction false} KeepOnce(c: Rules, s: seq<Placed>)
    requires NodesOnce(s)
    ensures NodesOnce(Keep(c, s))
  {
    if s != [] {
      KeepOnce(c, s[1..]);
      KeepWanted(c, s[1..]);
    }
  }

  /** A list without repetition is no longer than a list with the same entries. */
  lemma {:induction false} OnceIsShort(s: seq<Placed>, t: seq<Placed>)
    requires NodesOnce(s) && Within(s, t)
    ensures |s| <= |t|
  {
    if s != [] {
      assert s[0] in t;
      var i :| 0 <= i < |t| && t[i] == s[0];
      var t' := t[..i] + t[i+1..];
      forall k | 0 <= k < |s[1..]| ensures s[1..][k] in t' {
        assert s[k+1] in t;
        var j :| 0 <= j < |t| && t[j] == s[k+1];
        assert j < i ==> t'[j] == s[k+1];
        assert j > i ==> t'[j-1] == s[k+1];
      }
      OnceIsShort(s[1..], t');
    }
  }

  /** The nodes called in one direction: none twice, and exactly the wanted ones of `f`. */
  ghost predicate OncePerWanted(c: Rules, f: Forest, called: seq<Placed>) {
    NodesOnce(called) && WantedOf(c, Pre(f, 1), called)
  }

  ghost predicate ExactlyOnce(c: Rules, f: Forest, log: seq<Event>) {
    OncePerWanted(c, f, Downs(log)) && OncePerWanted(c, f, Ups(log))
  }

  lemma KeptOnce(c: Rules, f: Forest, s: seq<Placed>)
    requires NodesOnce(s) && Within(s, Pre(f, 1)) && Within(Pre(f, 1), s)
    ensures OncePerWanted(c, f, Keep(c, s))
  {
    hide Keep, Pre, Wanted;
    KeepOnce(c, s);
    KeepWanted(c, s);
    var kept, all := Keep(c, s), Pre(f, 1);
    forall i | 0 <= i < |kept| ensures kept[i] in all && Wanted(c, kept[i].node) {
      var j :| 0 <= j < |s| && s[j] == kept[i];
    }
    forall i | 0 <= i < |all| && Wanted(c, all[i].node) ensures all[i] in kept {
      var j :| 0 <= j < |s| && s[j] == all[i];
    }
  }

  lemma SameLength(c: Rules, f: Forest, s: seq<Placed>, t: seq<Placed>)
    requires OncePerWanted(c, f, s) && OncePerWanted(c, f, t)
    ensures |s| <= |t|
  {
    hide Pre, Wanted;
    var all := Pre(f, 1);
    forall i | 0 <= i < |s| ensures s[i] in t { var j :| 0 <= j < |all| && all[j] == s[i]; }
    OnceIsShort(s, t);
  }

  lemma BothOnce(c: Rules, f: Forest)
    requires Distinct(f)
    ensures OncePerWanted(c, f, Keep(c, Pre(f, 1))) && OncePerWanted(c, f, Keep(c, Post(f, 1)))
  {
    hide Pre, Post, OncePerWanted, NodesOnce, Keep;
    PreOnce(f, 1);
    PostOnce(f, 1);
    PostMembers(f, 1);
    KeptOnce(c, f, Pre(f, 1));
    KeptOnce(c, f, Post(f, 1));
  }

  /** A log with each wanted node once has as many events as wanted ones are there. */
  lemma OnceIsComplete(c: Rules, f: Forest, log: seq<Event>)
    requires Distinct(f) && ExactlyOnce(c, f, log)
    ensures AllWanted(c, log) && |log| >= |Keep(c, Pre(f, 1))| + |Keep(c, Post(f, 1))|
  {
    BothOnce(c, f);
    SplitLog(log);
    assert AllWanted(c, log) by { assert WantedOf(c, Pre(f, 1), Downs(log)) && WantedOf(c, Pre(f, 1), Ups(log)); }
    SameLength(c, f, Keep(c, Pre(f, 1)), Downs(log));
    SameLength(c, f, Keep(c, Post(f, 1)), Ups(log));
  }

  /** Each wanted node that survives pruning gets its descending and its ascending call
      exactly once, and no other node gets any, if and only if the forest is unspoilt. */
  lemma CalledOnceIff(c: Rules, f: Forest)
    requires Distinct(f) && forall n, k :: c.decide(n, k) in {Continue, NextPeer}
    ensures ExactlyOnce(c, Prune(c, f, 1), Log(c, f)) <==> Unspoilt(c, f)
  {
    hide Log, Unspoilt, OncePerWanted, Prune, Keep, Pre, Post, Chosen;
    var g := Prune(c, f, 1);
    PruneIsSubforest(c, f, 1);
    LogCompared(c, f);
    ChosenOrders(c, f);
    BothOnce(c, g);
    if ExactlyOnce(c, g, Log(c, f)) { OnceIsComplete(c, g, Log(c, f)); }
  }
}
