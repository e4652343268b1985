/**
 Taking the namespace down: a pointer walk that descends to the last child of
 every scope and then uninstalls the scope's children one by one.
 */
module NamespaceTeardown {
  import opened Common
  import opened Namespace

  datatype Status = Ok | Denied | InternalError

  // -- Forest surgery -------------------------------------------------------------

  function Tops(f: Forest): seq<Node> { if f.Nil? then [] else [f.node] + Tops(f.rest) }

  function Remove(f: Forest, n: Node): Forest {
    if f.Nil? then Nil
    else if f.node == n then f.rest
    else Cons(f.node, f.kids, Remove(f.rest, n))
  }

  /** A list of childless siblings followed by `f`. */
  function Attach(leaves: seq<Node>, f: Forest): Forest {
    if leaves == [] then f else Cons(leaves[0], Nil, Attach(leaves[1..], f))
  }

  // -- Links as a value -----------------------------------------------------------

  datatype Links = Links(parent: Node?, child: Node?, next: Node?)

  /** The links of a set of nodes at one moment. */
  ghost function Snap(nodes: set<Node>): map<Node, Links>
    reads nodes
  {
    map x | x in nodes :: Links(x.parent, x.child, x.next)
  }

  ghost function Dangling(nodes: set<Node>): set<Node>
    reads nodes
  {
    set n | n in nodes && n.dangling
  }

  ghost predicate LinkedIn(f: Forest, parent: Node?, m: map<Node, Links>) {
    f.Cons? ==>
      && f.node in m && m[f.node] == Links(parent, First(f.kids), First(f.rest))
      && LinkedIn(f.kids, f.node, m)
      && LinkedIn(f.rest, parent, m)
  }

  lemma {:induction false} LinkedAsValue(f: Forest, parent: Node?, nodes: set<Node>)
    requires Nodes(f) <= nodes
    ensures Linked(f, parent) <==> LinkedIn(f, parent, Snap(nodes))
  {
    if f.Cons? {
      LinkedAsValue(f.kids, f.node, nodes);
      LinkedAsValue(f.rest, parent, nodes);
    }
  }

  lemma {:induction false} TopsInNodes(f: Forest)
    ensures forall n :: n in Tops(f) ==> n in Nodes(f)
  {
    if f.Cons? { TopsInNodes(f.rest); }
  }

  /** Links that agree on a forest's nodes agree about the forest. */
  lemma {:induction false} SameLinks(f: Forest, parent: Node?, m: map<Node, Links>, m': map<Node, Links>)
    requires LinkedIn(f, parent, m)
    requires forall x :: x in Nodes(f) && x in m ==> x in m' && m'[x] == m[x]
    ensures LinkedIn(f, parent, m')
  {
    if f.Cons? {
      SameLinks(f.kids, f.node, m, m');
      SameLinks(f.rest, parent, m, m');
    }
  }

  /** A next link stays inside the forest and never leads to its first node. */
  lemma {:induction false} NextStaysInside(f: Forest, parent: Node?, m: map<Node, Links>)
    requires LinkedIn(f, parent, m) && Distinct(f)
    ensures forall x :: x in Nodes(f) ==>
      x in m && (m[x].next != null ==> m[x].next in Nodes(f) && m[x].next != f.node)
  {
    if f.Cons? {
      NextStaysInside(f.kids, f.node, m);
      NextStaysInside(f.rest, parent, m);
    }
  }

  /** Redirecting the predecessor of `n` past it. */
  ghost predicate Bypassed(f: Forest, n: Node, m: map<Node, Links>, m': map<Node, Links>) {
    n in m && forall x :: x in Nodes(f) && x != n ==>
      x in m && x in m' && m'[x] == m[x].(next := if m[x].next == n then m[n].next else m[x].next)
  }

  lemma BypassedElsewhere(f: Forest, parent: Node?, n: Node, m: map<Node, Links>, m': map<Node, Links>)
    requires LinkedIn(f, parent, m) && Distinct(f) && n !in Nodes(f) && Bypassed(f, n, m, m')
    ensures LinkedIn(f, parent, m')
  {
    NextStaysInside(f, parent, m);
    SameLinks(f, parent, m, m');
  }

  /** Unlinking a node that is not the first removes it from the forest. */
  lemma {:induction false} RemoveLinked(f: Forest, parent: Node?, n: Node, m: map<Node, Links>, m': map<Node, Links>)
    requires LinkedIn(f, parent, m) && Distinct(f) && n in Tops(f) && n != f.node && Bypassed(f, n, m, m')
    ensures LinkedIn(Remove(f, n), parent, m')
    decreases f
  {
    TopsInNodes(f.rest);
    BypassedElsewhere(f.kids, f.node, n, m, m');
    if f.rest.node == n {
      BypassedElsewhere(f.rest.rest, parent, n, m, m');
    } else {
      RemoveLinked(f.rest, parent, n, m, m');
    }
  }

  /** Only one node of a forest of distinct nodes has `n` as its next sibling. */
  lemma {:induction false} PredecessorIsUnique(f: Forest, parent: Node?, m: map<Node, Links>, x: Node, y: Node)
    requires LinkedIn(f, parent, m) && Distinct(f)
    requires x in Nodes(f) && y in Nodes(f) && x in m && y in m && m[x].next == m[y].next != null
    ensures x == y
    decreases f
  {
    NextStaysInside(f.kids, f.node, m);
    NextStaysInside(f.rest, parent, m);
    if x in Nodes(f.kids) && y in Nodes(f.kids) {
      PredecessorIsUnique(f.kids, f.node, m, x, y);
    } else if x in Nodes(f.rest) && y in Nodes(f.rest) {
      PredecessorIsUnique(f.rest, parent, m, x, y);
    }
  }

  // -- Uninstalling one node --------------------------------------------------------

  /** The sibling just before `node`, searched for along the next links. */
  method FindPrevious(node: Node, first: Node, ghost sibs: Forest, ghost parent: Node?) returns (prev: Node?)
    requires first == First(sibs) && Linked(sibs, parent) && first != node
    ensures prev == null <==> node !in Tops(sibs)
    ensures prev != null ==> prev in Nodes(sibs) && prev.next == node
  {
    prev := first;
    ghost var cell := sibs;
    while prev != null && prev.next != node
      invariant prev == First(cell) && Linked(cell, parent)
      invariant Nodes(cell) <= Nodes(sibs)
      invariant node in Tops(sibs) <==> node in Tops(cell)
      invariant cell.Cons? ==> cell.node != node
      decreases cell
    {
      prev := prev.next;
      cell := cell.rest;
    }
    if prev != null { assert node == cell.rest.node; }
  }

  lemma BypassMakesRemoved(node: Node, prev: Node, sibs: Forest, parent: Node, m: map<Node, Links>, m': map<Node, Links>)
    requires LinkedIn(sibs, parent, m) && Distinct(sibs) && node in Tops(sibs) && node != sibs.node
    requires prev in Nodes(sibs) && prev in m && m[prev].next == node && node in m
    requires m' == m[prev := m[prev].(next := m[node].next)]
    ensures LinkedIn(Remove(sibs, node), parent, m')
  {
    NextStaysInside(sibs, parent, m);
    forall x | x in Nodes(sibs) && x != node
      ensures m'[x] == m[x].(next := if m[x].next == node then m[node].next else m[x].next)
    {
      if m[x].next == node { PredecessorIsUnique(sibs, parent, m, x, prev); }
    }
    RemoveLinked(sibs, parent, node, m, m');
  }

  /** The links after the first child `node` of `parent` has been unlinked. */
  ghost function DropFirst(m: map<Node, Links>, node: Node, parent: Node): map<Node, Links>
    requires node in m && parent in m
  {
    m[parent := m[parent].(child := m[node].next)]
  }

  /** Unlink `node` from its parent's child list. */
  method Unlink(node: Node, parent: Node, ghost sibs: Forest, ghost all: set<Node>) returns (found: bool)
    requires node in all && parent in all && Nodes(sibs) <= all && node.parent == parent
    requires parent.child == First(sibs) && Linked(sibs, parent) && Distinct(sibs) && parent !in Nodes(sibs)
    modifies parent`child, all`next
    ensures found <==> node in Tops(sibs)
    ensures !found ==> Snap(all) == old(Snap(all))
    ensures found ==> LinkedIn(Remove(sibs, node), parent, Snap(all))
    ensures found && sibs.node == node ==> Snap(all) == DropFirst(old(Snap(all)), node, parent)
  {
    if parent.child == null { return false; }
    LinkedAsValue(sibs, parent, all);
    ghost var before := Snap(all);
    if parent.child == node {
      parent.child := node.next;
      assert Snap(all) == DropFirst(before, node, parent);
      SameLinks(sibs.rest, parent, before, Snap(all));
      return true;
    }
    var prev := FindPrevious(node, parent.child, sibs, parent);
    if prev == null { return false; }
    TopsInNodes(sibs);
    prev.next := node.next;
    assert Snap(all) == before[prev := before[prev].(next := node.next)];
    BypassMakesRemoved(node, prev, sibs, parent, before, Snap(all));
    return true;
  }

  /** Uninstall `node`, whose siblings are `sibs`; `all` is the whole namespace. */
  method Uninstall(node: Node, ghost sibs: Forest, ghost all: set<Node>) returns (status: Status)
    requires node in all && Nodes(sibs) <= all && (node.parent != null ==> node.parent in all)
    requires node.parent != null ==>
      && node.parent.child == First(sibs) && Linked(sibs, node.parent)
      && Distinct(sibs) && node.parent !in Nodes(sibs)
    modifies node`dangling, all`child, all`next
    ensures old(node.dangling) ==> status == InternalError
    ensures !old(node.dangling) && old(node.child) != null ==> status == Denied
    ensures !old(node.dangling) && old(node.child) == null ==>
      status == if node.parent != null && node in Tops(sibs) then Ok else InternalError
    ensures status != Ok ==> Dangling(all) == old(Dangling(all)) && Snap(all) == old(Snap(all))
    ensures status == Ok ==> Dangling(all) == old(Dangling(all)) + {node}
    ensures status == Ok ==> LinkedIn(Remove(sibs, node), node.parent, Snap(all))
    ensures status == Ok && sibs.node == node ==> Snap(all) == DropFirst(old(Snap(all)), node, node.parent)
  {
    if node.dangling { return InternalError; }
    if node.child != null { return Denied; }
    if node.parent == null { return InternalError; }

    var found := Unlink(node, node.parent, sibs, all);
    if !found { return InternalError; }
    ghost var after := Snap(all);
    node.dangling := true;
    assert Snap(all) == after;
    return Ok;
  }

  // -- The order of teardown ----------------------------------------------------------

  /** Everything strictly below the siblings of `f`, then the siblings. */
  function Teardown(f: Forest): seq<Node>
    decreases f, 1
  {
    Inner(f) + Tops(f)
  }

  function Inner(f: Forest): seq<Node>
    decreases f, 0
  {
    if f.Nil? then [] else Teardown(f.kids) + Inner(f.rest)
  }

  // -- Where the walk is ----------------------------------------------------------------

  /** A scope the walk has entered: siblings already emptied, and those to come. */
  datatype Level = Level(parent: Node, done: seq<Node>, todo: Forest)

  /** The whole namespace below the root, given the children `kids` of `node` and
      the scopes that enclose it. */
  ghost function Whole(below: seq<Level>, node: Node, kids: Forest): Forest {
    if below == [] then kids
    else
      var b := below[|below|-1];
      Whole(below[..|below|-1], b.parent, Attach(b.done, Cons(node, kids, b.todo)))
  }

  ghost function RootOf(below: seq<Level>, node: Node): Node {
    if below == [] then node else below[0].parent
  }

  // -- Attached leaves ------------------------------------------------------------------

  lemma {:induction false} AttachSnoc(leaves: seq<Node>, n: Node, f: Forest)
    ensures Attach(leaves + [n], f) == Attach(leaves, Cons(n, Nil, f))
  {
    if leaves == [] {
      assert (leaves + [n])[1..] == [];
    } else {
      assert (leaves + [n])[1..] == leaves[1..] + [n];
      AttachSnoc(leaves[1..], n, f);
    }
  }

  lemma {:induction false} AttachNodes(leaves: seq<Node>, f: Forest)
    ensures Nodes(Attach(leaves, f)) == (set n | n in leaves) + Nodes(f)
    ensures Distinct(Attach(leaves, f)) ==> Distinct(f) && (forall n :: n in leaves ==> n !in Nodes(f))
  {
    if leaves != [] { AttachNodes(leaves[1..], f); }
  }

  /** The part after the leaves is linked, and the last leaf leads to it. */
  lemma {:induction false} AttachLinked(leaves: seq<Node>, f: Forest, parent: Node, m: map<Node, Links>)
    requires LinkedIn(Attach(leaves, f), parent, m)
    ensures LinkedIn(f, parent, m)
    ensures leaves != [] ==> var n := leaves[|leaves|-1]; n in m && m[n] == Links(parent, null, First(f))
  {
    if leaves != [] { AttachLinked(leaves[1..], f, parent, m); }
  }

  /** Relinking what follows the leaves, without moving its first node. */
  lemma {:induction false} AttachRelinked(leaves: seq<Node>, f: Forest, f': Forest, parent: Node, m: map<Node, Links>, m': map<Node, Links>)
    requires LinkedIn(Attach(leaves, f), parent, m) && First(f) == First(f')
    requires LinkedIn(f', parent, m')
    requires forall n :: n in leaves && n in m ==> n in m' && m'[n] == m[n]
    ensures LinkedIn(Attach(leaves, f'), parent, m')
  {
    if leaves != [] { AttachRelinked(leaves[1..], f, f', parent, m, m'); }
  }

  // -- The whole namespace --------------------------------------------------------------

  ghost predicate Rooted(root: Node, f: Forest, m: map<Node, Links>) {
    && root in m && m[root].child == First(f) && LinkedIn(f, root, m)
    && Distinct(f) && root !in Nodes(f)
  }

  lemma {:induction false} WholeNodes(below: seq<Level>, node: Node, kids: Forest)
    ensures Nodes(kids) <= Nodes(Whole(below, node, kids))
    ensures below != [] ==> node in Nodes(Whole(below, node, kids))
    ensures Distinct(Whole(below, node, kids)) ==> Distinct(kids)
    ensures Distinct(Whole(below, node, kids)) && RootOf(below, node) !in Nodes(Whole(below, node, kids)) ==> node !in Nodes(kids)
  {
    if below != [] {
      var b := below[|below|-1];
      WholeNodes(below[..|below|-1], b.parent, Attach(b.done, Cons(node, kids, b.todo)));
      AttachNodes(b.done, Cons(node, kids, b.todo));
    }
  }

  /** The scope the walk is in is linked below its node, its siblings around it. */
  lemma {:induction false} ScopeLinked(below: seq<Level>, node: Node, kids: Forest, m: map<Node, Links>)
    requires Rooted(RootOf(below, node), Whole(below, node, kids), m)
    ensures node in m && m[node].child == First(kids) && LinkedIn(kids, node, m)
    ensures below != [] ==> m[node].parent == below[|below|-1].parent
  {
    if below != [] {
      var b := below[|below|-1];
      ScopeLinked(below[..|below|-1], b.parent, Attach(b.done, Cons(node, kids, b.todo)), m);
      AttachLinked(b.done, Cons(node, kids, b.todo), b.parent, m);
    }
  }

  /** Giving one node other children, out of the ones it had, keeps the rest of the
      namespace linked and distinct. */
  lemma {:induction false} WholeRelinked(below: seq<Level>, node: Node, kids: Forest, kids': Forest, cur: Node, m: map<Node, Links>, m': map<Node, Links>)
    requires Rooted(RootOf(below, node), Whole(below, node, kids), m)
    requires node in m && node in m' && m'[node] == m[node].(child := First(kids')) && LinkedIn(kids', node, m')
    requires cur == node || cur in Nodes(kids)
    requires forall x :: x in m && x != cur ==> x in m' && m'[x] == m[x]
    requires Nodes(kids') <= Nodes(kids) && Distinct(kids')
    ensures Rooted(RootOf(below, node), Whole(below, node, kids'), m')
    ensures Nodes(Whole(below, node, kids')) <= Nodes(Whole(below, node, kids))
  {
    if below != [] {
      var b, outer := below[|below|-1], below[..|below|-1];
      var f, f' := Cons(node, kids, b.todo), Cons(node, kids', b.todo);
      ScopeLinked(outer, b.parent, Attach(b.done, f), m);
      AttachLinked(b.done, f, b.parent, m);
      WholeNodes(outer, b.parent, Attach(b.done, f));
      AttachNodes(b.done, f);
      SameLinks(b.todo, b.parent, m, m');
      AttachRelinked(b.done, f, f', b.parent, m, m');
      AttachShrinks(b.done, f, f');
      AttachNodes(b.done, f');
      WholeRelinked(outer, b.parent, Attach(b.done, f), Attach(b.done, f'), cur, m, m');
    }
  }

  lemma {:induction false} AttachShrinks(leaves: seq<Node>, f: Forest, f': Forest)
    requires Distinct(Attach(leaves, f)) && Nodes(f') <= Nodes(f) && Distinct(f')
    ensures Distinct(Attach(leaves, f'))
  {
    if leaves != [] {
      AttachNodes(leaves[1..], f);
      AttachNodes(leaves[1..], f');
      AttachShrinks(leaves[1..], f, f');
    }
  }

  /** The nodes of the namespace that are not below `node`. */
  ghost function Outside(below: seq<Level>, node: Node): set<Node> {
    if below == [] then {}
    else
      var b := below[|below|-1];
      Outside(below[..|below|-1], b.parent) + (set n | n in b.done) + {node} + Nodes(b.todo)
  }

  lemma {:induction false} OutsideAndBelow(below: seq<Level>, node: Node, kids: Forest)
    ensures Nodes(Whole(below, node, kids)) == Outside(below, node) + Nodes(kids)
    ensures Distinct(Whole(below, node, kids)) ==> Outside(below, node) !! Nodes(kids)
  {
    if below != [] {
      var b, outer := below[|below|-1], below[..|below|-1];
      var f := Cons(node, kids, b.todo);
      OutsideAndBelow(outer, b.parent, Attach(b.done, f));
      WholeNodes(outer, b.parent, Attach(b.done, f));
      AttachNodes(b.done, f);
    }
  }

  // -- The walk -------------------------------------------------------------------------

  /** Where the walk stands: in the scope of `node`, with `done` of its children
      emptied and `todo` to come, inside the scopes `below`. */
  datatype Place = Place(below: seq<Level>, node: Node, done: seq<Node>, todo: Forest)

  ghost function Tree(p: Place): Forest { Whole(p.below, p.node, Attach(p.done, p.todo)) }

  function Last(s: seq<Node>): Node? { if s == [] then null else s[|s|-1] }

  function Enter(p: Place): Place
    requires p.todo.Cons?
  {
    Place(p.below + [Level(p.node, p.done, p.todo.rest)], p.todo.node, [], p.todo.kids)
  }

  function Pass(p: Place): Place
    requires p.todo.Cons?
  {
    p.(done := p.done + [p.todo.node], todo := p.todo.rest)
  }

  function Leave(p: Place): Place
    requires p.below != []
  {
    var b := p.below[|p.below|-1];
    Place(p.below[..|p.below|-1], b.parent, b.done + [p.node], b.todo)
  }

  /** What is still to be uninstalled. */
  ghost function Remaining(p: Place): seq<Node>
    decreases |p.below|
  {
    Inner(p.todo) + p.done + Tops(p.todo) + Later(p)
  }

  ghost function Later(p: Place): seq<Node>
    decreases |p.below|, 0
  {
    if p.below == [] then [] else Remaining(Leave(p))
  }

  ghost function Work(p: Place): nat
    decreases |p.below|
  {
    1 + 2 * Size(p.todo) + if p.below == [] then 0 else Work(Leave(p))
  }

  /** Entering a scope, passing a childless node and leaving an emptied scope all
      leave the namespace as it is, and only move the boundary of what is left. */
  lemma EnterMoves(p: Place)
    requires p.todo.Cons?
    ensures Tree(Enter(p)) == Tree(p) && RootOf(Enter(p).below, Enter(p).node) == RootOf(p.below, p.node)
    ensures Remaining(Enter(p)) == Remaining(p) && Work(Enter(p)) < Work(p)
  {
    assert Enter(p).below[..|p.below|] == p.below;
    assert Leave(Enter(p)) == p.(done := p.done + [p.todo.node], todo := p.todo.rest);
    var k, r := p.todo.kids, p.todo.rest;
    assert Later(Enter(p)) == Inner(r) + (p.done + [p.todo.node]) + Tops(r) + Later(p) by {
      SameLater(Leave(Enter(p)), p);
    }
    assert Inner(p.todo) == (Inner(k) + Tops(k)) + Inner(r) && Tops(p.todo) == [p.todo.node] + Tops(r);
    Regroup(Inner(k), Tops(k), Inner(r), p.done, p.todo.node, Tops(r), Later(p));
  }

  /** What follows depends only on the scopes outside and the node. */
  lemma SameLater(p: Place, q: Place)
    requires p.below == q.below && p.node == q.node
    ensures Later(p) == Later(q)
    ensures p.below != [] ==> Leave(p) == Leave(q)
  {}

  lemma Regroup(a: seq<Node>, b: seq<Node>, c: seq<Node>, d: seq<Node>, n: Node, e: seq<Node>, f: seq<Node>)
    ensures a + [] + b + (c + (d + [n]) + e + f) == ((a + b) + c) + d + ([n] + e) + f
  {}

  lemma PassMoves(p: Place)
    requires p.todo.Cons? && p.todo.kids.Nil?
    ensures Tree(Pass(p)) == Tree(p) && Remaining(Pass(p)) == Remaining(p) && Work(Pass(p)) < Work(p)
  {
    AttachSnoc(p.done, p.todo.node, p.todo.rest);
    SameLater(p, Pass(p));
    Regroup([], [], Inner(p.todo.rest), p.done, p.todo.node, Tops(p.todo.rest), Later(p));
    assert Inner(p.todo) == [] + [] + Inner(p.todo.rest);
  }

  lemma LeaveMoves(p: Place)
    requires p.below != [] && p.done == [] && p.todo.Nil?
    ensures Tree(Leave(p)) == Tree(p) && RootOf(Leave(p).below, Leave(p).node) == RootOf(p.below, p.node)
    ensures Remaining(Leave(p)) == Remaining(p) && Work(Leave(p)) < Work(p)
  {
    var b := p.below[|p.below|-1];
    AttachSnoc(b.done, p.node, b.todo);
    assert [] + [] + [] + Later(p) == Later(p);
  }

  /** The walk stands at `p`; `gone` has been uninstalled. */
  ghost predicate At(root: Node, p: Place, all: set<Node>, m: map<Node, Links>, gone: set<Node>) {
    && RootOf(p.below, p.node) == root && Rooted(root, Tree(p), m)
    && p.node in all && root in all && Nodes(Tree(p)) <= all && Nodes(Tree(p)) !! gone
  }

  /** The pointers of the current scope, read off the links. */
  lemma Pointers(root: Node, p: Place, all: set<Node>, m: map<Node, Links>, gone: set<Node>)
    requires At(root, p, all, m, gone)
    ensures p.node in m && m[p.node].child == First(Attach(p.done, p.todo))
    ensures LinkedIn(Attach(p.done, p.todo), p.node, m) && Distinct(Attach(p.done, p.todo))
    ensures p.node !in Nodes(Attach(p.done, p.todo)) && Nodes(Attach(p.done, p.todo)) <= all - gone
    ensures p.done != [] ==> Last(p.done) in m && Last(p.done) in all && m[Last(p.done)].next == First(p.todo)
    ensures p.todo.Cons? ==> p.todo.node in m && p.todo.node in all && m[p.todo.node].child == First(p.todo.kids)
    ensures p.below != [] ==> m[p.node].parent == Leave(p).node && Leave(p).node in all
    ensures p.below == [] ==> p.node == root
  {
    ScopeLinked(p.below, p.node, Attach(p.done, p.todo), m);
    AttachLinked(p.done, p.todo, p.node, m);
    AttachNodes(p.done, p.todo);
    WholeNodes(p.below, p.node, Attach(p.done, p.todo));
    if |p.below| > 1 {
      var b := p.below[|p.below|-1];
      WholeNodes(p.below[..|p.below|-1], b.parent, Attach(b.done, Cons(p.node, Attach(p.done, p.todo), b.todo)));
    }
  }

  /** Uninstalling the first of a scope's emptied children. */
  lemma WipeStep(root: Node, p: Place, all: set<Node>, m: map<Node, Links>, gone: set<Node>)
    requires At(root, p, all, m, gone) && p.todo.Nil? && p.done != [] && p.done[0] in m && p.node in m
    ensures At(root, p.(done := p.done[1..]), all, DropFirst(m, p.done[0], p.node), gone + {p.done[0]})
  {
    var kids, kids' := Attach(p.done, Nil), Attach(p.done[1..], Nil);
    var m' := DropFirst(m, p.done[0], p.node);
    Pointers(root, p, all, m, gone);
    SameLinks(kids', p.node, m, m');
    WholeRelinked(p.below, p.node, kids, kids', p.node, m, m');
    OutsideAndBelow(p.below, p.node, kids);
    OutsideAndBelow(p.below, p.node, kids');
  }

  /** One round of the wipe loop: the first child goes, and it is never refused. */
  method UninstallFirst(current: Node, ghost root: Node, ghost p: Place, ghost all: set<Node>)
    requires At(root, p, all, Snap(all), Dangling(all)) && p.todo.Nil? && p.node == current
    requires p.done != [] && current.child == p.done[0]
    modifies all`child, all`next, all`dangling
    ensures At(root, p.(done := p.done[1..]), all, Snap(all), Dangling(all))
    ensures Dangling(all) == old(Dangling(all)) + {p.done[0]}
  {
    ghost var m, gone := Snap(all), Dangling(all);
    Pointers(root, p, all, m, gone);
    LinkedAsValue(Attach(p.done, Nil), current, all);
    var status := Uninstall(current.child, Attach(p.done, Nil), all);
    assert status == Ok;
    WipeStep(root, p, all, m, gone);
  }

  ghost function Elements(s: seq<Node>): set<Node> { set n | n in s }

  /** `log` has been uninstalled out of `goal`, and `rest` is still to come. */
  ghost predicate Logged(log: seq<Node>, rest: seq<Node>, goal: seq<Node>, gone: set<Node>) {
    log + rest == goal && gone == Elements(log)
  }

  lemma LogOne(log: seq<Node>, n: Node, rest: seq<Node>, goal: seq<Node>, gone: set<Node>)
    requires Logged(log, [n] + rest, goal, gone)
    ensures Logged(log + [n], rest, goal, gone + {n})
  {
    assert log + [n] + rest == log + ([n] + rest);
  }

  /** A scope whose children are all emptied, being wiped. */
  ghost predicate Wiping(root: Node, p: Place, all: set<Node>, m: map<Node, Links>, gone: set<Node>, log: seq<Node>, goal: seq<Node>) {
    At(root, p, all, m, gone) && p.todo.Nil? && Logged(log, p.done + Later(p), goal, gone)
  }

  /** The same round, with the log of the nodes that have gone. */
  method WipeOne(current: Node, ghost root: Node, ghost p: Place, ghost all: set<Node>, ghost log: seq<Node>, ghost goal: seq<Node>)
    requires Wiping(root, p, all, Snap(all), Dangling(all), log, goal) && p.node == current
    requires p.done != [] && current.child == p.done[0]
    modifies all`child, all`next, all`dangling
    ensures Wiping(root, p.(done := p.done[1..]), all, Snap(all), Dangling(all), log + [p.done[0]], goal)
  {
    ghost var gone := Dangling(all);
    UninstallFirst(current, root, p, all);
    SameLater(p, p.(done := p.done[1..]));
    assert p.done + Later(p) == [p.done[0]] + (p.done[1..] + Later(p));
    LogOne(log, p.done[0], p.done[1..] + Later(p), goal, gone);
  }

  lemma WipePointers(root: Node, p: Place, all: set<Node>, m: map<Node, Links>, gone: set<Node>, log: seq<Node>, goal: seq<Node>)
    requires Wiping(root, p, all, m, gone, log, goal)
    ensures p.node in m && m[p.node].child == if p.done == [] then null else p.done[0]
  {
    Pointers(root, p, all, m, gone);
  }

  /** Wipe a scope whose children have all been emptied: they go in list order. */
  method WipeScope(current: Node, ghost root: Node, ghost p: Place, ghost all: set<Node>, ghost before: seq<Node>, ghost goal: seq<Node>)
    returns (ghost log: seq<Node>)
    requires Wiping(root, p, all, Snap(all), Dangling(all), before, goal) && p.node == current && current in all
    modifies all`child, all`next, all`dangling
    ensures Wiping(root, p.(done := []), all, Snap(all), Dangling(all), log, goal)
    ensures log == before + p.done
  {
    hide Wiping;
    ghost var i := 0;
    log := before;
    assert p == p.(done := p.done[0..]);
    WipePointers(root, p, all, Snap(all), Dangling(all), log, goal);
    while current.child != null
      invariant 0 <= i <= |p.done|
      invariant Wiping(root, p.(done := p.done[i..]), all, Snap(all), Dangling(all), log, goal)
      invariant current.child == (if i == |p.done| then null else p.done[i])
      invariant log == before + p.done[..i]
      decreases |p.done| - i
    {
      ghost var q := p.(done := p.done[i..]);
      assert q.done[1..] == p.done[i+1..];
      WipeOne(current, root, q, all, log, goal);
      assert before + p.done[..i] + [p.done[i]] == before + p.done[..i+1];
      log, i := log + [p.done[i]], i + 1;
      WipePointers(root, p.(done := p.done[i..]), all, Snap(all), Dangling(all), log, goal);
    }
  }

  /** The walk stands at `p`, `log` has been uninstalled, the rest is to come. */
  ghost predicate Scanning(root: Node, p: Place, all: set<Node>, m: map<Node, Links>, gone: set<Node>, log: seq<Node>, goal: seq<Node>) {
    At(root, p, all, m, gone) && Logged(log, Remaining(p), goal, gone)
  }

  lemma ScanStarts(root: Node, kids: Forest, all: set<Node>, m: map<Node, Links>)
    requires Rooted(root, kids, m) && all == Nodes(kids) + {root}
    ensures Scanning(root, Place([], root, [], kids), all, m, {}, [], Teardown(kids))
  {
    assert [] + (Inner(kids) + [] + Tops(kids) + []) == Teardown(kids);
  }

  /** The pointers the loop is about to read. */
  lemma ScanPointers(root: Node, p: Place, all: set<Node>, m: map<Node, Links>, gone: set<Node>, log: seq<Node>, goal: seq<Node>)
    requires Scanning(root, p, all, m, gone, log, goal)
    ensures p.node in m && p.node in all && (p.done != [] ==> Last(p.done) in m && Last(p.done) in all)
    ensures (if p.done == [] then m[p.node].child else m[Last(p.done)].next) == First(p.todo)
    ensures p.todo.Cons? ==> p.todo.node in m && p.todo.node in all && m[p.todo.node].child == First(p.todo.kids)
    ensures p.todo.Nil? ==> Wiping(root, p, all, m, gone, log, goal)
  {
    Pointers(root, p, all, m, gone);
    if p.todo.Nil? { assert [] + p.done + [] + Later(p) == p.done + Later(p); }
  }

  lemma ScanEnters(root: Node, p: Place, all: set<Node>, m: map<Node, Links>, gone: set<Node>, log: seq<Node>, goal: seq<Node>)
    requires Scanning(root, p, all, m, gone, log, goal) && p.todo.Cons?
    ensures Scanning(root, Enter(p), all, m, gone, log, goal) && Work(Enter(p)) < Work(p)
    ensures |Enter(p).below| == |p.below| + 1 && Enter(p).node == p.todo.node && Last(Enter(p).done) == null
  {
    EnterMoves(p);
    Pointers(root, p, all, m, gone);
  }

  lemma ScanPasses(root: Node, p: Place, all: set<Node>, m: map<Node, Links>, gone: set<Node>, log: seq<Node>, goal: seq<Node>)
    requires Scanning(root, p, all, m, gone, log, goal) && p.todo.Cons? && p.todo.kids.Nil?
    ensures Scanning(root, Pass(p), all, m, gone, log, goal) && Work(Pass(p)) < Work(p)
    ensures Pass(p).below == p.below && Pass(p).node == p.node && Last(Pass(p).done) == p.todo.node
  {
    PassMoves(p);
  }

  /** After the wipe: back to the enclosing scope, or all is gone. */
  lemma ScanLeaves(root: Node, p: Place, all: set<Node>, m: map<Node, Links>, gone: set<Node>, log: seq<Node>, goal: seq<Node>)
    requires Wiping(root, p, all, m, gone, log, goal) && p.done == []
    ensures p.node in m
    ensures p.below != [] ==>
      && Scanning(root, Leave(p), all, m, gone, log, goal) && Work(Leave(p)) < Work(p)
      && m[p.node].parent == Leave(p).node
    ensures p.below == [] ==> p.node == root && m[root].child == null && log == goal && gone == Elements(log)
  {
    Pointers(root, p, all, m, gone);
    if p.below != [] {
      LeaveMoves(p);
      assert [] + [] + [] + Later(p) == [] + Later(p);
    } else {
      assert log + ([] + []) == log;
    }
  }

  /** The same, read off the nodes themselves. */
  lemma ScanLinks(root: Node, p: Place, all: set<Node>, log: seq<Node>, goal: seq<Node>)
    requires Scanning(root, p, all, Snap(all), Dangling(all), log, goal)
    ensures p.node in all && (p.done != [] ==> Last(p.done) in all)
    ensures (if p.done == [] then p.node.child else Last(p.done).next) == First(p.todo)
    ensures p.todo.Cons? ==> p.todo.node in all && p.todo.node.child == First(p.todo.kids)
    ensures p.todo.Nil? ==> Wiping(root, p, all, Snap(all), Dangling(all), log, goal)
  {
    hide Scanning, Wiping;
    ScanPointers(root, p, all, Snap(all), Dangling(all), log, goal);
  }

  lemma WorkIgnoresDone(p: Place)
    ensures Work(p.(done := [])) == Work(p) > 0
    ensures p.below != [] ==> Leave(p.(done := [])) == Leave(p) && |Leave(p).below| == |p.below| - 1 && Last(Leave(p).done) == p.node
  {}

  /** Wipe the scope, then go back to the enclosing one, which is at `q`. */
  method WipeAndLeave(current: Node, ghost root: Node, ghost p: Place, ghost all: set<Node>, ghost before: seq<Node>, ghost goal: seq<Node>)
    returns (up: Node?, ghost log: seq<Node>, ghost q: Place)
    requires Wiping(root, p, all, Snap(all), Dangling(all), before, goal) && p.node == current && current in all
    modifies all`child, all`next, all`dangling
    ensures Work(p) > 0
    ensures p.below != [] ==>
      && Scanning(root, q, all, Snap(all), Dangling(all), log, goal) && Work(q) < Work(p)
      && up == q.node && |q.below| == |p.below| - 1 && Last(q.done) == current
    ensures p.below == [] ==> root.child == null && log == goal && Dangling(all) == Elements(log)
  {
    hide Wiping, Scanning, Work, Leave;
    log := WipeScope(current, root, p, all, before, goal);
    ScanLeaves(root, p.(done := []), all, Snap(all), Dangling(all), log, goal);
    WorkIgnoresDone(p);
    up := current.parent;
    q := if p.below == [] then p else Leave(p);
  }

  /** uacpi_deinitialize_namespace, up to the root node itself.  `log` lists the
      nodes in the order they are uninstalled. */
  method Deinitialize(root: Node, ghost kids: Forest) returns (ghost log: seq<Node>)
    requires root.parent == null && root.child == First(kids) && Linked(kids, root)
    requires Distinct(kids) && root !in Nodes(kids) && Dangling(Nodes(kids) + {root}) == {}
    modifies root, Nodes(kids)
    ensures log == Teardown(kids)
    ensures root.child == null
    ensures Dangling(Nodes(kids) + {root}) == Elements(log)
  {
    ghost var all, goal := Nodes(kids) + {root}, Teardown(kids);
    LinkedAsValue(kids, root, all);
    ScanStarts(root, kids, all, Snap(all));
    assert Dangling(all) == {};
    hide Scanning, Wiping, Work, Teardown, Enter, Pass, Leave, Linked, Distinct, Snap, Dangling, Nodes, Elements;
    var current: Node?, next: Node?, depth := root, null, 1;
    ghost var p := Place([], root, [], kids);
    log := [];
    while depth > 0
      invariant depth == 0 ==> log == goal && root.child == null && Dangling(all) == Elements(log)
      invariant depth > 0 ==> depth == |p.below| + 1 && current == p.node && next == Last(p.done)
      invariant depth > 0 ==> Scanning(root, p, all, Snap(all), Dangling(all), log, goal)
      decreases if depth == 0 then 0 else Work(p)
    {
      ScanLinks(root, p, all, log, goal);
      next := if next == null then current.child else next.next;
      if next == null {
        depth := depth - 1;
        next := current;
        current, log, p := WipeAndLeave(current, root, p, all, log, goal);
      } else if next.child != null {
        depth := depth + 1;
        ScanEnters(root, p, all, Snap(all), Dangling(all), log, goal);
        p := Enter(p);
        current := next;
        next := null;
      } else {
        ScanPasses(root, p, all, Snap(all), Dangling(all), log, goal);
        p := Pass(p);
      }
    }
  }

  // -- What the order means ---------------------------------------------------------------

  ghost predicate NoRepeats(s: seq<Node>) { forall i, j :: 0 <= i < j < |s| ==> s[i] != s[j] }

  lemma {:induction false} TopsOnce(f: Forest)
    requires Distinct(f)
    ensures NoRepeats(Tops(f)) && Elements(Tops(f)) <= Nodes(f)
  {
    if f.Cons? { TopsOnce(f.rest); }
  }

  lemma {:induction false} InnerOnce(f: Forest)
    requires Distinct(f)
    ensures NoRepeats(Inner(f)) && Elements(Inner(f)) == Nodes(f) - Elements(Tops(f))
    decreases f, 0
  {
    if f.Cons? {
      TeardownOnce(f.kids);
      InnerOnce(f.rest);
      TopsOnce(f.rest);
      var a, b := Teardown(f.kids), Inner(f.rest);
      assert forall i :: 0 <= i < |a| ==> a[i] in Elements(a);
      assert forall i :: 0 <= i < |b| ==> b[i] in Elements(b);
      assert Elements(Inner(f)) == Elements(a) + Elements(b);
    }
  }

  /** Every node is uninstalled exactly once. */
  lemma {:induction false} TeardownOnce(f: Forest)
    requires Distinct(f)
    ensures NoRepeats(Teardown(f)) && Elements(Teardown(f)) == Nodes(f)
    decreases f, 1
  {
    InnerOnce(f);
    TopsOnce(f);
    var a, b := Inner(f), Tops(f);
    assert forall i :: 0 <= i < |a| ==> a[i] in Elements(a);
    assert forall i :: 0 <= i < |b| ==> b[i] in Elements(b);
    assert Elements(Teardown(f)) == Elements(a) + Elements(b);
  }

  /** Parents stay inside the forest, except those of the top-level nodes. */
  lemma {:induction false} ParentsInside(f: Forest, parent: Node?, m: map<Node, Links>, x: Node)
    requires LinkedIn(f, parent, m) && Distinct(f) && x in Nodes(f)
    ensures x in m
    ensures if x in Tops(f) then m[x].parent == parent else m[x].parent in Nodes(f)
  {
    TopsInNodes(f.rest);
    if x in Nodes(f.kids) { ParentsInside(f.kids, f.node, m, x); }
    else if x in Nodes(f.rest) { ParentsInside(f.rest, parent, m, x); }
  }

  ghost predicate ChildBeforeParent(s: seq<Node>, m: map<Node, Links>) {
    forall i, j :: 0 <= i < |s| && 0 <= j < |s| && s[i] in m && m[s[i]].parent == s[j] ==> i < j
  }

  lemma {:induction false} InnerOrdered(f: Forest, parent: Node?, m: map<Node, Links>)
    requires LinkedIn(f, parent, m) && Distinct(f) && (parent != null ==> parent !in Nodes(f))
    ensures ChildBeforeParent(Inner(f), m)
    decreases f, 0
  {
    if f.Cons? {
      ChildrenFirst(f.kids, f.node, m);
      InnerOrdered(f.rest, parent, m);
      TeardownOnce(f.kids);
      InnerOnce(f.rest);
      var a, b := Teardown(f.kids), Inner(f.rest);
      forall i | 0 <= i < |a| ensures a[i] in m && m[a[i]].parent !in b {
        assert a[i] in Elements(a);
        ParentsInside(f.kids, f.node, m, a[i]);
        var up := m[a[i]].parent;
        assert up in b ==> up in Elements(b);
      }
      forall i | 0 <= i < |b| ensures b[i] in m && m[b[i]].parent !in a {
        assert b[i] in Elements(b);
        ParentsInside(f.rest, parent, m, b[i]);
        var up := m[b[i]].parent;
        assert up in a ==> up in Elements(a);
      }
    }
  }

  /** No node is uninstalled before its children, so an uninstall never meets a
      child and is never refused. */
  lemma {:induction false} ChildrenFirst(f: Forest, parent: Node?, m: map<Node, Links>)
    requires LinkedIn(f, parent, m) && Distinct(f) && (parent != null ==> parent !in Nodes(f))
    ensures ChildBeforeParent(Teardown(f), m)
    decreases f, 1
  {
    InnerOrdered(f, parent, m);
    TeardownOnce(f);
    TopsOnce(f);
    var s := Teardown(f);
    forall i | |Inner(f)| <= i < |s| ensures s[i] in m && m[s[i]].parent !in s {
      assert s[i] == Tops(f)[i - |Inner(f)|] && s[i] in Elements(Tops(f));
      ParentsInside(f, parent, m, s[i]);
      var up := m[s[i]].parent;
        assert up in s ==> up in Elements(s);
    }
  }
}
