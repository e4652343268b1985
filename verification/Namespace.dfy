/**
 The ACPI namespace as the kernel links it: every node points at its parent, its
 first child and its next sibling.  A `Forest` is the ghost picture of a sibling
 list together with everything below it.
 */
module Namespace {
  import opened Common

  /** The types of objects a node can carry (the source's object type values). */
  type ObjectType = nat

  class Node {
    var parent: Node?
    var child: Node?
    var next: Node?
    var dangling: bool
    const kind: Option<ObjectType>
    const temporary: bool
    const name: seq<char>
    const space: nat  // the address space, if this node is an operation region
  }

  datatype Forest = Nil | Cons(node: Node, kids: Forest, rest: Forest)

  function First(f: Forest): Node? { if f.Nil? then null else f.node }

  ghost function Nodes(f: Forest): set<Node> {
    if f.Nil? then {} else {f.node} + Nodes(f.kids) + Nodes(f.rest)
  }

  function Size(f: Forest): nat {
    if f.Nil? then 0 else 1 + Size(f.kids) + Size(f.rest)
  }

  /** The heap links below `parent` are exactly those of `f`. */
  ghost predicate Linked(f: Forest, parent: Node?)
    reads Nodes(f)
  {
    f.Cons? ==>
      && f.node.parent == parent
      && f.node.child == First(f.kids)
      && f.node.next == First(f.rest)
      && Linked(f.kids, f.node)
      && Linked(f.rest, parent)
  }

  /** The whole namespace: a root without a parent, and the forest below it. */
  ghost predicate LinkedTree(root: Node, f: Forest)
    reads root, Nodes(f)
  {
    root.parent == null && root.child == First(f) && Linked(f, root)
  }

  /** No node occurs twice. */
  ghost predicate Distinct(f: Forest) {
    f.Cons? ==>
      && f.node !in Nodes(f.kids) && f.node !in Nodes(f.rest)
      && Nodes(f.kids) !! Nodes(f.rest)
      && Distinct(f.kids) && Distinct(f.rest)
  }

  datatype Placed = Placed(node: Node, depth: nat)

  /** All nodes in preorder, the roots at depth `d`. */
  function Pre(f: Forest, d: nat): seq<Placed> {
    if f.Nil? then [] else [Placed(f.node, d)] + Pre(f.kids, d + 1) + Pre(f.rest, d)
  }

  /** All nodes in postorder. */
  function Post(f: Forest, d: nat): seq<Placed> {
    if f.Nil? then [] else Post(f.kids, d + 1) + [Placed(f.node, d)] + Post(f.rest, d)
  }

  /** Preorder lists exactly the nodes of the forest, none above the root depth. */
  lemma {:induction false} PreMembers(f: Forest, d: nat)
    ensures forall at :: at in Pre(f, d) ==> at.node in Nodes(f) && at.depth >= d
    ensures forall n :: n in Nodes(f) ==> exists at :: at in Pre(f, d) && at.node == n
  {
    if f.Cons? {
      PreMembers(f.kids, d + 1);
      PreMembers(f.rest, d);
      assert Placed(f.node, d) in Pre(f, d);
      forall n | n in Nodes(f) ensures exists at :: at in Pre(f, d) && at.node == n {
        if n in Nodes(f.kids) {
          var at :| at in Pre(f.kids, d + 1) && at.node == n;
          assert at in Pre(f, d);
        } else if n in Nodes(f.rest) {
          var at :| at in Pre(f.rest, d) && at.node == n;
          assert at in Pre(f, d);
        }
      }
    }
  }

  /** No node is placed twice. */
  ghost predicate NodesOnce(s: seq<Placed>) {
    forall i, j :: 0 <= i < j < |s| ==> s[i].node != s[j].node
  }

  /** In a forest of distinct nodes, preorder mentions each node once. */
  lemma {:induction false} PreOnce(f: Forest, d: nat)
    requires Distinct(f)
    ensures NodesOnce(Pre(f, d))
  {
    if f.Cons? {
      PreOnce(f.kids, d + 1);
      PreOnce(f.rest, d);
      PreMembers(f.kids, d + 1);
      PreMembers(f.rest, d);
    }
  }

  /** Postorder lists the same placements. */
  ghost predicate Within(s: seq<Placed>, t: seq<Placed>) { forall i :: 0 <= i < |s| ==> s[i] in t }

  lemma {:induction false} PostMembers(f: Forest, d: nat)
    ensures Within(Post(f, d), Pre(f, d)) && Within(Pre(f, d), Post(f, d))
  {
    if f.Cons? {
      PostMembers(f.kids, d + 1);
      PostMembers(f.rest, d);
    }
  }

  lemma {:induction false} PostNodes(f: Forest, d: nat)
    ensures forall i :: 0 <= i < |Post(f, d)| ==> Post(f, d)[i].node in Nodes(f)
  {
    if f.Cons? {
      PostNodes(f.kids, d + 1);
      PostNodes(f.rest, d);
    }
  }

  lemma {:induction false} PostOnce(f: Forest, d: nat)
    requires Distinct(f)
    ensures NodesOnce(Post(f, d))
  {
    if f.Cons? {
      PostOnce(f.kids, d + 1);
      PostOnce(f.rest, d);
      PostNodes(f.kids, d + 1);
      PostNodes(f.rest, d);
    }
  }

  lemma PreCons(f: Forest, d: nat, at: Placed)
    requires f.Cons?
    ensures at in Pre(f, d) <==> at == Placed(f.node, d) || at in Pre(f.kids, d + 1) || at in Pre(f.rest, d)
  {}

  /** The depth is the true one: it counts parent links up to the roots. */
  lemma {:induction false} DepthCountsParents(f: Forest, d: nat, parent: Node?, at: Placed)
    requires Linked(f, parent) && at in Pre(f, d)
    ensures at.node in Nodes(f) && at.depth >= d
    ensures at.depth == d ==> at.node.parent == parent
    ensures at.depth > d ==> at.node.parent != null && Placed(at.node.parent, at.depth - 1) in Pre(f, d)
    decreases f
  {
    PreCons(f, d, at);
    if at in Pre(f.kids, d + 1) {
      DepthCountsParents(f.kids, d + 1, f.node, at);
      PreCons(f, d, Placed(at.node.parent, at.depth - 1));
    } else if at in Pre(f.rest, d) {
      DepthCountsParents(f.rest, d, parent, at);
      if at.depth > d { PreCons(f, d, Placed(at.node.parent, at.depth - 1)); }
    }
  }

  /** The sibling list below a node of the forest. */
  ghost function Find(f: Forest, d: Node): Forest {
    if f.Nil? then Nil
    else if f.node == d then f.kids
    else if d in Nodes(f.kids) then Find(f.kids, d)
    else Find(f.rest, d)
  }

  lemma {:induction false} FindLinked(f: Forest, parent: Node?, d: Node)
    requires Linked(f, parent) && d in Nodes(f)
    ensures d.child == First(Find(f, d)) && Linked(Find(f, d), d)
    decreases f
  {
    if f.node != d {
      if d in Nodes(f.kids) { FindLinked(f.kids, f.node, d); } else { FindLinked(f.rest, parent, d); }
    }
  }

  ghost function DepthOf(f: Forest, p: Node): (r: nat)
    ensures r > 0
  {
    if f.Nil? || f.node == p then 1
    else if p in Nodes(f.kids) then 1 + DepthOf(f.kids, p)
    else DepthOf(f.rest, p)
  }
}
