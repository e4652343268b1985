/**
 Looking up nodes by name in the namespace: parents, named children, and the
 upward search that a single name segment gets.
 */
module NameTree {
  import opened Common
  import opened Namespace

  type Name = seq<char>

  datatype Tree = Tree(root: Node, forest: Forest)

  ghost predicate WellFormed(t: Tree) { Distinct(t.forest) && t.root !in Nodes(t.forest) }

  ghost predicate In(t: Tree, n: Node) { n == t.root || n in Nodes(t.forest) }

  ghost function Kids(t: Tree, n: Node): Forest { if n == t.root then t.forest else Find(t.forest, n) }

  /** The parent of a node of the forest, whose roots hang off `parent`. */
  ghost function ParentIn(f: Forest, parent: Node, n: Node): Node {
    if f.Nil? || f.node == n then parent
    else if n in Nodes(f.kids) then ParentIn(f.kids, f.node, n)
    else ParentIn(f.rest, parent, n)
  }

  ghost function Up(t: Tree, n: Node): Node { ParentIn(t.forest, t.root, n) }

  ghost function Depth(t: Tree, n: Node): nat { if n == t.root then 0 else DepthOf(t.forest, n) }

  /** The first sibling of that name. */
  function FirstNamed(f: Forest, name: Name): Option<Node> {
    if f.Nil? then None else if f.node.name == name then Some(f.node) else FirstNamed(f.rest, name)
  }

  ghost function Sub(t: Tree, n: Node, name: Name): Option<Node> { FirstNamed(Kids(t, n), name) }

  /** One of the siblings at the top of the forest. */
  ghost predicate Sibling(f: Forest, n: Node) { f.Cons? && (f.node == n || Sibling(f.rest, n)) }

  lemma {:induction false} ParentStep(f: Forest, parent: Node, n: Node)
    requires n in Nodes(f) && Distinct(f) && parent !in Nodes(f)
    ensures var p := ParentIn(f, parent, n);
      && (p == parent || p in Nodes(f))
      && (p == parent ==> Sibling(f, n))
      && (p != parent ==> Sibling(Find(f, p), n) && DepthOf(f, p) < DepthOf(f, n))
    decreases f
  {
    if f.node != n {
      if n in Nodes(f.kids) { ParentStep(f.kids, f.node, n); } else { ParentStep(f.rest, parent, n); }
    }
  }

  lemma UpStep(t: Tree, n: Node)
    requires WellFormed(t) && n in Nodes(t.forest)
    ensures In(t, Up(t, n)) && Depth(t, Up(t, n)) < Depth(t, n) && Sibling(Kids(t, Up(t, n)), n)
  {
    ParentStep(t.forest, t.root, n);
  }

  lemma {:induction false} SubInside(f: Forest, name: Name)
    ensures FirstNamed(f, name).Some? ==> FirstNamed(f, name).value in Nodes(f)
  {
    if f.Cons? { SubInside(f.rest, name); }
  }

  lemma {:induction false} FindNodes(f: Forest, d: Node)
    ensures Nodes(Find(f, d)) <= Nodes(f)
  {
    if f.Cons? { FindNodes(f.kids, d); FindNodes(f.rest, d); }
  }

  lemma SubIn(t: Tree, n: Node, name: Name)
    ensures Sub(t, n, name).Some? ==> Sub(t, n, name).value in Nodes(t.forest)
  {
    SubInside(Kids(t, n), name);
    FindNodes(t.forest, n);
  }

  /** A name looked up in a scope, then in every scope above it. */
  ghost function SearchUp(t: Tree, n: Node, name: Name): Option<Node>
    requires WellFormed(t) && In(t, n)
    decreases Depth(t, n)
  {
    if Sub(t, n, name).Some? || n == t.root then Sub(t, n, name)
    else UpStep(t, n); SearchUp(t, Up(t, n), name)
  }

  // -- The links in memory ---------------------------------------------------------------

  ghost predicate InMemory(t: Tree)
    reads t.root, Nodes(t.forest)
  {
    LinkedTree(t.root, t.forest)
  }

  lemma {:induction false} ParentLinked(f: Forest, parent: Node, n: Node)
    requires Linked(f, parent) && n in Nodes(f)
    ensures n.parent == ParentIn(f, parent, n)
    decreases f
  {
    if f.node != n {
      if n in Nodes(f.kids) { ParentLinked(f.kids, f.node, n); } else { ParentLinked(f.rest, parent, n); }
    }
  }

  lemma UpLinked(t: Tree, n: Node)
    requires WellFormed(t) && InMemory(t) && In(t, n)
    ensures n != t.root ==> n.parent == Up(t, n)
    ensures n.child == First(Kids(t, n)) && Linked(Kids(t, n), n)
  {
    if n != t.root {
      ParentLinked(t.forest, t.root, n);
      FindLinked(t.forest, t.root, n);
    }
  }

  method FindSubNode(parent: Node, name: Name, ghost t: Tree) returns (found: Node?)
    requires WellFormed(t) && InMemory(t) && In(t, parent)
    ensures found == Nullable(Sub(t, parent, name)) && InMemory(t)
    ensures found != null ==> In(t, found)
  {
    UpLinked(t, parent);
    SubIn(t, parent, name);
    found := parent.child;
    ghost var left := Kids(t, parent);
    while found != null
      invariant found == First(left) && Linked(left, parent) && FirstNamed(left, name) == Sub(t, parent, name)
      invariant InMemory(t)
      decreases left
    {
      if found.name == name { return; }
      found := found.next;
      left := left.rest;
    }
  }

  function Nullable(o: Option<Node>): Node? { if o.None? then null else o.value }
}

/**
 Resolving a path written as a string.
 */
module StringResolver {
  import opened Common
  import opened Namespace
  import opened NameTree

  datatype Result = Found(node: Node) | NotFound | Invalid

  /** The next segment of a path, padded with underscores to four characters. */
  function Segment(s: string): (r: (Name, string))
    ensures |r.0| == 4 && |r.1| <= |s| && (s != [] && s[0] != '.' ==> |r.1| < |s|)
  {
    var n := Letters(s, 4);
    (s[..n] + seq(4 - n, _ => '_'), s[n..])
  }

  /** How many of the first `max` characters come before a dot or the end. */
  function Letters(s: string, max: nat): (n: nat)
    ensures n <= max && n <= |s| && (forall i :: 0 <= i < n ==> s[i] != '.') && (n < max && n < |s| ==> s[n] == '.')
  {
    if max == 0 || s == [] || s[0] == '.' then 0 else 1 + Letters(s[1..], max - 1)
  }

  lemma LettersAre(s: string, max: nat, n: nat)
    requires n <= max && n <= |s| && (forall i :: 0 <= i < n ==> s[i] != '.') && (n < max && n < |s| ==> s[n] == '.')
    ensures Letters(s, max) == n
  {}

  /** Where the prefix characters of a path lead, and what is left of it. */
  datatype Start = Bad | At(node: Node, rest: string, single: bool)

  ghost function Prefix(t: Tree, n: Node, s: string, caret: bool, single: bool): (r: Start)
    requires WellFormed(t) && In(t, n)
    ensures r.At? ==> In(t, r.node)
    decreases |s|
  {
    if s == [] then At(n, s, single)
    else if s[0] == '\\' then (if caret then Bad else At(t.root, s[1..], false))
    else if s[0] == '^' then (if n == t.root then Bad else UpStep(t, n); Prefix(t, Up(t, n), s[1..], true, false))
    else At(n, s, single)
  }

  function ToResult(o: Option<Node>): Result { if o.None? then NotFound else Found(o.value) }

  ghost function SearchAbove(t: Tree, scope: Node, name: Name): Option<Node>
    requires WellFormed(t) && In(t, scope)
  {
    if scope == t.root then None else UpStep(t, scope); SearchUp(t, Up(t, scope), name)
  }

  ghost function Segments(t: Tree, scope: Node, n: Node, s: string, single: bool, mayRise: bool): (r: Result)
    requires WellFormed(t) && In(t, n) && In(t, scope)
    decreases |s|
  {
    if s == [] then Found(n)
    else
      var (name, rest) := Segment(if s[0] == '.' then s[1..] else s);
      var one := single && rest == [];
      var c := Sub(t, n, name);
      if c.None? then (if mayRise && one then ToResult(SearchAbove(t, scope, name)) else NotFound)
      else SubIn(t, n, name); Segments(t, scope, c.value, rest, one, mayRise)
  }

  lemma OneSegment(t: Tree, scope: Node, n: Node, s: string, single: bool, mayRise: bool, name: Name, rest: string)
    requires WellFormed(t) && In(t, n) && In(t, scope) && s != []
    requires (name, rest) == Segment(if s[0] == '.' then s[1..] else s)
    ensures var c, one := Sub(t, n, name), single && rest == [];
      && (c.None? ==> Segments(t, scope, n, s, single, mayRise) == if mayRise && one then ToResult(SearchAbove(t, scope, name)) else NotFound)
      && (c.Some? ==> In(t, c.value) && Segments(t, scope, n, s, single, mayRise) == Segments(t, scope, c.value, rest, one, mayRise))
  {
    SubIn(t, n, name);
  }

  /** What a path string means. */
  ghost function Resolve(t: Tree, scope: Node, path: string, mayRise: bool): Result
    requires WellFormed(t) && In(t, scope)
  {
    var p := Prefix(t, scope, path, false, true);
    if p.Bad? then Invalid else Segments(t, scope, p.node, p.rest, p.single, mayRise)
  }

  // -- The code -----------------------------------------------------------------------------

  method SegmentToName(path: string, cursor: nat, ghost t: Tree) returns (name: Name, next: nat)
    requires cursor <= |path| && InMemory(t)
    ensures InMemory(t)
    ensures cursor <= next <= |path| && (name, path[next..]) == Segment(path[cursor..])
  {
    name, next := [], cursor;
    for offset := 0 to 4
      invariant cursor <= next <= |path| && |name| == offset && next - cursor <= offset
      invariant name == path[cursor..next] + seq(offset - (next - cursor), _ => '_')
      invariant forall i :: cursor <= i < next ==> path[i] != '.'
      invariant next - cursor < offset ==> next == |path| || path[next] == '.'
      invariant InMemory(t)
    {
      if next == |path| || path[next] == '.' {
        name := name + ['_'];
      } else {
        name := name + [path[next]];
        next := next + 1;
      }
    }
    var s := path[cursor..];
    LettersAre(s, 4, next - cursor);
    assert path[next..] == s[next - cursor..];
    assert name == s[..next - cursor] + seq(4 - (next - cursor), _ => '_');
  }

  method SearchAboveScope(scope: Node, name: Name, ghost t: Tree) returns (found: Node?)
    requires WellFormed(t) && InMemory(t) && In(t, scope)
    ensures found == Nullable(SearchAbove(t, scope, name)) && InMemory(t)
  {
    UpLinked(t, scope);
    if scope != t.root { UpStep(t, scope); }
    var p: Node? := scope.parent;
    while p != null
      invariant InMemory(t) && (p != null ==> In(t, p) && SearchAbove(t, scope, name) == SearchUp(t, p, name))
      invariant p == null ==> SearchAbove(t, scope, name) == None
      decreases if p == null then 0 else 1 + Depth(t, p)
    {
      found := FindSubNode(p, name, t);
      if found != null { return; }
      UpLinked(t, p);
      if p != t.root { UpStep(t, p); }
      p := p.parent;
    }
    found := null;
  }

  /** Follows root and parent prefixes. */
  method WalkPrefix(scope: Node, root: Node, path: string, ghost t: Tree) returns (ok: bool, cur: Node, cursor: nat, single: bool)
    requires WellFormed(t) && InMemory(t) && In(t, scope) && t.root == root
    ensures InMemory(t) && cursor <= |path|
    ensures Prefix(t, scope, path, false, true) == if ok then At(cur, path[cursor..], single) else Bad
  {
    cur, cursor, single, ok := scope, 0, true, true;
    var caret := false;
    assert path[0..] == path;
    while cursor < |path|
      invariant 0 <= cursor <= |path| && In(t, cur) && InMemory(t)
      invariant Prefix(t, scope, path, false, true) == Prefix(t, cur, path[cursor..], caret, single)
    {
      var c := path[cursor];
      assert path[cursor..][1..] == path[cursor + 1..];
      if c == '\\' {
        if caret { ok := false; return; }
        cur, cursor, single := root, cursor + 1, false;
        return;
      } else if c == '^' {
        if cur == root { ok := false; return; }
        UpLinked(t, cur);
        UpStep(t, cur);
        cur, cursor, caret, single := cur.parent, cursor + 1, true, false;
      } else {
        return;
      }
    }
  }

  /** The string resolver computes the meaning of the path. */
  method NodeResolve(scope: Node, root: Node, path: string, mayRise: bool, ghost t: Tree) returns (r: Result)
    requires WellFormed(t) && InMemory(t) && In(t, scope) && t.root == root
    ensures r == Resolve(t, scope, path, mayRise)
  {
    var ok, start, cursor, single := WalkPrefix(scope, root, path, t);
    if !ok { return Invalid; }
    hide Prefix, Segment, SearchAbove, Segments, Sub, InMemory, WellFormed;
    var cur: Node := start;
    assert path[|path|..] == [];
    while cursor < |path|
      invariant 0 <= cursor <= |path| && In(t, cur) && InMemory(t) && WellFormed(t)
      invariant Resolve(t, scope, path, mayRise) == Segments(t, scope, cur, path[cursor..], single, mayRise)
      decreases |path| - cursor
    {
      var from := if path[cursor] == '.' then cursor + 1 else cursor;
      assert path[from..] == if path[cursor..][0] == '.' then path[cursor..][1..] else path[cursor..];
      var name, next := SegmentToName(path, from, t);
      OneSegment(t, scope, cur, path[cursor..], single, mayRise, name, path[next..]);
      single := single && next == |path|;
      var c := FindSubNode(cur, name, t);
      if c == null {
        if !mayRise || !single { return NotFound; }
        c := SearchAboveScope(scope, name, t);
        return if c == null then NotFound else Found(c);
      }
      cur, cursor := c, next;
    }
    EndOfPath(t, scope, cur, single, mayRise);
    return Found(cur);
  }

  lemma EndOfPath(t: Tree, scope: Node, n: Node, single: bool, mayRise: bool)
    requires WellFormed(t) && In(t, n) && In(t, scope)
    ensures Segments(t, scope, n, [], single, mayRise) == Found(n)
  {}
}
