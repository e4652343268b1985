/**
 The intrusive list that links the operation regions sharing a handler.
 */
module RegionList {

  class Handler {
    var regions: Region?
    var refs: nat
  }

  class Region {
    var handler: Handler?
    var next: Region?
  }

  /** `list` is the chain of regions that starts at `first`. */
  ghost predicate Chain(first: Region?, list: seq<Region>)
    reads list`next
  {
    && (if list == [] then first == null else first == list[0] && list[|list|-1].next == null)
    && (forall i :: 0 <= i < |list| - 1 ==> list[i].next == list[i+1])
    && (forall i, j :: 0 <= i < j < |list| ==> list[i] != list[j])
  }

  function Without<T(==)>(list: seq<T>, x: T): seq<T> {
    if list == [] then [] else if list[0] == x then list[1..] else [list[0]] + Without(list[1..], x)
  }

  lemma {:induction false} WithoutAt<T>(list: seq<T>, i: nat)
    requires i < |list| && list[i] !in list[..i]
    ensures Without(list, list[i]) == list[..i] + list[i+1..]
  {
    if i > 0 {
      assert list[1..][..i-1] == list[..i][1..];
      WithoutAt(list[1..], i - 1);
    }
  }

  method InstallHandler(region: Region, handler: Handler, ghost list: seq<Region>)
    requires Chain(handler.regions, list) && region !in list
    modifies region, handler
    ensures region.handler == handler && Chain(handler.regions, [region] + list) && handler.refs == old(handler.refs) + 1
  {
    region.handler := handler;
    handler.refs := handler.refs + 1;
    region.next := handler.regions;
    handler.regions := region;
  }

  /** The region before `region`; `region` itself if it is the first, null if it is
      not linked at all. */
  method FindPreviousLink(region: Region, handler: Handler, ghost list: seq<Region>) returns (link: Region?, ghost at: nat)
    requires list != [] && Chain(handler.regions, list)
    ensures link == null <==> region !in list
    ensures link == region <==> region == list[0]
    ensures link != null && link != region ==> at + 1 < |list| && list[at] == link && list[at + 1] == region
  {
    link := handler.regions;
    at := 0;
    if link == region { return; }
    while link.next != region
      invariant 0 <= at < |list| && link == list[at] && region !in list[..at+1]
      decreases |list| - at
    {
      assert if at == |list| - 1 then list[..at+1] == list else link.next == list[at+1];
      link := link.next;
      if link == null { return; }
      at := at + 1;
    }
    assert list[at + 1] == region;
  }

  /** Takes the region out of the handler's list. */
  method Unlink(region: Region, handler: Handler, ghost list: seq<Region>)
    requires list != [] && Chain(handler.regions, list)
    modifies handler`regions, list`next
    ensures Chain(handler.regions, Without(list, region))
  {
    var link, at := FindPreviousLink(region, handler, list);
    if link == null {
      NotThere(list, region);
    } else if link == region {
      handler.regions := link.next;
    } else {
      WithoutAt(list, at + 1);
      link.next := region.next;
    }
  }

  /** Uninstalling takes the region out of its handler's list and nothing else. */
  method UninstallHandler(region: Region, ghost list: seq<Region>)
    requires region.handler != null ==> list != [] && Chain(region.handler.regions, list) && region.handler.refs > 0
    modifies region`handler, region.handler, list`next
    ensures region.handler == null
    ensures old(region.handler) != null ==> Chain(old(region.handler).regions, Without(list, region))
    ensures old(region.handler) != null ==> old(region.handler).refs == old(region.handler.refs) - 1
  {
    var handler := region.handler;
    if handler == null { return; }
    hide Chain, Without;
    Unlink(region, handler, list);
    handler.refs := handler.refs - 1;
    region.handler := null;
  }

  lemma {:induction false} NotThere<T>(list: seq<T>, x: T)
    requires x !in list
    ensures Without(list, x) == list
  {
    if list != [] { NotThere(list[1..], x); }
  }
}

/**
 Which handler serves which operation region.  Handlers are attached to devices,
 one per address space; each region caches the handler it was bound to, and each
 handler is kept alive by its device's list and by the regions bound to it.
 */
module OpRegion {
  import opened Common
  import opened Namespace
  import opened NamespaceWalk
  import opened RegionList

  type Space = nat
  type Id = nat  // a handler, by its address

  const OPERATION_REGION: ObjectType := 10
  const HOLDERS: set<ObjectType> := {6, 12, 13}  // device, processor, thermal zone
  const MAX_DEPTH_ANY: nat := 0xFFFF_FFFF

  predicate IsRegion(n: Node) { n.kind == Some(OPERATION_REGION) }

  /** Devices, processors and thermal zones keep a list of handlers; so does the root. */
  predicate Holds(n: Node) { n.kind.Some? && n.kind.value in HOLDERS }

  datatype Handlers = Handlers(
    own: map<(Node, Space), Id>,    // the handler a device installed for a space
    bound: map<Node, Id>,           // the handler cached by a region
    regions: map<Id, seq<Node>>,    // the list of regions linked to a live handler
    refs: map<Id, nat>)             // the reference count of a live handler

  function Bound(s: Handlers, n: Node): Option<Id> { if n in s.bound then Some(s.bound[n]) else None }

  function Own(s: Handlers, n: Node, sp: Space): Option<Id> {
    if (n, sp) in s.own then Some(s.own[(n, sp)]) else None
  }

  function Regions(s: Handlers, h: Id): seq<Node> { if h in s.regions then s.regions[h] else [] }

  function Refs(s: Handlers, h: Id): nat { if h in s.refs then s.refs[h] else 0 }

  // -- Binding one region --------------------------------------------------------

  function Unref(s: Handlers, h: Id): Handlers {
    if Refs(s, h) <= 1 then s.(refs := s.refs - {h}, regions := s.regions - {h})
    else s.(refs := s.refs[h := s.refs[h] - 1])
  }

  function Bind(s: Handlers, n: Node, h: Id): Handlers {
    s.(bound := s.bound[n := h],
       refs := s.refs[h := Refs(s, h) + 1],
       regions := s.regions[h := [n] + Regions(s, h)])
  }

  function Unbind(s: Handlers, n: Node): Handlers {
    if n !in s.bound then s
    else
      var h := s.bound[n];
      Unref(s.(bound := s.bound - {n}, regions := s.regions[h := Without(Regions(s, h), n)]), h)
  }

  ghost predicate NoDup(list: seq<Node>) { list != [] ==> list[0] !in list[1..] && NoDup(list[1..]) }

  function Installed(s: Handlers, h: Id): nat { if h in s.own.Values then 1 else 0 }

  /** A handler's list is exactly the regions bound to it. */
  ghost predicate Lists(bound: map<Node, Id>, list: seq<Node>, h: Id) {
    && NoDup(list)
    && (forall n :: n in list ==> n in bound && bound[n] == h)
    && (forall n :: n in bound && bound[n] == h ==> n in list)
  }

  ghost predicate Listed(s: Handlers, h: Id)
    requires h in s.regions
  {
    Lists(s.bound, s.regions[h], h)
  }

  /** A handler counts its regions, and its device while that holds it. */
  predicate Counted(s: Handlers, h: Id)
    requires h in s.regions && h in s.refs
  {
    s.refs[h] == |s.regions[h]| + Installed(s, h) && s.refs[h] > 0
  }

  /** Conservation: every live handler is accounted for, nothing refers to a freed one. */
  ghost predicate Ledger(s: Handlers) {
    && s.refs.Keys == s.regions.Keys
    && (forall h :: h in s.regions ==> Listed(s, h) && Counted(s, h))
    && (forall n :: n in s.bound ==> s.bound[n] in s.regions)
    && (forall at :: at in s.own ==> s.own[at] in s.refs)
  }

  lemma {:induction false} WithoutOne(list: seq<Node>, x: Node)
    requires NoDup(list) && x in list
    ensures NoDup(Without(list, x)) && |Without(list, x)| == |list| - 1
    ensures forall y :: y in Without(list, x) <==> y in list && y != x
  {
    if list[0] != x { WithoutOne(list[1..], x); }
  }

  lemma ListsWithout(bound: map<Node, Id>, list: seq<Node>, h: Id, n: Node)
    requires Lists(bound, list, h) && n in bound
    ensures Lists(bound - {n}, if bound[n] == h then Without(list, n) else list, h)
  {
    if bound[n] == h {
      WithoutOne(list, n);
      var l := Without(list, n);
      assert NoDup(l);
      forall m | m in l ensures m in list && m != n {}
      forall m | m in bound - {n} && bound[m] == h ensures m in l {}
      assert Lists(bound - {n}, l, h);
    }
  }

  lemma UnbindCounted(s: Handlers, n: Node, h: Id)
    requires Ledger(s) && n in s.bound && h in Unbind(s, n).regions
    ensures h in Unbind(s, n).refs && Counted(Unbind(s, n), h)
  {
    assert Listed(s, h) && Counted(s, h);
    if h == s.bound[n] { WithoutOne(s.regions[h], n); }
  }

  lemma UnbindKeeps(s: Handlers, n: Node)
    requires Ledger(s)
    ensures Ledger(Unbind(s, n)) && n !in Unbind(s, n).bound
  {
    if n in s.bound {
      var t := Unbind(s, n);
      forall h | h in t.regions ensures h in t.refs && Listed(t, h) && Counted(t, h) {
        ListsWithout(s.bound, s.regions[h], h, n);
        UnbindCounted(s, n, h);
      }
      var h := s.bound[n];
      assert Listed(s, h) && Counted(s, h);
      WithoutOne(s.regions[h], n);
    }
  }

  lemma BindKeeps(s: Handlers, n: Node, h: Id)
    requires Ledger(s) && n !in s.bound && h in s.refs
    ensures Ledger(Bind(s, n, h))
  {
    var t := Bind(s, n, h);
    forall g | g in t.regions ensures g in t.refs && Listed(t, g) && Counted(t, g) {
      assert Listed(s, g) && Counted(s, g);
      assert n !in s.regions[g];
    }
  }

  // -- Walking the subtree below a device ------------------------------------------

  /** What the walk is asked to do: bind regions of a space to a handler, or unbind. */
  datatype Job = Job(install: bool, space: Space, handler: Id)

  predicate Shadows(s: Handlers, n: Node, sp: Space) { !IsRegion(n) && Holds(n) && (n, sp) in s.own }

  function Handle(s: Handlers, n: Node, job: Job): Handlers {
    if !IsRegion(n) || n.space != job.space then s
    else if job.install then Bind(Unbind(s, n), n, job.handler)
    else if Bound(s, n) != Some(job.handler) then s
    else Unbind(s, n)
  }

  function Visitor(job: Job): Callback<Handlers> {
    (s: Handlers, n: Node, depth: nat) =>
      (Handle(s, n, job), if Shadows(s, n, job.space) then NextPeer else Continue)
  }

  /** Every object type, any depth. */
  function Everything(job: Job, types: set<ObjectType>): Query<Handlers> {
    Query(Some(Visitor(job)), None, types, MAX_DEPTH_ANY, job.install)
  }

  /** The effect of the walk: every region not behind a device that has its own
      handler for the space. */
  function Sweep(s: Handlers, f: Forest, job: Job): Handlers
    decreases f
  {
    if f.Nil? then s
    else
      var s1 := Handle(s, f.node, job);
      Sweep(if Shadows(s, f.node, job.space) then s1 else Sweep(s1, f.kids, job), f.rest, job)
  }

  function Height(f: Forest): nat {
    if f.Nil? then 0 else if Height(f.kids) + 1 > Height(f.rest) then Height(f.kids) + 1 else Height(f.rest)
  }

  /** All nodes carry an object of a known type and outlive the call that made them. */
  ghost predicate Permanent(f: Forest, types: set<ObjectType>) {
    f.Cons? ==>
      && f.node.kind.Some? && f.node.kind.value in types && !f.node.temporary
      && Permanent(f.kids, types) && Permanent(f.rest, types)
  }

  lemma {:induction false} WalkSweeps(f: Forest, job: Job, types: set<ObjectType>, depth: nat, w: Walk<Handlers>)
    requires Permanent(f, types) && w.stop == Going && depth + Height(f) <= MAX_DEPTH_ANY + 1
    ensures WalkForest(Everything(job, types), f, depth, w).stop == Going
    ensures WalkForest(Everything(job, types), f, depth, w).user == Sweep(w.user, f, job)
    decreases f
  {
    if f.Cons? {
      var q := Everything(job, types);
      var (w1, d) := Visit(q, w, f.node, depth, false);
      assert w1.user == Handle(w.user, f.node, job) && w1.stop == Going;
      assert d == if Shadows(w.user, f.node, job.space) then NextPeer else Continue;
      if d.Continue? && f.kids.Cons? { WalkSweeps(f.kids, job, types, depth + 1, w1); }
      var w2 := if Descends(q, d, depth, f.kids) then WalkForest(q, f.kids, depth + 1, w1) else w1;
      var w3 := Visit(q, w2, f.node, depth, true).0;
      assert w3.user == w2.user && w3.stop == Going;
      WalkSweeps(f.rest, job, types, depth, w3);
    }
  }

  // -- Every region is served by its nearest handler -------------------------------

  /** The handler seen from below node `n`, given the one seen at it. */
  function Below(s: Handlers, n: Node, sp: Space, env: Option<Id>): Option<Id> {
    if Shadows(s, n, sp) then Own(s, n, sp) else env
  }

  /** Every region of the space in `f` is bound to its nearest handler, where `env`
      is the one above `f`; unless `exact`, it may also be bound to none. */
  ghost predicate Served(s: Handlers, f: Forest, sp: Space, env: Option<Id>, exact: bool) {
    f.Cons? ==>
      && (IsRegion(f.node) && f.node.space == sp ==> Bound(s, f.node) == env || (!exact && Bound(s, f.node).None?))
      && Served(s, f.kids, sp, Below(s, f.node, sp, env), exact)
      && Served(s, f.rest, sp, env, exact)
  }

  /** Two states agree on a set of nodes, as far as a space is concerned. */
  ghost predicate Same(s: Handlers, t: Handlers, ns: set<Node>, sp: Space) {
    forall n :: n in ns ==> Own(s, n, sp) == Own(t, n, sp) && (n.space == sp ==> Bound(s, n) == Bound(t, n))
  }

  lemma SameSub(s: Handlers, t: Handlers, big: set<Node>, small: set<Node>, sp: Space)
    requires Same(s, t, big, sp) && small <= big
    ensures Same(s, t, small, sp)
  {}

  lemma SameAt(s: Handlers, t: Handlers, ns: set<Node>, n: Node, sp: Space, env: Option<Id>)
    requires Same(s, t, ns, sp) && n in ns
    ensures Below(s, n, sp, env) == Below(t, n, sp, env)
    ensures n.space == sp ==> Bound(s, n) == Bound(t, n)
  {
    assert Own(s, n, sp) == Own(t, n, sp);
  }

  lemma {:induction false} ServedFrame(s: Handlers, t: Handlers, f: Forest, sp: Space, env: Option<Id>, exact: bool)
    requires Served(s, f, sp, env, exact) && Same(s, t, Nodes(f), sp)
    ensures Served(t, f, sp, env, exact)
  {
    hide Same;
    if f.Cons? {
      SameAt(s, t, Nodes(f), f.node, sp, env);
      SameSub(s, t, Nodes(f), Nodes(f.kids), sp);
      SameSub(s, t, Nodes(f), Nodes(f.rest), sp);
      ServedFrame(s, t, f.kids, sp, Below(s, f.node, sp, env), exact);
      ServedFrame(s, t, f.rest, sp, env, exact);
    }
  }

  lemma HandleFrame(s: Handlers, n: Node, job: Job, m: Node)
    ensures Handle(s, n, job).own == s.own
    ensures m != n || m.space != job.space ==> Bound(Handle(s, n, job), m) == Bound(s, m)
  {}

  /** The walk leaves other nodes, other spaces and the devices' own lists alone. */
  lemma {:induction false} SweepFrame(s: Handlers, f: Forest, job: Job, m: Node)
    ensures Sweep(s, f, job).own == s.own
    ensures m !in Nodes(f) || m.space != job.space ==> Bound(Sweep(s, f, job), m) == Bound(s, m)
    decreases f
  {
    if f.Cons? {
      HandleFrame(s, f.node, job, m);
      var s1 := Handle(s, f.node, job);
      SweepFrame(s1, f.kids, job, m);
      SweepFrame(if Shadows(s, f.node, job.space) then s1 else Sweep(s1, f.kids, job), f.rest, job, m);
    }
  }

  lemma SweepSame(s: Handlers, f: Forest, job: Job, ns: set<Node>, sp: Space)
    requires ns !! Nodes(f) || sp != job.space
    ensures Same(s, Sweep(s, f, job), ns, sp)
  {
    forall n | n in ns ensures Own(s, n, sp) == Own(Sweep(s, f, job), n, sp) && (n.space == sp ==> Bound(s, n) == Bound(Sweep(s, f, job), n)) {
      SweepFrame(s, f, job, n);
    }
  }

  lemma HandleSame(s: Handlers, n: Node, job: Job, ns: set<Node>, sp: Space)
    requires n !in ns || sp != job.space
    ensures Same(s, Handle(s, n, job), ns, sp)
  {
    forall m | m in ns ensures Own(s, m, sp) == Own(Handle(s, n, job), m, sp) && (m.space == sp ==> Bound(s, m) == Bound(Handle(s, n, job), m)) {
      HandleFrame(s, n, job, m);
    }
  }

  /** What one region looks like after the walk has seen it. */
  lemma HandleBinds(s: Handlers, n: Node, job: Job)
    requires IsRegion(n) && n.space == job.space
    requires !job.install ==> Bound(s, n) in {None, Some(job.handler)}
    ensures Bound(Handle(s, n, job), n) == if job.install then Some(job.handler) else None
  {}

  /** After the walk every region of the space below the device is served by the new
      handler or, when uninstalling, by none. */
  lemma {:induction false} SweepServes(s: Handlers, f: Forest, job: Job, env: Option<Id>, exact: bool)
    requires Distinct(f) && Served(s, f, job.space, env, exact)
    requires !job.install ==> env == Some(job.handler)
    ensures Served(Sweep(s, f, job), f, job.space, if job.install then Some(job.handler) else None, exact)
    decreases f
  {
    if f.Cons? {
      var sp, env' := job.space, if job.install then Some(job.handler) else None;
      var s1 := Handle(s, f.node, job);
      if IsRegion(f.node) && f.node.space == sp { HandleBinds(s, f.node, job); }
      HandleSame(s, f.node, job, Nodes(f.kids), sp);
      HandleSame(s, f.node, job, Nodes(f.rest), sp);
      HandleFrame(s, f.node, job, f.node);
      ServedFrame(s, s1, f.kids, sp, Below(s, f.node, sp, env), exact);
      ServedFrame(s, s1, f.rest, sp, env, exact);
      var s2 := if Shadows(s, f.node, sp) then s1 else Sweep(s1, f.kids, job);
      if !Shadows(s, f.node, sp) { SweepServes(s1, f.kids, job, env, exact); }
      SweepSame(s1, f.kids, job, Nodes(f.rest), sp);
      ServedFrame(s1, s2, f.rest, sp, env, exact);
      SweepServes(s2, f.rest, job, env, exact);
      SweepSame(s2, f.rest, job, Nodes(f.kids), sp);
      SweepSame(s2, f.rest, job, {f.node}, sp);
      SweepSame(s1, f.kids, job, {f.node}, sp);
      var t := Sweep(s2, f.rest, job);
      ServedFrame(s2, t, f.kids, sp, Below(s, f.node, sp, env'), exact);
      assert Same(s2, t, {f.node}, sp) && Same(s1, s2, {f.node}, sp);
      SweepFrame(s2, f.rest, job, f.node);
      SweepFrame(s1, f.kids, job, f.node);
    }
  }

  // -- Reference counts through a walk ----------------------------------------------

  predicate Home(s: Handlers, at: (Node, Space), h: Id) { at in s.own && s.own[at] == h }

  lemma HandleKeeps(s: Handlers, n: Node, job: Job, at: (Node, Space))
    requires Ledger(s) && Home(s, at, job.handler)
    ensures Ledger(Handle(s, n, job)) && Home(Handle(s, n, job), at, job.handler)
  {
    UnbindKeeps(s, n);
    if job.install && IsRegion(n) && n.space == job.space { BindKeeps(Unbind(s, n), n, job.handler); }
  }

  lemma {:induction false} SweepKeeps(s: Handlers, f: Forest, job: Job, at: (Node, Space))
    requires Ledger(s) && Home(s, at, job.handler)
    ensures Ledger(Sweep(s, f, job)) && Home(Sweep(s, f, job), at, job.handler)
    decreases f
  {
    if f.Cons? {
      HandleKeeps(s, f.node, job, at);
      var s1 := Handle(s, f.node, job);
      SweepKeeps(s1, f.kids, job, at);
      SweepKeeps(if Shadows(s, f.node, job.space) then s1 else Sweep(s1, f.kids, job), f.rest, job, at);
    }
  }

  // -- Changing what one device offers ------------------------------------------------

  lemma {:induction false} FindInside(f: Forest, d: Node)
    requires Distinct(f)
    ensures Nodes(Find(f, d)) <= Nodes(f) && d !in Nodes(Find(f, d)) && Distinct(Find(f, d))
    ensures Height(Find(f, d)) <= Height(f)
  {
    if f.Cons? { FindInside(f.kids, d); FindInside(f.rest, d); }
  }

  /** The handler seen from directly below node `p`. */
  ghost function SeenBelow(s: Handlers, f: Forest, p: Node, sp: Space, env: Option<Id>): Option<Id> {
    if f.Nil? then env
    else if f.node == p then Below(s, p, sp, env)
    else if p in Nodes(f.kids) then SeenBelow(s, f.kids, p, sp, Below(s, f.node, sp, env))
    else SeenBelow(s, f.rest, p, sp, env)
  }

  lemma {:induction false} ServedAt(s: Handlers, f: Forest, d: Node, sp: Space, env: Option<Id>, exact: bool)
    requires d in Nodes(f) && Served(s, f, sp, env, exact)
    ensures Served(s, Find(f, d), sp, SeenBelow(s, f, d, sp, env), exact)
    decreases f
  {
    if f.node == d {
    } else if d in Nodes(f.kids) {
      ServedAt(s, f.kids, d, sp, Below(s, f.node, sp, env), exact);
    } else {
      ServedAt(s, f.rest, d, sp, env, exact);
    }
  }

  /** Whatever is seen at `d`, the forest below it is served. */
  ghost predicate ServedBelow(s: Handlers, f: Forest, d: Node, sp: Space, exact: bool) {
    forall e :: Served(s, f, sp, Below(s, d, sp, e), exact)
  }

  /** Outside `ns` there is only `d` and what lies below it. */
  ghost predicate Spares(f: Forest, d: Node, ns: set<Node>) {
    d in Nodes(f) && forall n :: n in Nodes(f) ==> n in ns || n == d || n in Nodes(Find(f, d))
  }

  lemma SparesInside(f: Forest, d: Node, ns: set<Node>)
    requires Distinct(f) && Spares(f, d, ns)
    ensures f.node != d ==> f.node in ns
    ensures f.node != d && d in Nodes(f.kids) ==> Spares(f.kids, d, ns) && Find(f, d) == Find(f.kids, d)
    ensures f.node != d && d !in Nodes(f.kids) ==> Spares(f.rest, d, ns) && Find(f, d) == Find(f.rest, d)
    ensures d !in Nodes(f.rest) ==> Nodes(f.rest) <= ns
    ensures d !in Nodes(f.kids) && f.node != d ==> Nodes(f.kids) <= ns
  {
    FindInside(f.kids, d);
    FindInside(f.rest, d);
  }

  /** Changing one device's handler only has to be right below that device. */
  lemma {:induction false} ServedReplace(s: Handlers, t: Handlers, f: Forest, d: Node, sp: Space, env: Option<Id>, exact: bool, ns: set<Node>)
    requires Distinct(f) && Spares(f, d, ns) && !IsRegion(d)
    requires Served(s, f, sp, env, exact) && Same(s, t, ns, sp)
    requires ServedBelow(t, Find(f, d), d, sp, exact)
    ensures Served(t, f, sp, env, exact)
    decreases f
  {
    SparesInside(f, d, ns);
    hide Same, Spares, Find;
    if f.node == d {
      SameSub(s, t, ns, Nodes(f.rest), sp);
      ServedFrame(s, t, f.rest, sp, env, exact);
      BelowTop(t, f, d, sp, env, exact);
    } else {
      hide ServedBelow;
      SameAt(s, t, ns, f.node, sp, env);
      if d in Nodes(f.kids) {
        ServedReplace(s, t, f.kids, d, sp, Below(s, f.node, sp, env), exact, ns);
        SameSub(s, t, ns, Nodes(f.rest), sp);
        ServedFrame(s, t, f.rest, sp, env, exact);
      } else {
        ServedReplace(s, t, f.rest, d, sp, env, exact, ns);
        SameSub(s, t, ns, Nodes(f.kids), sp);
        ServedFrame(s, t, f.kids, sp, Below(s, f.node, sp, env), exact);
      }
    }
  }

  lemma BelowTop(t: Handlers, f: Forest, d: Node, sp: Space, env: Option<Id>, exact: bool)
    requires f.Cons? && f.node == d && ServedBelow(t, Find(f, d), d, sp, exact)
    ensures Served(t, f.kids, sp, Below(t, d, sp, env), exact)
  {}

  /** A forest whose regions of the space are all unbound fits below anything. */
  lemma {:induction false} UnboundFits(s: Handlers, f: Forest, sp: Space, env: Option<Id>)
    requires Served(s, f, sp, None, false)
    ensures Served(s, f, sp, env, false)
  {
    if f.Cons? {
      if !Shadows(s, f.node, sp) { UnboundFits(s, f.kids, sp, Below(s, f.node, sp, env)); }
      UnboundFits(s, f.rest, sp, env);
    }
  }

  // -- The operations ------------------------------------------------------------------

  datatype Outcome = Done | BadDevice | AlreadyExists | NoHandler

  /** A namespace below its root, and the handlers attached to it. */
  datatype System = System(root: Node, tree: Forest, handlers: Handlers)

  ghost function KidsOf(y: System, d: Node): Forest { if d == y.root then y.tree else Find(y.tree, d) }

  predicate Offers(y: System, d: Node) { d == y.root || (!IsRegion(d) && Holds(d)) }

  function Attach(s: Handlers, d: Node, sp: Space, h: Id): Handlers {
    s.(own := s.own[(d, sp) := h], regions := s.regions[h := []], refs := s.refs[h := 1])
  }

  function Detach(s: Handlers, d: Node, sp: Space, h: Id): Handlers {
    Unref(s.(own := s.own - {(d, sp)}), h)
  }

  ghost function Install(y: System, d: Node, sp: Space, h: Id): (Outcome, Handlers) {
    if !Offers(y, d) then (BadDevice, y.handlers)
    else if (d, sp) in y.handlers.own then (AlreadyExists, y.handlers)
    else (Done, Sweep(Attach(y.handlers, d, sp, h), KidsOf(y, d), Job(true, sp, h)))
  }

  ghost function Uninstall(y: System, d: Node, sp: Space): (Outcome, Handlers) {
    if !Offers(y, d) then (BadDevice, y.handlers)
    else if (d, sp) !in y.handlers.own then (NoHandler, y.handlers)
    else
      var h := y.handlers.own[(d, sp)];
      (Done, Detach(Sweep(y.handlers, KidsOf(y, d), Job(false, sp, h)), d, sp, h))
  }

  /** A handler belongs to one device and one space. */
  ghost predicate OneHome(s: Handlers) {
    forall a, b :: a in s.own && b in s.own && s.own[a] == s.own[b] ==> a == b
  }

  ghost predicate AllServed(y: System, exact: bool) {
    forall sp :: Served(y.handlers, y.tree, sp, Own(y.handlers, y.root, sp), exact)
  }

  ghost predicate WellFormed(y: System, types: set<ObjectType>) {
    && y.root !in Nodes(y.tree) && Distinct(y.tree)
    && Permanent(y.tree, types) && Height(y.tree) <= MAX_DEPTH_ANY
  }

  /** Regions are bound and handlers are attached only where the tree has room for them. */
  ghost predicate Placed(y: System) {
    && (forall n :: n in y.handlers.bound ==> n in Nodes(y.tree) && IsRegion(n))
    && (forall at :: at in y.handlers.own ==> Offers(y, at.0) && (at.0 == y.root || at.0 in Nodes(y.tree)))
  }

  ghost predicate Sound(y: System, exact: bool) {
    Ledger(y.handlers) && OneHome(y.handlers) && Placed(y) && AllServed(y, exact)
  }

  lemma AttachKeeps(s: Handlers, d: Node, sp: Space, h: Id)
    requires Ledger(s) && OneHome(s) && (d, sp) !in s.own && h !in s.refs
    ensures Ledger(Attach(s, d, sp, h)) && OneHome(Attach(s, d, sp, h))
  {
    var t := Attach(s, d, sp, h);
    assert t.own[(d, sp)] == h && (d, sp) in t.own;
    forall g | g in t.regions ensures g in t.refs && Listed(t, g) && Counted(t, g) {
      if g != h {
        assert Listed(s, g) && Counted(s, g);
        ValuesAfterAttach(s.own, (d, sp), h, g);
      }
    }
  }

  lemma ValuesAfterAttach(own: map<(Node, Space), Id>, at: (Node, Space), h: Id, g: Id)
    requires at !in own && g != h
    ensures g in own[at := h].Values <==> g in own.Values
  {
    if g in own.Values {
      var k :| k in own && own[k] == g;
      assert own[at := h][k] == g;
    }
  }

  lemma ValuesAfterDetach(own: map<(Node, Space), Id>, at: (Node, Space), g: Id)
    requires at in own && forall a, b :: a in own && b in own && own[a] == own[b] ==> a == b
    ensures g in (own - {at}).Values <==> g in own.Values && g != own[at]
  {
    if g in own.Values && g != own[at] {
      var k :| k in own && own[k] == g;
      assert (own - {at})[k] == g;
    }
  }

  lemma SomeListed(bound: map<Node, Id>, list: seq<Node>, h: Id)
    requires Lists(bound, list, h) && list != []
    ensures exists n :: n in bound && bound[n] == h
  {
    assert list[0] in list;
  }

  /** Detaching the last reference frees the handler. */
  lemma DetachKeeps(s: Handlers, d: Node, sp: Space, h: Id)
    requires Ledger(s) && OneHome(s) && Home(s, (d, sp), h) && (forall n :: n in s.bound ==> s.bound[n] != h)
    ensures Ledger(Detach(s, d, sp, h)) && OneHome(Detach(s, d, sp, h)) && h !in Detach(s, d, sp, h).refs
  {
    var t := Detach(s, d, sp, h);
    assert h in s.own.Values;
    assert Listed(s, h) && Counted(s, h);
    if s.regions[h] != [] { SomeListed(s.bound, s.regions[h], h); assert false; }
    forall g | g in t.regions ensures g in t.refs && Listed(t, g) && Counted(t, g) {
      assert Listed(s, g) && Counted(s, g);
      ValuesAfterDetach(s.own, (d, sp), g);
    }
    forall at | at in t.own ensures t.own[at] in t.refs {
      assert s.own[at] in s.refs;
    }
  }

  /** A walk below `d` that also changes what `d` holds touches nothing else. */
  ghost predicate Outside(s: Handlers, t: Handlers, f: Forest, g: Forest, d: Node, sp: Space, at: Space) {
    && (at == sp ==> Same(s, t, Nodes(f) - {d} - Nodes(g), at))
    && (at != sp ==> Same(s, t, Nodes(f), at))
  }

  lemma InstallOutside(s: Handlers, f: Forest, g: Forest, d: Node, job: Job, at: Space)
    ensures Outside(s, Sweep(Attach(s, d, job.space, job.handler), g, job), f, g, d, job.space, at)
  {
    var s1 := Attach(s, d, job.space, job.handler);
    SweepSame(s1, g, job, if at == job.space then Nodes(f) - {d} - Nodes(g) else Nodes(f), at);
  }

  lemma InstallBelow(s: Handlers, g: Forest, d: Node, job: Job, env: Option<Id>, exact: bool)
    requires Distinct(g) && d !in Nodes(g) && job.install && Served(s, g, job.space, env, exact)
    ensures var t := Sweep(Attach(s, d, job.space, job.handler), g, job);
      Own(t, d, job.space) == Some(job.handler) && Served(t, g, job.space, Some(job.handler), exact)
  {
    var s1 := Attach(s, d, job.space, job.handler);
    assert Same(s, s1, Nodes(g), job.space);
    ServedFrame(s, s1, g, job.space, env, exact);
    SweepServes(s1, g, job, env, exact);
    SweepFrame(s1, g, job, d);
  }

  /** Installing serves the whole tree, in every space. */
  lemma InstallServed(y: System, d: Node, job: Job, at: Space, exact: bool)
    requires Distinct(y.tree) && y.root !in Nodes(y.tree) && (d == y.root || d in Nodes(y.tree)) && Offers(y, d)
    requires job.install && Served(y.handlers, y.tree, at, Own(y.handlers, y.root, at), exact)
    ensures var t := Sweep(Attach(y.handlers, d, job.space, job.handler), KidsOf(y, d), job);
      Served(t, y.tree, at, Own(t, y.root, at), exact)
  {
    var s, g, env := y.handlers, KidsOf(y, d), Own(y.handlers, y.root, at);
    var t := Sweep(Attach(s, d, job.space, job.handler), g, job);
    FindInside(y.tree, d);
    InstallOutside(s, y.tree, g, d, job, at);
    SweepFrame(Attach(s, d, job.space, job.handler), g, job, d);
    if at != job.space {
      ServedFrame(s, t, y.tree, at, env, exact);
    } else if d == y.root {
      InstallBelow(s, g, d, job, env, exact);
    } else {
      ServedAt(s, y.tree, d, at, env, exact);
      InstallBelow(s, g, d, job, SeenBelow(s, y.tree, d, at, env), exact);
      ServedReplace(s, t, y.tree, d, at, env, exact, Nodes(y.tree) - {d} - Nodes(g));
    }
  }

  lemma {:induction false} SweepBound(s: Handlers, f: Forest, job: Job, m: Node)
    requires m in Sweep(s, f, job).bound
    ensures m in s.bound || (m in Nodes(f) && IsRegion(m))
    decreases f
  {
    if f.Cons? {
      var s1 := Handle(s, f.node, job);
      var s2 := if Shadows(s, f.node, job.space) then s1 else Sweep(s1, f.kids, job);
      SweepBound(s2, f.rest, job, m);
      if m in s2.bound && m !in s1.bound { SweepBound(s1, f.kids, job, m); }
      if m in s1.bound { HandleFrame(s, f.node, job, m); }
    }
  }

  lemma InstallPlaced(y: System, d: Node, job: Job)
    requires Placed(y) && Distinct(y.tree) && (d == y.root || d in Nodes(y.tree)) && Offers(y, d)
    ensures Placed(y.(handlers := Sweep(Attach(y.handlers, d, job.space, job.handler), KidsOf(y, d), job)))
  {
    var s1 := Attach(y.handlers, d, job.space, job.handler);
    var t := Sweep(s1, KidsOf(y, d), job);
    FindInside(y.tree, d);
    SweepFrame(s1, KidsOf(y, d), job, d);
    forall n | n in t.bound ensures n in Nodes(y.tree) && IsRegion(n) { SweepBound(s1, KidsOf(y, d), job, n); }
  }

  /** Installing a handler keeps every region with its nearest handler, and the counts. */
  lemma InstallKeeps(y: System, d: Node, sp: Space, h: Id, types: set<ObjectType>, exact: bool)
    requires WellFormed(y, types) && Sound(y, exact) && (d == y.root || d in Nodes(y.tree)) && h !in y.handlers.refs
    ensures Sound(y.(handlers := Install(y, d, sp, h).1), exact)
  {
    if Install(y, d, sp, h).0.Done? {
      var job := Job(true, sp, h);
      hide Placed, Ledger;
      var s1 := Attach(y.handlers, d, sp, h);
      AttachKeeps(y.handlers, d, sp, h);
      SweepKeeps(s1, KidsOf(y, d), job, (d, sp));
      SweepFrame(s1, KidsOf(y, d), job, d);
      InstallPlaced(y, d, job);
      forall at { InstallServed(y, d, job, at, exact); }
    }
  }

  // -- Uninstalling ---------------------------------------------------------------------

  lemma UninstallOutside(s: Handlers, f: Forest, g: Forest, d: Node, job: Job, at: Space)
    ensures Outside(s, Detach(Sweep(s, g, job), d, job.space, job.handler), f, g, d, job.space, at)
  {
    SweepSame(s, g, job, if at == job.space then Nodes(f) - {d} - Nodes(g) else Nodes(f), at);
  }

  lemma UninstallBelow(s: Handlers, g: Forest, d: Node, job: Job, env: Option<Id>)
    requires Distinct(g) && d !in Nodes(g) && !job.install && Served(s, g, job.space, Some(job.handler), false)
    ensures var t := Detach(Sweep(s, g, job), d, job.space, job.handler);
      Own(t, d, job.space) == None && Served(t, g, job.space, env, false)
  {
    var s1 := Sweep(s, g, job);
    var t := Detach(s1, d, job.space, job.handler);
    SweepServes(s, g, job, Some(job.handler), false);
    assert Same(s1, t, Nodes(g), job.space);
    ServedFrame(s1, t, g, job.space, None, false);
    UnboundFits(t, g, job.space, env);
  }

  lemma UninstallServed(y: System, d: Node, job: Job, at: Space)
    requires Distinct(y.tree) && y.root !in Nodes(y.tree) && (d == y.root || d in Nodes(y.tree)) && Offers(y, d)
    requires !job.install && Home(y.handlers, (d, job.space), job.handler)
    requires Served(y.handlers, y.tree, at, Own(y.handlers, y.root, at), false)
    ensures var t := Detach(Sweep(y.handlers, KidsOf(y, d), job), d, job.space, job.handler);
      Served(t, y.tree, at, Own(t, y.root, at), false)
  {
    var s, g, env := y.handlers, KidsOf(y, d), Own(y.handlers, y.root, at);
    var t := Detach(Sweep(s, g, job), d, job.space, job.handler);
    FindInside(y.tree, d);
    UninstallOutside(s, y.tree, g, d, job, at);
    SweepFrame(s, g, job, d);
    if at != job.space {
      ServedFrame(s, t, y.tree, at, env, false);
    } else if d == y.root {
      UninstallBelow(s, g, d, job, None);
    } else {
      ServedAt(s, y.tree, d, at, env, false);
      SeenAtHome(s, y.tree, d, at, env);
      forall e ensures Served(t, g, at, Below(t, d, at, e), false) { UninstallBelow(s, g, d, job, e); }
      ServedReplace(s, t, y.tree, d, at, env, false, Nodes(y.tree) - {d} - Nodes(g));
    }
  }

  /** Below a device with its own handler, that handler is what is seen. */
  lemma {:induction false} SeenAtHome(s: Handlers, f: Forest, d: Node, sp: Space, env: Option<Id>)
    requires d in Nodes(f) && Shadows(s, d, sp)
    ensures SeenBelow(s, f, d, sp, env) == Own(s, d, sp)
    decreases f
  {
    if f.node != d {
      if d in Nodes(f.kids) { SeenAtHome(s, f.kids, d, sp, Below(s, f.node, sp, env)); } else { SeenAtHome(s, f.rest, d, sp, env); }
    }
  }

  /** A region bound to a handler lies below the device that holds it. */
  lemma {:induction false} BoundSeesHome(s: Handlers, f: Forest, sp: Space, env: Option<Id>, n: Node)
    requires Distinct(f) && n in Nodes(f) && IsRegion(n) && n.space == sp && n in s.bound && Served(s, f, sp, env, false)
    ensures Bound(s, n) == env || exists d :: d in Nodes(f) && Own(s, d, sp) == Bound(s, n)
    decreases f
  {
    if f.node != n {
      if n in Nodes(f.kids) {
        BoundSeesHome(s, f.kids, sp, Below(s, f.node, sp, env), n);
        assert f.node in Nodes(f);
      } else {
        BoundSeesHome(s, f.rest, sp, env, n);
      }
    }
  }

  /** After uninstalling, no region is left with the handler. */
  lemma UninstallClears(y: System, d: Node, job: Job, n: Node)
    requires Distinct(y.tree) && y.root !in Nodes(y.tree) && (d == y.root || d in Nodes(y.tree)) && Offers(y, d)
    requires !job.install && Home(y.handlers, (d, job.space), job.handler)
    requires OneHome(y.handlers) && Placed(y) && AllServed(y, false)
    requires n in Sweep(y.handlers, KidsOf(y, d), job).bound
    ensures Sweep(y.handlers, KidsOf(y, d), job).bound[n] != job.handler
    ensures n in Nodes(y.tree) && IsRegion(n)
  {
    var s1 := Sweep(y.handlers, KidsOf(y, d), job);
    var t := Detach(s1, d, job.space, job.handler);
    FindInside(y.tree, d);
    SweepBound(y.handlers, KidsOf(y, d), job, n);
    SweepFrame(y.handlers, KidsOf(y, d), job, n);
    UninstallServed(y, d, job, n.space);
    BoundSeesHome(t, y.tree, n.space, Own(t, y.root, n.space), n);
    var home: Node :| Own(t, home, n.space) == Bound(t, n);
    assert t.own == y.handlers.own - {(d, job.space)};
  }

  lemma UninstallPlaced(y: System, d: Node, job: Job)
    requires Distinct(y.tree) && y.root !in Nodes(y.tree) && (d == y.root || d in Nodes(y.tree)) && Offers(y, d)
    requires !job.install && Home(y.handlers, (d, job.space), job.handler)
    requires OneHome(y.handlers) && Placed(y) && AllServed(y, false)
    ensures var s1 := Sweep(y.handlers, KidsOf(y, d), job);
      && (forall n :: n in s1.bound ==> s1.bound[n] != job.handler)
      && Placed(y.(handlers := Detach(s1, d, job.space, job.handler)))
  {
    hide AllServed, OneHome;
    var s1 := Sweep(y.handlers, KidsOf(y, d), job);
    forall n | n in s1.bound ensures s1.bound[n] != job.handler && n in Nodes(y.tree) && IsRegion(n) {
      UninstallClears(y, d, job, n);
    }
    SweepFrame(y.handlers, KidsOf(y, d), job, d);
  }

  /** Uninstalling a handler frees it: its regions are unbound, its count drops to
      zero, and no other region or handler is disturbed. */
  lemma UninstallKeeps(y: System, d: Node, sp: Space, types: set<ObjectType>)
    requires WellFormed(y, types) && Sound(y, false) && (d == y.root || d in Nodes(y.tree))
    ensures Sound(y.(handlers := Uninstall(y, d, sp).1), false)
    ensures Uninstall(y, d, sp).0.Done? ==> y.handlers.own[(d, sp)] !in Uninstall(y, d, sp).1.refs
  {
    if Uninstall(y, d, sp).0.Done? {
      hide Ledger, Placed;
      var job := Job(false, sp, y.handlers.own[(d, sp)]);
      var s1 := Sweep(y.handlers, KidsOf(y, d), job);
      SweepKeeps(y.handlers, KidsOf(y, d), job, (d, sp));
      SweepFrame(y.handlers, KidsOf(y, d), job, d);
      UninstallPlaced(y, d, job);
      DetachKeeps(s1, d, sp, job.handler);
      forall at { UninstallServed(y, d, job, at); }
    }
  }

  // -- New nodes -----------------------------------------------------------------------

  /** A new node goes to the end of its parent's child list. */
  function AtEnd(f: Forest, n: Node): Forest {
    if f.Nil? then Cons(n, Nil, Nil) else Cons(f.node, f.kids, AtEnd(f.rest, n))
  }

  ghost function AddBelow(f: Forest, p: Node, n: Node): Forest {
    if f.Nil? then Nil
    else if f.node == p then Cons(p, AtEnd(f.kids, n), f.rest)
    else if p in Nodes(f.kids) then Cons(f.node, AddBelow(f.kids, p, n), f.rest)
    else Cons(f.node, f.kids, AddBelow(f.rest, p, n))
  }

  /** Binding a new region to the nearest handler above it, if there is one. */
  function BindNearest(s: Handlers, n: Node, seen: Option<Id>): Handlers {
    if IsRegion(n) && seen.Some? then Bind(s, n, seen.value) else s
  }

  ghost function Seen(y: System, p: Node, sp: Space): Option<Id> {
    var env := Own(y.handlers, y.root, sp);
    if p == y.root then env else SeenBelow(y.handlers, y.tree, p, sp, env)
  }

  ghost function Add(y: System, p: Node, n: Node): System {
    y.(tree := if p == y.root then AtEnd(y.tree, n) else AddBelow(y.tree, p, n),
       handlers := BindNearest(y.handlers, n, Seen(y, p, n.space)))
  }

  lemma {:induction false} AtEndShape(f: Forest, n: Node, types: set<ObjectType>)
    requires n !in Nodes(f) && Distinct(f)
    ensures Nodes(AtEnd(f, n)) == Nodes(f) + {n} && Distinct(AtEnd(f, n))
    ensures Permanent(f, types) && n.kind.Some? && n.kind.value in types && !n.temporary ==> Permanent(AtEnd(f, n), types)
  {
    if f.Cons? { AtEndShape(f.rest, n, types); }
  }

  lemma {:induction false} AddBelowShape(f: Forest, p: Node, n: Node, types: set<ObjectType>)
    requires n !in Nodes(f) && Distinct(f) && p in Nodes(f)
    ensures Nodes(AddBelow(f, p, n)) == Nodes(f) + {n} && Distinct(AddBelow(f, p, n))
    ensures Permanent(f, types) && n.kind.Some? && n.kind.value in types && !n.temporary ==> Permanent(AddBelow(f, p, n), types)
  {
    if f.node == p {
      AtEndShape(f.kids, n, types);
    } else if p in Nodes(f.kids) {
      AddBelowShape(f.kids, p, n, types);
    } else {
      AddBelowShape(f.rest, p, n, types);
    }
  }

  /** `t` extends `s` by a node that is bound to what it sees, and holds nothing. */
  ghost predicate Joins(s: Handlers, t: Handlers, ns: set<Node>, n: Node, sp: Space, seen: Option<Id>) {
    Same(s, t, ns, sp) && n !in ns && (IsRegion(n) && n.space == sp ==> Bound(t, n) == seen)
  }

  lemma {:induction false} ServedAtEnd(s: Handlers, t: Handlers, f: Forest, n: Node, sp: Space, env: Option<Id>, exact: bool)
    requires Served(s, f, sp, env, exact) && Joins(s, t, Nodes(f), n, sp, env)
    ensures Served(t, AtEnd(f, n), sp, env, exact)
  {
    if f.Cons? {
      assert f.node in Nodes(f);
      ServedFrame(s, t, f.kids, sp, Below(s, f.node, sp, env), exact);
      ServedAtEnd(s, t, f.rest, n, sp, env, exact);
    }
  }

  lemma {:induction false} ServedAddBelow(s: Handlers, t: Handlers, f: Forest, p: Node, n: Node, sp: Space, env: Option<Id>, exact: bool)
    requires p in Nodes(f) && Served(s, f, sp, env, exact)
    requires Joins(s, t, Nodes(f), n, sp, SeenBelow(s, f, p, sp, env))
    ensures Served(t, AddBelow(f, p, n), sp, env, exact)
    decreases f
  {
    hide Same;
    var inner := Below(s, f.node, sp, env);
    SameAt(s, t, Nodes(f), f.node, sp, env);
    SameSub(s, t, Nodes(f), Nodes(f.kids), sp);
    SameSub(s, t, Nodes(f), Nodes(f.rest), sp);
    if f.node == p {
      ServedAtEnd(s, t, f.kids, n, sp, inner, exact);
      ServedFrame(s, t, f.rest, sp, env, exact);
    } else if p in Nodes(f.kids) {
      ServedAddBelow(s, t, f.kids, p, n, sp, inner, exact);
      ServedFrame(s, t, f.rest, sp, env, exact);
    } else {
      ServedFrame(s, t, f.kids, sp, inner, exact);
      ServedAddBelow(s, t, f.rest, p, n, sp, env, exact);
    }
  }

  lemma {:induction false} SeenLive(s: Handlers, f: Forest, p: Node, sp: Space, env: Option<Id>)
    requires Ledger(s) && (env.Some? ==> env.value in s.refs)
    ensures var seen := SeenBelow(s, f, p, sp, env); seen.Some? ==> seen.value in s.refs
    decreases f
  {
    if f.Cons? {
      SeenLive(s, f.kids, p, sp, Below(s, f.node, sp, env));
      SeenLive(s, f.rest, p, sp, env);
    }
  }

  /** The namespace may grow by this node. */
  ghost predicate Fresh(y: System, p: Node, n: Node, types: set<ObjectType>) {
    && (p == y.root || p in Nodes(y.tree)) && n != y.root && n !in Nodes(y.tree)
    && n.kind.Some? && n.kind.value in types && !n.temporary
    && Height(Add(y, p, n).tree) <= MAX_DEPTH_ANY
  }

  lemma AddShape(y: System, p: Node, n: Node, types: set<ObjectType>)
    requires WellFormed(y, types) && Fresh(y, p, n, types)
    ensures WellFormed(Add(y, p, n), types) && Nodes(Add(y, p, n).tree) == Nodes(y.tree) + {n}
  {
    if p == y.root { AtEndShape(y.tree, n, types); } else { AddBelowShape(y.tree, p, n, types); }
  }

  lemma AddServed(y: System, p: Node, n: Node, types: set<ObjectType>, sp: Space, exact: bool)
    requires WellFormed(y, types) && Fresh(y, p, n, types) && Placed(y) && AllServed(y, exact)
    ensures var y' := Add(y, p, n); Served(y'.handlers, y'.tree, sp, Own(y'.handlers, y'.root, sp), exact)
  {
    var s, t, env := y.handlers, Add(y, p, n).handlers, Own(y.handlers, y.root, sp);
    assert Same(s, t, Nodes(y.tree), sp);
    assert n !in s.bound;
    if p == y.root {
      ServedAtEnd(s, t, y.tree, n, sp, env, exact);
    } else {
      ServedAddBelow(s, t, y.tree, p, n, sp, env, exact);
    }
  }

  lemma AddLedger(y: System, p: Node, n: Node)
    requires Ledger(y.handlers) && n !in y.handlers.bound
    ensures Ledger(Add(y, p, n).handlers)
  {
    var seen := Seen(y, p, n.space);
    SeenLive(y.handlers, y.tree, p, n.space, Own(y.handlers, y.root, n.space));
    if seen.Some? { BindKeeps(y.handlers, n, seen.value); }
  }

  lemma AddPlaced(y: System, p: Node, n: Node)
    requires Placed(y) && n !in Nodes(y.tree) && Nodes(Add(y, p, n).tree) == Nodes(y.tree) + {n}
    ensures n !in y.handlers.bound && Add(y, p, n).handlers.own == y.handlers.own && Placed(Add(y, p, n))
  {}

  /** A new region starts out bound to its nearest handler. */
  lemma AddKeeps(y: System, p: Node, n: Node, types: set<ObjectType>, exact: bool)
    requires WellFormed(y, types) && Sound(y, exact) && Fresh(y, p, n, types)
    ensures WellFormed(Add(y, p, n), types) && Sound(Add(y, p, n), exact)
  {
    hide Ledger, Served, Placed, Height, Add;
    var y' := Add(y, p, n);
    AddShape(y, p, n, types);
    AddPlaced(y, p, n);
    AddLedger(y, p, n);
    forall sp ensures Served(y'.handlers, y'.tree, sp, Own(y'.handlers, y'.root, sp), exact) {
      AddServed(y, p, n, types, sp, exact);
    }
  }

  lemma {:induction false} UnbindServed(s: Handlers, f: Forest, n: Node, sp: Space, env: Option<Id>)
    requires Served(s, f, sp, env, false)
    ensures Served(Unbind(s, n), f, sp, env, false)
  {
    if f.Cons? {
      UnbindServed(s, f.kids, n, sp, Below(s, f.node, sp, env));
      UnbindServed(s, f.rest, n, sp, env);
    }
  }

  lemma UnbindPlaced(y: System, n: Node)
    requires Placed(y)
    ensures Unbind(y.handlers, n).own == y.handlers.own && Placed(y.(handlers := Unbind(y.handlers, n)))
  {}

  lemma DropKeeps(y: System, n: Node)
    requires Sound(y, false)
    ensures Sound(y.(handlers := Unbind(y.handlers, n)), false)
  {
    hide Ledger, Served, Placed, Unbind;
    var t := Unbind(y.handlers, n);
    UnbindKeeps(y.handlers, n);
    UnbindPlaced(y, n);
    forall sp ensures Served(t, y.tree, sp, Own(t, y.root, sp), false) {
      UnbindServed(y.handlers, y.tree, n, sp, Own(y.handlers, y.root, sp));
    }
  }

  // -- Whole runs -----------------------------------------------------------------------

  datatype Action =
    | InstallAt(device: Node, space: Space, id: Id)
    | UninstallAt(device: Node, space: Space)
    | AddNode(parent: Node, node: Node)
    | DropRegion(node: Node)

  /** A new handler does not share the address of a live one. */
  ghost predicate Enabled(y: System, a: Action, types: set<ObjectType>) {
    match a
    case InstallAt(d, _, h) => (d == y.root || d in Nodes(y.tree)) && h !in y.handlers.refs
    case UninstallAt(d, _) => d == y.root || d in Nodes(y.tree)
    case AddNode(p, n) => Fresh(y, p, n, types)
    case DropRegion(n) => n in Nodes(y.tree)
  }

  ghost function Apply(y: System, a: Action): System {
    match a
    case InstallAt(d, sp, h) => y.(handlers := Install(y, d, sp, h).1)
    case UninstallAt(d, sp) => y.(handlers := Uninstall(y, d, sp).1)
    case AddNode(p, n) => Add(y, p, n)
    case DropRegion(n) => y.(handlers := Unbind(y.handlers, n))
  }

  ghost predicate IsRun(run: seq<System>, acts: seq<Action>, types: set<ObjectType>) {
    && |run| == |acts| + 1
    && run[0].handlers == Handlers(map[], map[], map[], map[]) && WellFormed(run[0], types)
    && forall i :: 0 <= i < |acts| ==> Enabled(run[i], acts[i], types) && run[i+1] == Apply(run[i], acts[i])
  }

  predicate Removes(a: Action) { a.UninstallAt? || a.DropRegion? }

  lemma {:induction false} NothingBound(f: Forest, sp: Space)
    ensures Served(Handlers(map[], map[], map[], map[]), f, sp, None, true)
  {
    if f.Cons? { NothingBound(f.kids, sp); NothingBound(f.rest, sp); }
  }

  lemma {:induction false} ExactIsServed(s: Handlers, f: Forest, sp: Space, env: Option<Id>)
    requires Served(s, f, sp, env, true)
    ensures Served(s, f, sp, env, false)
  {
    if f.Cons? { ExactIsServed(s, f.kids, sp, Below(s, f.node, sp, env)); ExactIsServed(s, f.rest, sp, env); }
  }

  /** Starting from a namespace without handlers, at every point of every run: each
      region is bound to its nearest handler or to none, and exactly to the nearest
      as long as nothing was removed; the lists and the counts agree throughout. */
  lemma {:induction false} RunServes(run: seq<System>, acts: seq<Action>, types: set<ObjectType>, i: nat, exact: bool)
    requires IsRun(run, acts, types) && i < |run|
    requires exact ==> forall k :: 0 <= k < i ==> !Removes(acts[k])
    ensures WellFormed(run[i], types) && Sound(run[i], exact)
  {
    if i == 0 {
      var y := run[0];
      forall sp ensures Served(y.handlers, y.tree, sp, Own(y.handlers, y.root, sp), exact) {
        NothingBound(y.tree, sp);
        ExactIsServed(y.handlers, y.tree, sp, None);
      }
    } else {
      RunServes(run, acts, types, i - 1, exact);
      var y, a := run[i-1], acts[i-1];
      assert run[i] == Apply(y, a) && Enabled(y, a, types);
      hide Sound;
      match a
      case InstallAt(d, sp, h) => InstallKeeps(y, d, sp, h, types, exact);
      case UninstallAt(d, sp) => UninstallKeeps(y, d, sp, types);
      case AddNode(p, n) => AddKeeps(y, p, n, types, exact);
      case DropRegion(n) => DropKeeps(y, n);
    }
  }

  // -- The code --------------------------------------------------------------------------

  lemma {:induction false} FindPermanent(f: Forest, d: Node, types: set<ObjectType>)
    requires Permanent(f, types)
    ensures Permanent(Find(f, d), types)
  {
    if f.Cons? { FindPermanent(f.kids, d, types); FindPermanent(f.rest, d, types); }
  }

  /** Both calls walk the subtree below the device with the generic traversal. */
  method SweepBelow(device: Node, job: Job, types: set<ObjectType>, s: Handlers, ghost y: System) returns (t: Handlers)
    requires WellFormed(y, types) && LinkedTree(y.root, y.tree) && (device == y.root || device in Nodes(y.tree))
    ensures t == Sweep(s, KidsOf(y, device), job)
  {
    ghost var kids := KidsOf(y, device);
    FindInside(y.tree, device);
    FindPermanent(y.tree, device, types);
    if device != y.root { FindLinked(y.tree, y.root, device); }
    var status;
    status, t := DoForEachChild(device, Everything(job, types), s, kids);
    WalkSweeps(kids, job, types, 1, Walk(false, s, Going));
  }

  method InstallAddressSpaceHandler(root: Node, device: Node, sp: Space, h: Id, types: set<ObjectType>, s: Handlers, ghost tree: Forest)
    returns (outcome: Outcome, t: Handlers)
    requires var y := System(root, tree, s);
      WellFormed(y, types) && LinkedTree(y.root, y.tree) && (device == root || device in Nodes(tree))
    ensures (outcome, t) == Install(System(root, tree, s), device, sp, h)
  {
    if device != root && (IsRegion(device) || !Holds(device)) { return BadDevice, s; }
    if (device, sp) in s.own { return AlreadyExists, s; }
    t := SweepBelow(device, Job(true, sp, h), types, Attach(s, device, sp, h), System(root, tree, s));
    outcome := Done;
  }

  method UninstallAddressSpaceHandler(root: Node, device: Node, sp: Space, types: set<ObjectType>, s: Handlers, ghost tree: Forest)
    returns (outcome: Outcome, t: Handlers)
    requires var y := System(root, tree, s);
      WellFormed(y, types) && LinkedTree(y.root, y.tree) && (device == root || device in Nodes(tree))
    ensures (outcome, t) == Uninstall(System(root, tree, s), device, sp)
  {
    if device != root && (IsRegion(device) || !Holds(device)) { return BadDevice, s; }
    if (device, sp) !in s.own { return NoHandler, s; }
    var h := s.own[(device, sp)];
    t := SweepBelow(device, Job(false, sp, h), types, s, System(root, tree, s));
    t := Detach(t, device, sp, h);
    outcome := Done;
  }

  /** One step up: what is seen below a node is its own handler, or what is seen
      below its parent. */
  lemma {:induction false} SeenOneUp(s: Handlers, f: Forest, parent: Node, p: Node, sp: Space, env: Option<Id>)
    requires Linked(f, parent) && Distinct(f) && parent !in Nodes(f) && p in Nodes(f)
    ensures p.parent != null && (p.parent == parent || p.parent in Nodes(f))
    ensures SeenBelow(s, f, p, sp, env) ==
      Below(s, p, sp, if p.parent == parent then env else SeenBelow(s, f, p.parent, sp, env))
    ensures p.parent != parent ==> DepthOf(f, p.parent) < DepthOf(f, p)
    decreases f
  {
    if f.node != p {
      if p in Nodes(f.kids) {
        SeenOneUp(s, f.kids, f.node, p, sp, Below(s, f.node, sp, env));
      } else {
        SeenOneUp(s, f.rest, parent, p, sp, env);
      }
    }
  }

  /** A region that has just been created looks upwards for its handler. */
  method InitializeOpRegionNode(node: Node, root: Node, s: Handlers, ghost tree: Forest) returns (found: bool, t: Handlers)
    requires LinkedTree(root, tree) && Distinct(tree) && root !in Nodes(tree) && node in Nodes(tree) && IsRegion(node)
    ensures var seen := Seen(System(root, tree, s), node, node.space);
      found == seen.Some? && t == BindNearest(s, node, seen)
  {
    var sp := node.space;
    ghost var y := System(root, tree, s);
    ghost var env := Own(s, root, sp);
    SeenOneUp(s, tree, root, node, sp, env);
    var p: Node? := node.parent;
    while p != null
      invariant p != null ==> (p == root || p in Nodes(tree)) && Seen(y, p, sp) == Seen(y, node, sp)
      invariant p == null ==> Seen(y, node, sp) == None
      invariant LinkedTree(y.root, y.tree)
      decreases if p == null then 0 else if p == root then 1 else 1 + DepthOf(tree, p)
    {
      var q: Node := p;
      if q != root { SeenOneUp(s, tree, root, q, sp, env); }
      if (q == root || (!IsRegion(q) && Holds(q))) && (q, sp) in s.own {
        return true, Bind(s, node, s.own[(q, sp)]);
      }
      p := q.parent;
    }
    return false, s;
  }

  lemma {:induction false} SeenAtEnd(s: Handlers, f: Forest, n: Node, sp: Space, env: Option<Id>)
    requires Distinct(f) && n !in Nodes(f) && !Shadows(s, n, sp)
    ensures n in Nodes(AtEnd(f, n)) && SeenBelow(s, AtEnd(f, n), n, sp, env) == env
  {
    if f.Cons? { SeenAtEnd(s, f.rest, n, sp, env); }
  }

  lemma {:induction false} SeenAdded(s: Handlers, f: Forest, p: Node, n: Node, sp: Space, env: Option<Id>)
    requires Distinct(f) && p in Nodes(f) && n !in Nodes(f) && !Shadows(s, n, sp)
    ensures n in Nodes(AddBelow(f, p, n)) && SeenBelow(s, AddBelow(f, p, n), n, sp, env) == SeenBelow(s, f, p, sp, env)
    decreases f
  {
    if f.node == p {
      SeenAtEnd(s, f.kids, n, sp, Below(s, p, sp, env));
    } else if p in Nodes(f.kids) {
      SeenAdded(s, f.kids, p, n, sp, Below(s, f.node, sp, env));
    } else {
      SeenAdded(s, f.rest, p, n, sp, env);
    }
  }

  /** What the new region finds by looking upwards is what the specification binds it to. */
  lemma NewRegionSees(y: System, p: Node, n: Node, types: set<ObjectType>)
    requires WellFormed(y, types) && Fresh(y, p, n, types) && IsRegion(n)
    ensures var y' := System(y.root, Add(y, p, n).tree, y.handlers);
      BindNearest(y.handlers, n, Seen(y', n, n.space)) == Add(y, p, n).handlers
  {
    var env := Own(y.handlers, y.root, n.space);
    if p == y.root {
      SeenAtEnd(y.handlers, y.tree, n, n.space, env);
    } else {
      SeenAdded(y.handlers, y.tree, p, n, n.space, env);
    }
  }
}

/**
 The region and handler objects in memory: linking and unlinking a region does to the
 objects of its handler what binding and unbinding does to the value.
 */
module RegionMemory {
  import opened Namespace
  import opened RegionList
  import opened OpRegion

  /** Which object stands for which region node and for which handler. */
  datatype Objects = Objects(region: map<Node, Region>, handler: map<Id, Handler>)

  ghost predicate OneToOne(o: Objects) {
    forall m, n :: m in o.region && n in o.region && m != n ==> o.region[m] != o.region[n]
  }

  ghost predicate Known(o: Objects, list: seq<Node>) { forall n :: n in list ==> n in o.region }

  /** The list of region objects for a list of nodes. */
  ghost function Linked(o: Objects, list: seq<Node>): (r: seq<Region>)
    requires Known(o, list)
    ensures |r| == |list| && forall i :: 0 <= i < |list| ==> r[i] == o.region[list[i]]
  {
    if list == [] then [] else [o.region[list[0]]] + Linked(o, list[1..])
  }

  /** The handler object has the list and the count that the value gives the handler. */
  ghost predicate HandlerIs(o: Objects, s: Handlers, h: Id)
    requires h in o.handler && Known(o, Regions(s, h))
    reads o.handler[h], Linked(o, Regions(s, h))
  {
    Chain(o.handler[h].regions, Linked(o, Regions(s, h))) && o.handler[h].refs == Refs(s, h)
  }

  lemma NotLinked(o: Objects, list: seq<Node>, n: Node)
    requires OneToOne(o) && n in o.region && n !in list && Known(o, list)
    ensures o.region[n] !in Linked(o, list)
  {}

  lemma LinkedCons(o: Objects, n: Node, list: seq<Node>)
    requires n in o.region && Known(o, list)
    ensures Known(o, [n] + list) && Linked(o, [n] + list) == [o.region[n]] + Linked(o, list)
  {
    assert ([n] + list)[1..] == list;
  }

  lemma {:induction false} LinkedWithout(o: Objects, list: seq<Node>, n: Node)
    requires OneToOne(o) && n in o.region && Known(o, list)
    ensures Known(o, Without(list, n)) && Linked(o, Without(list, n)) == Without(Linked(o, list), o.region[n])
  {
    if list != [] {
      LinkedWithout(o, list[1..], n);
      if list[0] != n { LinkedCons(o, list[0], Without(list[1..], n)); }
    }
  }

  /** region_install_handler binds: only the region and its new handler are written. */
  method RegionInstallHandler(o: Objects, node: Node, h: Id, ghost s: Handlers)
    requires OneToOne(o) && node in o.region && h in o.handler && node !in s.bound && Known(o, Regions(s, h))
    requires Ledger(s) && h in s.regions && HandlerIs(o, s, h)
    modifies o.region[node], o.handler[h]
    ensures o.region[node].handler == o.handler[h]
    ensures Known(o, Regions(Bind(s, node, h), h)) && HandlerIs(o, Bind(s, node, h), h)
  {
    var region, handler := o.region[node], o.handler[h];
    ghost var list := Regions(s, h);
    assert Listed(s, h);
    NotLinked(o, list, node);
    LinkedCons(o, node, list);
    assert Regions(Bind(s, node, h), h) == [node] + list && Refs(Bind(s, node, h), h) == Refs(s, h) + 1;
    hide Ledger, Bind, Linked, Chain, Regions, Refs, OneToOne, Known, Listed;
    InstallHandler(region, handler, Linked(o, list));
  }

  lemma LinkedSome(o: Objects, list: seq<Node>, n: Node)
    requires Known(o, list) && n in list
    ensures Linked(o, list) != []
  {}

  lemma UnbindList(s: Handlers, node: Node)
    requires Ledger(s) && node in s.bound
    ensures var h, t := s.bound[node], Unbind(s, node);
      && node in Regions(s, h) && Refs(s, h) > 0 && Refs(t, h) == Refs(s, h) - 1
      && (h in t.regions ==> Regions(t, h) == Without(Regions(s, h), node))
  {
    var h := s.bound[node];
    assert Listed(s, h) && Counted(s, h);
  }

  /** region_uninstall_handler unbinds: only the region, its handler and the links of the
      regions that share it are written. */
  method RegionUninstallHandler(region: Region, ghost o: Objects, ghost node: Node, ghost s: Handlers)
    requires OneToOne(o) && node in o.region && region == o.region[node] && node in s.bound && s.bound[node] in o.handler
    requires Ledger(s) && Known(o, Regions(s, s.bound[node])) && HandlerIs(o, s, s.bound[node])
    requires region.handler == o.handler[s.bound[node]]
    modifies region`handler, o.handler[s.bound[node]], Linked(o, Regions(s, s.bound[node]))`next
    ensures region.handler == null
    ensures var h, t := s.bound[node], Unbind(s, node); h in t.regions ==> Known(o, Regions(t, h)) && HandlerIs(o, t, h)
  {
    ghost var list := Regions(s, s.bound[node]);
    UnbindList(s, node);
    LinkedWithout(o, list, node);
    LinkedSome(o, list, node);
    hide Ledger, Unbind, Linked, Without, Chain, Regions, Refs, OneToOne, Known;
    UninstallHandler(region, Linked(o, list));
  }
}
