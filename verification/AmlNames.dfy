/**
 AML NameStrings: resolving the encoded bytes directly, and printing them as a
 path string.
 */
module AmlResolver {
  import opened Common
  import opened Namespace
  import opened NameTree
  import opened StringResolver

  const DUAL := '.'   // 0x2E
  const MULTI := '/'  // 0x2F
  const NULL := 0 as char

  predicate NameChar(c: char) { c == '_' || '0' <= c <= '9' || 'A' <= c <= 'Z' }

  predicate ValidSegment(s: string)
    requires |s| >= 4
  {
    NameChar(s[0]) && NameChar(s[1]) && NameChar(s[2]) && NameChar(s[3])
  }

  /** What follows the prefix characters of a NameString. */
  datatype Form = Malformed | Nothing | Named(count: nat, body: string, alone: bool)

  function Decode(s: string): (r: Form)
    ensures r.Named? ==> r.count > 0 && 4 * r.count <= |r.body|
  {
    if s == [] then Malformed
    else if s[0] == DUAL then Enough(2, s[1..], false)
    else if s[0] == MULTI then
      (if |s| < 2 || s[1] as int == 0 then Malformed else Enough(s[1] as int, s[2..], false))
    else if s[0] == NULL then Nothing
    else Enough(1, s, true)
  }

  function Enough(count: nat, body: string, alone: bool): Form {
    if 4 * count > |body| then Malformed else Named(count, body, alone)
  }

  ghost function AmlPrefix(t: Tree, n: Node, s: string, caret: bool, plain: bool): (r: Start)
    requires WellFormed(t) && In(t, n)
    ensures r.At? ==> In(t, r.node)
    decreases |s|
  {
    if s == [] then Bad
    else if s[0] == '\\' then (if caret then Bad else At(t.root, s[1..], false))
    else if s[0] == '^' then (if n == t.root then Bad else UpStep(t, n); AmlPrefix(t, Up(t, n), s[1..], true, false))
    else At(n, s, plain)
  }

  ghost function AmlSegments(t: Tree, n: Node, s: string, count: nat, rise: bool): Result
    requires WellFormed(t) && In(t, n) && 4 * count <= |s|
    decreases count
  {
    if count == 0 then Found(n)
    else if !ValidSegment(s) then Invalid
    else
      var c := if rise then SearchUp(t, n, s[..4]) else Sub(t, n, s[..4]);
      if c.None? then NotFound
      else SearchIn(t, n, s[..4]); AmlSegments(t, c.value, s[4..], count - 1, rise)
  }

  lemma {:induction false} SearchIn(t: Tree, n: Node, name: Name)
    requires WellFormed(t) && In(t, n)
    ensures Sub(t, n, name).Some? ==> In(t, Sub(t, n, name).value)
    ensures SearchUp(t, n, name).Some? ==> In(t, SearchUp(t, n, name).value)
    decreases Depth(t, n)
  {
    SubIn(t, n, name);
    if n != t.root { UpStep(t, n); SearchIn(t, Up(t, n), name); }
  }

  /** What the bytes of a NameString mean to the interpreter. */
  ghost function AmlResolve(t: Tree, scope: Node, s: string): Result
    requires WellFormed(t) && In(t, scope)
  {
    var p := AmlPrefix(t, scope, s, false, true);
    if p.Bad? then Invalid
    else match Decode(p.rest)
      case Malformed => Invalid
      case Nothing => if p.single then Invalid else Found(p.node)
      case Named(count, body, alone) => AmlSegments(t, p.node, body, count, p.single && alone)
  }

  // -- The code ------------------------------------------------------------------------------

  method AmlWalkPrefix(scope: Node, root: Node, code: string, ghost t: Tree) returns (ok: bool, cur: Node, cursor: nat, plain: bool)
    requires WellFormed(t) && InMemory(t) && In(t, scope) && t.root == root
    ensures InMemory(t) && cursor <= |code|
    ensures AmlPrefix(t, scope, code, false, true) == if ok then At(cur, code[cursor..], plain) else Bad
  {
    cur, cursor, plain, ok := scope, 0, true, true;
    var caret := false;
    assert code[0..] == code;
    while true
      invariant cursor <= |code| && In(t, cur) && InMemory(t)
      invariant AmlPrefix(t, scope, code, false, true) == AmlPrefix(t, cur, code[cursor..], caret, plain)
      decreases |code| - cursor
    {
      if cursor == |code| { ok := false; return; }
      var c := code[cursor];
      assert code[cursor..][1..] == code[cursor + 1..];
      if c == '\\' {
        if caret { ok := false; return; }
        cur, cursor, plain := root, cursor + 1, false;
        return;
      } else if c == '^' {
        if cur == root { ok := false; return; }
        UpLinked(t, cur);
        UpStep(t, cur);
        cur, cursor, caret, plain := cur.parent, cursor + 1, true, false;
      } else {
        return;
      }
    }
  }

  /** One segment: in the scope itself, or also above it. */
  method FindOrRise(scope: Node, root: Node, name: Name, rise: bool, ghost t: Tree) returns (found: Node?)
    requires WellFormed(t) && InMemory(t) && In(t, scope) && t.root == root
    ensures InMemory(t) && found == Nullable(if rise then SearchUp(t, scope, name) else Sub(t, scope, name))
    ensures found != null ==> In(t, found)
  {
    var parent: Node := scope;
    found := FindSubNode(parent, name, t);
    if rise {
      while found == null && parent != root
        invariant In(t, parent) && InMemory(t) && found == Nullable(Sub(t, parent, name))
        invariant SearchUp(t, parent, name) == SearchUp(t, scope, name)
        decreases Depth(t, parent)
      {
        UpLinked(t, parent);
        UpStep(t, parent);
        parent := parent.parent;
        found := FindSubNode(parent, name, t);
      }
    }
    SearchIn(t, scope, name);
  }

  method AmlWalkSegments(start: Node, root: Node, body: string, count: nat, rise: bool, ghost t: Tree) returns (r: Result)
    requires WellFormed(t) && InMemory(t) && In(t, start) && t.root == root && 4 * count <= |body|
    ensures r == AmlSegments(t, start, body, count, rise)
  {
    var cur: Node, cursor, left := start, 0, count;
    assert body[0..] == body;
    while left > 0
      invariant In(t, cur) && InMemory(t) && 0 <= left && 0 <= cursor && cursor + 4 * left <= |body|
      invariant AmlSegments(t, start, body, count, rise) == AmlSegments(t, cur, body[cursor..], left, rise)
    {
      ghost var s := body[cursor..];
      assert s[..4] == body[cursor..cursor + 4] && s[4..] == body[cursor + 4..];
      if !ValidSegment(body[cursor..cursor + 4]) { return Invalid; }
      var c := FindOrRise(cur, root, body[cursor..cursor + 4], rise, t);
      if c == null { return NotFound; }
      cur, cursor, left := c, cursor + 4, left - 1;
    }
    return Found(cur);
  }

  /** The interpreter's resolver computes the meaning of the bytes. */
  method ResolveNameString(scope: Node, root: Node, code: string, ghost t: Tree) returns (r: Result)
    requires WellFormed(t) && InMemory(t) && In(t, scope) && t.root == root
    ensures r == AmlResolve(t, scope, code)
  {
    var ok, cur, cursor, plain := AmlWalkPrefix(scope, root, code, t);
    if !ok { return Invalid; }
    match Decode(code[cursor..]) {
      case Malformed => return Invalid;
      case Nothing => return if plain then Invalid else Found(cur);
      case Named(count, body, alone) => r := AmlWalkSegments(cur, root, body, count, plain && alone, t);
    }
  }
}

/**
 NameStrings as the AML grammar defines them (section 20.2.2 of ACPI 6.5), their
 bytes and their printed form.
 */
module NameStrings {
  import opened Common
  import opened Namespace
  import opened NameTree
  import opened StringResolver
  import opened AmlResolver

  // -- Printing ---------------------------------------------------------------------------

  /** The number of prefix characters. */
  function PrefixBytes(s: string): (n: nat)
    ensures n <= |s|
  {
    if s == [] then 0
    else if s[0] == '^' then 1 + PrefixBytes(s[1..])
    else if s[0] == '\\' then 1
    else 0
  }

  /** Name segments with dots between them. */
  function Dotted(body: string, count: nat): (r: string)
    requires 4 * count <= |body|
    ensures |r| == if count == 0 then 0 else 5 * count - 1
  {
    if count == 0 then []
    else if count == 1 then body[..4]
    else body[..4] + ['.'] + Dotted(body[4..], count - 1)
  }

  /** The path string of an encoded NameString. */
  function PathText(s: string): Option<string> {
    var n := PrefixBytes(s);
    match Decode(s[n..])
    case Malformed => None
    case Nothing => Some(s[..n])
    case Named(count, body, _) => Some(s[..n] + Dotted(body, count))
  }

  lemma {:induction false} DottedSplit(body: string, count: nat, k: nat)
    requires 4 * count <= |body| && k < count
    ensures Dotted(body, k + 1) == (if k == 0 then [] else Dotted(body, k) + ['.']) + body[4 * k..4 * k + 4]
    decreases k
  {
    if k > 0 {
      DottedSplit(body[4..], count - 1, k - 1);
      assert body[4..][4 * (k - 1)..4 * k] == body[4 * k..4 * k + 4];
    }
  }

  method CountPrefix(code: string) returns (ok: bool, n: nat)
    ensures ok ==> n == PrefixBytes(code) && n < |code|
    ensures !ok ==> Decode(code[PrefixBytes(code)..]).Malformed?
  {
    n := 0;
    assert code[0..] == code;
    while n < |code| && code[n] == '^'
      invariant n <= |code| && PrefixBytes(code) == n + PrefixBytes(code[n..])
    {
      assert code[n..][1..] == code[n + 1..];
      n := n + 1;
    }
    if n < |code| && code[n] == '\\' { n := n + 1; }
    ok := n < |code|;
  }

  /** Copies a run of characters into the buffer. */
  method CopyText(dst: array<char>, at: nat, src: string)
    requires at + |src| <= dst.Length
    modifies dst
    ensures dst[..at + |src|] == old(dst[..at]) + src
  {
    for i := 0 to |src|
      invariant dst[..at] == old(dst[..at]) && dst[at..at + i] == src[..i]
    {
      dst[at + i] := src[i];
    }
    assert dst[..at + |src|] == dst[..at] + dst[at..at + |src|];
  }

  /** Writes the segments with dots between them. */
  method PutSegments(dst: array<char>, start: nat, body: string, count: nat)
    requires 4 * count <= |body| && start + |Dotted(body, count)| <= dst.Length
    modifies dst
    ensures dst[..start + |Dotted(body, count)|] == old(dst[..start]) + Dotted(body, count)
  {
    hide Dotted, Written;
    ghost var head := dst[..start];
    var at := start;
    WrittenEnds(body, count);
    for k := 0 to count
      invariant at == start + |Written(body, k, count)| && at <= dst.Length
      invariant dst[..at] == head + Written(body, k, count)
    {
      WrittenNext(body, k, count, head);
      WrittenFits(body, k + 1, count);
      CopyText(dst, at, body[4 * k..4 * k + 4]);
      at := at + 4;
      if k + 1 < count {
        CopyText(dst, at, ['.']);
        at := at + 1;
      }
    }
  }

  /** The first `k` of `count` segments, with the dot that follows them. */
  ghost function Written(body: string, k: nat, count: nat): string
    requires 4 * count <= |body| && k <= count
  {
    Dotted(body, k) + if 0 < k < count then ['.'] else []
  }

  lemma WrittenEnds(body: string, count: nat)
    requires 4 * count <= |body|
    ensures Written(body, 0, count) == [] && Written(body, count, count) == Dotted(body, count)
  {}

  lemma WrittenFits(body: string, k: nat, count: nat)
    requires 4 * count <= |body| && k <= count
    ensures |Written(body, k, count)| <= |Dotted(body, count)|
  {}

  lemma WrittenNext(body: string, k: nat, count: nat, head: string)
    requires 4 * count <= |body| && k < count
    ensures var seg, dot := body[4 * k..4 * k + 4], if k + 1 < count then ['.'] else [];
      && head + Written(body, k, count) + seg + dot == head + Written(body, k + 1, count)
      && |Written(body, k + 1, count)| == |Written(body, k, count)| + 4 + |dot|
  {
    DottedSplit(body, count, k);
  }

  lemma PathTextOf(code: string, n: nat, count: nat, body: string)
    requires n == PrefixBytes(code) && !Decode(code[n..]).Malformed? && 4 * count <= |body|
    requires count == (if Decode(code[n..]).Nothing? then 0 else Decode(code[n..]).count)
    requires Decode(code[n..]).Named? ==> body == Decode(code[n..]).body
    ensures PathText(code) == Some(code[..n] + Dotted(body, count))
  {
    assert code[..n] + [] == code[..n];
  }

  /** The prefix, the segments and the terminator, one after the other. */
  method PutPath(dst: array<char>, head: string, body: string, count: nat)
    requires 4 * count <= |body| && dst.Length == |head| + |Dotted(body, count)| + 1
    modifies dst
    ensures dst[..] == head + Dotted(body, count) + [NULL]
  {
    hide Dotted;
    ghost var names := Dotted(body, count);
    CopyText(dst, 0, head);
    assert dst[..|head|] == head;
    PutSegments(dst, |head|, body, count);
    var end := dst.Length - 1;
    assert dst[..end] == head + names;
    CopyText(dst, end, [NULL]);
    assert dst[..] == dst[..end + 1];
  }

  /** Prints the NameString into a buffer of exactly the computed size, terminator included. */
  method NameStringToPath(code: string) returns (out: Option<array<char>>)
    ensures match PathText(code) case None => out.None? case Some(text) => out.Some? && out.value[..] == text + [NULL]
  {
    var ok, prefix := CountPrefix(code);
    if !ok { return None; }
    var form := Decode(code[prefix..]);
    if form.Malformed? { return None; }
    var count, body := if form.Nothing? then 0 else form.count, if form.Nothing? then [] else form.body;
    PathTextOf(code, prefix, count, body);
    hide Dotted, Decode, PathText, PrefixBytes;
    var bytes := if count > 0 then 4 * count + (count - 1) else 0;
    var text := new char[bytes + prefix + 1];
    PutPath(text, code[..prefix], body, count);
    return Some(text);
  }

  // -- The grammar ----------------------------------------------------------------------------

  datatype NamePath = NullName | One(seg: Name) | Dual(first: Name, second: Name) | Multi(segs: seq<Name>)

  datatype NameString = NameString(rooted: bool, carets: nat, path: NamePath)

  function SegmentsOf(p: NamePath): seq<Name> {
    match p case NullName => [] case One(s) => [s] case Dual(a, b) => [a, b] case Multi(ss) => ss
  }

  predicate ValidNames(segs: seq<Name>) { forall i :: 0 <= i < |segs| ==> |segs[i]| == 4 && ValidSegment(segs[i]) }

  predicate Valid(ns: NameString) {
    && (ns.rooted ==> ns.carets == 0) && ValidNames(SegmentsOf(ns.path))
    && (ns.path.Multi? ==> 1 <= |ns.path.segs| <= 255)
  }

  function Flat(segs: seq<Name>): string { if segs == [] then [] else segs[0] + Flat(segs[1..]) }

  function EncodePath(p: NamePath): string
    requires p.Multi? ==> |p.segs| <= 255
  {
    match p
    case NullName => [NULL]
    case One(s) => s
    case Dual(a, b) => [DUAL] + Flat([a, b])
    case Multi(ss) => [MULTI, |ss| as char] + Flat(ss)
  }

  function Carets(n: nat): string { if n == 0 then [] else ['^'] + Carets(n - 1) }

  function PrefixOf(ns: NameString): string { if ns.rooted then ['\\'] else Carets(ns.carets) }

  /** The bytes of a NameString. */
  function Encode(ns: NameString): string
    requires Valid(ns)
  {
    PrefixOf(ns) + EncodePath(ns.path)
  }

  function Joined(segs: seq<Name>): string {
    if segs == [] then [] else if |segs| == 1 then segs[0] else segs[0] + ['.'] + Joined(segs[1..])
  }

  /** The text of a NameString. */
  function Print(ns: NameString): string { PrefixOf(ns) + Joined(SegmentsOf(ns.path)) }

  lemma {:induction false} FlatLength(segs: seq<Name>)
    requires ValidNames(segs)
    ensures |Flat(segs)| == 4 * |segs|
  {
    if segs != [] { FlatLength(segs[1..]); }
  }

  lemma {:induction false} DottedIsJoined(segs: seq<Name>, tail: string)
    requires ValidNames(segs)
    ensures |Flat(segs)| == 4 * |segs| && Dotted(Flat(segs) + tail, |segs|) == Joined(segs)
  {
    FlatLength(segs);
    if segs != [] {
      DottedIsJoined(segs[1..], tail);
      assert (Flat(segs) + tail)[..4] == segs[0];
      assert (Flat(segs) + tail)[4..] == Flat(segs[1..]) + tail;
    }
  }

  lemma DecodeOne(seg: Name, tail: string)
    requires |seg| == 4 && ValidSegment(seg)
    ensures Decode(seg + tail) == Named(1, Flat([seg]) + tail, true)
  {
    assert Flat([seg]) == seg;
    assert (seg + tail)[0] == seg[0] && NameChar(seg[0]);
  }

  lemma DecodeDual(segs: seq<Name>, tail: string)
    requires |segs| == 2 && ValidNames(segs)
    ensures Decode([DUAL] + Flat(segs) + tail) == Named(2, Flat(segs) + tail, false)
  {
    FlatLength(segs);
    hide Flat;
    assert ([DUAL] + Flat(segs) + tail)[1..] == Flat(segs) + tail;
  }

  lemma DecodeCounted(c: char, flat: string, tail: string)
    requires c as int > 0 && |flat| == 4 * (c as int)
    ensures Decode([MULTI, c] + flat + tail) == Named(c as int, flat + tail, false)
  {
    var s := [MULTI, c] + flat + tail;
    assert |s| >= 2 && s[0] == MULTI && s[1] == c;
    assert s[2..] == flat + tail;
  }

  lemma DecodeMulti(segs: seq<Name>, tail: string)
    requires 1 <= |segs| <= 255 && ValidNames(segs)
    ensures Decode([MULTI, |segs| as char] + Flat(segs) + tail) == Named(|segs|, Flat(segs) + tail, false)
  {
    hide Decode;
    FlatLength(segs);
    DecodeCounted(|segs| as char, Flat(segs), tail);
  }

  /** What the decoder makes of an encoded path. */
  lemma DecodeEncoded(p: NamePath, tail: string)
    requires ValidNames(SegmentsOf(p)) && (p.Multi? ==> 1 <= |p.segs| <= 255)
    ensures EncodePath(p) != [] && EncodePath(p)[0] != '^' && EncodePath(p)[0] != '\\'
    ensures Decode(EncodePath(p) + tail) ==
      if p.NullName? then Nothing else Named(|SegmentsOf(p)|, Flat(SegmentsOf(p)) + tail, p.One?)
  {
    hide Flat, Decode;
    match p {
      case NullName => DecodeNull(tail);
      case One(s) => assert [s][0] == s; DecodeOne(s, tail);
      case Dual(a, b) => DecodeDual([a, b], tail);
      case Multi(ss) => DecodeMulti(ss, tail);
    }
  }

  lemma DecodeNull(tail: string)
    ensures Decode([NULL] + tail) == Nothing
  {}

  lemma {:induction false} PrefixBytesOf(k: nat, rest: string)
    requires rest != [] && rest[0] != '^' && rest[0] != '\\'
    ensures PrefixBytes(Carets(k) + rest) == k == |Carets(k)|
  {
    if k > 0 {
      PrefixBytesOf(k - 1, rest);
      assert (Carets(k) + rest)[1..] == Carets(k - 1) + rest;
    } else {
      assert Carets(0) + rest == rest;
    }
  }

  /** Printing the bytes of a NameString gives its text. */
  lemma PathTextIsPrint(ns: NameString, tail: string)
    requires Valid(ns)
    ensures PathText(Encode(ns) + tail) == Some(Print(ns))
  {
    DecodeEncoded(ns.path, tail);
    DottedIsJoined(SegmentsOf(ns.path), tail);
    var rest := EncodePath(ns.path) + tail;
    assert Encode(ns) + tail == PrefixOf(ns) + rest;
    if !ns.rooted { PrefixBytesOf(ns.carets, rest); }
    assert (PrefixOf(ns) + rest)[..|PrefixOf(ns)|] == PrefixOf(ns);
    assert (PrefixOf(ns) + rest)[|PrefixOf(ns)|..] == rest;
    assert PrefixOf(ns) + [] == PrefixOf(ns);
  }

  // -- What a NameString means ------------------------------------------------------------------

  ghost function Climb(t: Tree, n: Node, k: nat): (r: Option<Node>)
    requires WellFormed(t) && In(t, n)
    ensures r.Some? ==> In(t, r.value)
    decreases k
  {
    if k == 0 then Some(n) else if n == t.root then None else UpStep(t, n); Climb(t, Up(t, n), k - 1)
  }

  ghost function StartOf(t: Tree, scope: Node, ns: NameString): (r: Option<Node>)
    requires WellFormed(t) && In(t, scope)
    ensures r.Some? ==> In(t, r.value)
  {
    if ns.rooted then Some(t.root) else Climb(t, scope, ns.carets)
  }

  /** Descends by exact names. */
  ghost function Follow(t: Tree, n: Node, segs: seq<Name>): Option<Node>
    requires WellFormed(t) && In(t, n)
    decreases |segs|
  {
    if segs == [] then Some(n)
    else
      var c := Sub(t, n, segs[0]);
      if c.None? then None else SubIn(t, n, segs[0]); Follow(t, c.value, segs[1..])
  }

  predicate Bare(ns: NameString) { !ns.rooted && ns.carets == 0 }

  /** The common meaning: climb, then descend, or search upwards for a lone segment. */
  ghost function Meaning(t: Tree, scope: Node, ns: NameString, rise: bool): Result
    requires WellFormed(t) && In(t, scope)
  {
    var start := StartOf(t, scope, ns);
    if start.None? then Invalid
    else if rise && |SegmentsOf(ns.path)| == 1 then ToResult(SearchUp(t, start.value, SegmentsOf(ns.path)[0]))
    else ToResult(Follow(t, start.value, SegmentsOf(ns.path)))
  }

  lemma {:induction false} AmlPrefixMeans(t: Tree, n: Node, k: nat, rest: string, caret: bool, plain: bool)
    requires WellFormed(t) && In(t, n) && rest != [] && rest[0] != '^' && rest[0] != '\\'
    ensures AmlPrefix(t, n, Carets(k) + rest, caret, plain) ==
      match Climb(t, n, k) case None => Bad case Some(m) => At(m, rest, plain && k == 0)
    decreases k
  {
    if k == 0 {
      assert Carets(0) + rest == rest;
    } else {
      assert (Carets(k) + rest)[1..] == Carets(k - 1) + rest;
      if n != t.root { UpStep(t, n); AmlPrefixMeans(t, Up(t, n), k - 1, rest, true, false); }
    }
  }

  lemma {:induction false} PrefixMeans(t: Tree, n: Node, k: nat, rest: string, caret: bool, single: bool)
    requires WellFormed(t) && In(t, n) && (rest != [] ==> rest[0] != '^' && rest[0] != '\\')
    ensures Prefix(t, n, Carets(k) + rest, caret, single) ==
      match Climb(t, n, k) case None => Bad case Some(m) => At(m, rest, single && k == 0)
    decreases k
  {
    if k == 0 {
      assert Carets(0) + rest == rest;
    } else {
      assert (Carets(k) + rest)[1..] == Carets(k - 1) + rest;
      if n != t.root { UpStep(t, n); PrefixMeans(t, Up(t, n), k - 1, rest, true, false); }
    }
  }

  lemma {:induction false} AmlSegmentsMean(t: Tree, n: Node, segs: seq<Name>, tail: string)
    requires WellFormed(t) && In(t, n) && ValidNames(segs)
    ensures |Flat(segs)| == 4 * |segs| && AmlSegments(t, n, Flat(segs) + tail, |segs|, false) == ToResult(Follow(t, n, segs))
    decreases |segs|
  {
    FlatLength(segs);
    if segs != [] {
      var s := Flat(segs) + tail;
      assert s[..4] == segs[0] && s[4..] == Flat(segs[1..]) + tail;
      SubIn(t, n, segs[0]);
      var c := Sub(t, n, segs[0]);
      if c.Some? { AmlSegmentsMean(t, c.value, segs[1..], tail); }
    }
  }

  /** A valid segment is taken whole. */
  lemma SegmentTakes(seg: Name, rest: string)
    requires |seg| == 4 && ValidSegment(seg)
    ensures Segment(seg + rest) == (seg, rest)
  {
    var s := seg + rest;
    assert s[0] == seg[0] && s[1] == seg[1] && s[2] == seg[2] && s[3] == seg[3];
    LettersAre(s, 4, 4);
    assert s[..4] + seq(0, _ => '_') == seg && s[4..] == rest;
  }

  lemma JoinedSplit(segs: seq<Name>, dot: bool, rest: string)
    requires segs != [] && ValidNames(segs) && rest == if |segs| == 1 then [] else ['.'] + Joined(segs[1..])
    ensures var s := (if dot then ['.'] else []) + Joined(segs);
      s != [] && (if s[0] == '.' then s[1..] else s) == segs[0] + rest
  {
    assert Joined(segs) == segs[0] + rest;
    assert |segs[0]| == 4 && segs[0][0] != '.';
    var s := (if dot then ['.'] else []) + Joined(segs);
    if dot { assert s[1..] == Joined(segs); } else { assert s == Joined(segs); }
  }

  /** One step of the string resolver over joined segments. */
  lemma JoinedStep(t: Tree, scope: Node, n: Node, segs: seq<Name>, dot: bool, single: bool, mayRise: bool, s: string)
    requires WellFormed(t) && In(t, n) && In(t, scope) && ValidNames(segs) && segs != []
    requires s == (if dot then ['.'] else []) + Joined(segs)
    ensures var c, one := Sub(t, n, segs[0]), single && |segs| == 1;
      && (c.None? ==> Segments(t, scope, n, s, single, mayRise) == if mayRise && one then ToResult(SearchAbove(t, scope, segs[0])) else NotFound)
      && (c.Some? ==>
            && In(t, c.value)
            && Segments(t, scope, n, s, single, mayRise) ==
               if |segs| == 1 then Found(c.value) else Segments(t, scope, c.value, ['.'] + Joined(segs[1..]), false, mayRise))
  {
    hide Segments, Segment, Joined, Sub, WellFormed, In, SearchAbove;
    var rest := if |segs| == 1 then [] else ['.'] + Joined(segs[1..]);
    JoinedSplit(segs, dot, rest);
    SegmentTakes(segs[0], rest);
    OneSegment(t, scope, n, s, single, mayRise, segs[0], rest);
    var c := Sub(t, n, segs[0]);
    if c.Some? && |segs| == 1 { EndOfPath(t, scope, c.value, single, mayRise); }
  }

  lemma {:induction false} SegmentsFollow(t: Tree, scope: Node, n: Node, segs: seq<Name>, dot: bool, single: bool, mayRise: bool, s: string)
    requires WellFormed(t) && In(t, n) && In(t, scope) && ValidNames(segs) && !(single && |segs| == 1) && (dot ==> segs != [])
    requires s == (if dot then ['.'] else []) + Joined(segs)
    ensures Segments(t, scope, n, s, single, mayRise) == ToResult(Follow(t, n, segs))
    decreases |segs|
  {
    hide Segments, Sub, Follow, WellFormed, In, SearchAbove, ValidNames;
    if segs == [] {
      EndOfPath(t, scope, n, single, mayRise);
      EndFollow(t, n);
    } else {
      hide Joined;
      JoinedStep(t, scope, n, segs, dot, single, mayRise, s);
      FollowStep(t, n, segs);
      var c := Sub(t, n, segs[0]);
      if c.Some? {
        EndFollow(t, c.value);
        ValidTail(segs);
        if |segs| > 1 { SegmentsFollow(t, scope, c.value, segs[1..], true, false, mayRise, ['.'] + Joined(segs[1..])); }
      }
    }
  }

  lemma ValidTail(segs: seq<Name>)
    requires ValidNames(segs) && segs != []
    ensures ValidNames(segs[1..])
  {}

  lemma FollowStep(t: Tree, n: Node, segs: seq<Name>)
    requires WellFormed(t) && In(t, n) && segs != []
    ensures var c := Sub(t, n, segs[0]);
      && (c.None? ==> Follow(t, n, segs) == None)
      && (c.Some? ==> In(t, c.value) && Follow(t, n, segs) == Follow(t, c.value, segs[1..]))
  {
    SubIn(t, n, segs[0]);
  }

  lemma EndFollow(t: Tree, n: Node)
    requires WellFormed(t) && In(t, n)
    ensures Follow(t, n, []) == Some(n)
  {}

  /** A lone segment is searched for upwards. */
  lemma SegmentRises(t: Tree, scope: Node, seg: Name)
    requires WellFormed(t) && In(t, scope) && ValidNames([seg])
    ensures Segments(t, scope, scope, seg, true, true) == ToResult(SearchUp(t, scope, seg))
  {
    hide Segments, Sub;
    assert Joined([seg]) == seg && [] + seg == seg;
    JoinedStep(t, scope, scope, [seg], false, true, true, seg);
  }

  lemma AmlStart(t: Tree, scope: Node, ns: NameString, rest: string)
    requires WellFormed(t) && In(t, scope) && Valid(ns) && rest != [] && rest[0] != '^' && rest[0] != '\\'
    ensures AmlPrefix(t, scope, PrefixOf(ns) + rest, false, true) ==
      match StartOf(t, scope, ns) case None => Bad case Some(m) => At(m, rest, Bare(ns))
  {
    if ns.rooted { assert (PrefixOf(ns) + rest)[1..] == rest; } else { AmlPrefixMeans(t, scope, ns.carets, rest, false, true); }
  }

  lemma StringStart(t: Tree, scope: Node, ns: NameString, rest: string)
    requires WellFormed(t) && In(t, scope) && Valid(ns) && (rest != [] ==> rest[0] != '^' && rest[0] != '\\')
    ensures Prefix(t, scope, PrefixOf(ns) + rest, false, true) ==
      match StartOf(t, scope, ns) case None => Bad case Some(m) => At(m, rest, Bare(ns))
  {
    if ns.rooted { assert (PrefixOf(ns) + rest)[1..] == rest; } else { PrefixMeans(t, scope, ns.carets, rest, false, true); }
  }

  lemma BareStart(t: Tree, scope: Node, ns: NameString)
    requires WellFormed(t) && In(t, scope) && Bare(ns)
    ensures StartOf(t, scope, ns) == Some(scope)
  {}

  /** What the interpreter makes of the bytes of a NameString. */
  lemma AmlMeans(t: Tree, scope: Node, ns: NameString, tail: string)
    requires WellFormed(t) && In(t, scope) && Valid(ns)
    ensures AmlResolve(t, scope, Encode(ns) + tail) ==
      if Bare(ns) && ns.path.NullName? then Invalid else Meaning(t, scope, ns, Bare(ns) && ns.path.One?)
  {
    hide AmlPrefix, AmlSegments, Decode, StartOf, PrefixOf, EncodePath, Flat, SearchUp, Follow, WellFormed, In;
    var rest := EncodePath(ns.path) + tail;
    assert Encode(ns) + tail == PrefixOf(ns) + rest;
    DecodeEncoded(ns.path, tail);
    AmlStart(t, scope, ns, rest);
    var start := StartOf(t, scope, ns);
    if start.Some? {
      EndFollow(t, start.value);
      if ns.path.One? { AmlRises(t, start.value, ns.path.seg, tail); }
      AmlSegmentsMean(t, start.value, SegmentsOf(ns.path), tail);
    }
  }

  lemma AmlRises(t: Tree, n: Node, seg: Name, tail: string)
    requires WellFormed(t) && In(t, n) && ValidNames([seg])
    ensures |Flat([seg])| == 4 && AmlSegments(t, n, Flat([seg]) + tail, 1, true) == ToResult(SearchUp(t, n, seg))
  {
    assert Flat([seg]) == seg;
    var s := seg + tail;
    assert |[seg][0]| == 4 && s[..4] == seg && ValidSegment(s);
    SearchIn(t, n, seg);
  }

  /** What the string resolver makes of the text of a NameString. */
  lemma StringMeans(t: Tree, scope: Node, ns: NameString)
    requires WellFormed(t) && In(t, scope) && Valid(ns)
    ensures Resolve(t, scope, Print(ns), true) == Meaning(t, scope, ns, Bare(ns))
  {
    hide Prefix, Segments, StartOf, PrefixOf, Joined, SearchUp, Follow, WellFormed, In;
    var segs := SegmentsOf(ns.path);
    var text := Joined(segs);
    FirstOfJoined(segs);
    StringStart(t, scope, ns, text);
    var start := StartOf(t, scope, ns);
    if start.Some? {
      if Bare(ns) && |segs| == 1 {
        BareStart(t, scope, ns);
        JoinedOne(segs);
        SegmentRises(t, scope, segs[0]);
      } else {
        assert [] + text == text;
        SegmentsFollow(t, scope, start.value, segs, false, Bare(ns), true, text);
      }
    }
  }

  lemma JoinedOne(segs: seq<Name>)
    requires |segs| == 1
    ensures Joined(segs) == segs[0] && segs == [segs[0]]
  {}

  lemma FirstOfJoined(segs: seq<Name>)
    requires ValidNames(segs)
    ensures var text := Joined(segs); text != [] ==> text[0] != '^' && text[0] != '\\'
  {
    if segs != [] { assert Joined(segs)[0] == segs[0][0] && NameChar(segs[0][0]); }
  }

  lemma LoneSegment(t: Tree, n: Node, segs: seq<Name>)
    requires WellFormed(t) && In(t, n) && |segs| == 1
    ensures Follow(t, n, segs) == Sub(t, n, segs[0])
    ensures Sub(t, n, segs[0]).Some? ==> SearchUp(t, n, segs[0]) == Sub(t, n, segs[0])
  {}

  /** The two resolvers agree on a NameString exactly when it is neither a bare
      NullName nor a bare MultiName of one segment that is found only above the scope. */
  lemma ResolversAgreeIff(t: Tree, scope: Node, ns: NameString, tail: string)
    requires WellFormed(t) && In(t, scope) && Valid(ns)
    ensures var text := PathText(Encode(ns) + tail);
      text.Some? &&
      (AmlResolve(t, scope, Encode(ns) + tail) == Resolve(t, scope, text.value, true) <==>
        !(Bare(ns) && ns.path.NullName?) &&
        !(Bare(ns) && ns.path.Multi? && |ns.path.segs| == 1 &&
          Sub(t, scope, ns.path.segs[0]).None? && SearchUp(t, scope, ns.path.segs[0]).Some?))
  {
    hide PathText, AmlResolve, Resolve, Encode, Print, StartOf, Follow, SearchUp, Sub, WellFormed, In;
    PathTextIsPrint(ns, tail);
    AmlMeans(t, scope, ns, tail);
    StringMeans(t, scope, ns);
    if Bare(ns) {
      BareStart(t, scope, ns);
      if |SegmentsOf(ns.path)| == 1 { LoneSegment(t, scope, SegmentsOf(ns.path)); }
      EndFollow(t, scope);
    }
  }

  /** A namespace in which they differ: two siblings, and in the scope of the first the
      name of the second as a MultiName of one segment.  Only the string is searched for
      above the scope. */
  lemma MultiNameDiffers(root: Node, a: Node, b: Node, tail: string)
    requires root != a && root != b && a != b && |b.name| == 4 && ValidSegment(b.name) && a.name != b.name
    ensures var t, ns := Tree(root, Cons(a, Nil, Cons(b, Nil, Nil))), NameString(false, 0, Multi([b.name]));
      && WellFormed(t) && In(t, a) && Valid(ns)
      && AmlResolve(t, a, Encode(ns) + tail) == NotFound && Resolve(t, a, Print(ns), true) == Found(b)
  {
    var t, ns := Tree(root, Cons(a, Nil, Cons(b, Nil, Nil))), NameString(false, 0, Multi([b.name]));
    var rest := Cons(b, Nil, Nil);
    assert Nodes(rest) == {b} && Distinct(rest);
    assert Nodes(t.forest) == {a, b} && Distinct(t.forest);
    assert ParentIn(t.forest, root, a) == root && Find(t.forest, a) == Nil;
    assert FirstNamed(rest, b.name) == Some(b);
    assert Sub(t, a, b.name).None? && Sub(t, root, b.name) == Some(b);
    assert SearchUp(t, a, b.name) == SearchUp(t, root, b.name) == Some(b);
    AmlMeans(t, a, ns, tail);
    StringMeans(t, a, ns);
    assert Follow(t, a, [b.name]) == Sub(t, a, b.name);
  }
}

/**
 Printing the absolute path of a node, and finding the node again from it.
 */
module AbsolutePath {
  import opened Common
  import opened Namespace
  import opened NameTree
  import opened StringResolver
  import opened AmlResolver
  import opened NameStrings

  /** The names from below the root down to the node. */
  ghost function PathNames(t: Tree, n: Node): seq<Name>
    requires WellFormed(t) && In(t, n)
    decreases Depth(t, n)
  {
    if n == t.root then [] else UpStep(t, n); PathNames(t, Up(t, n)) + [n.name]
  }

  ghost function PathOf(t: Tree, n: Node): string
    requires WellFormed(t) && In(t, n)
  {
    ['\\'] + Joined(PathNames(t, n))
  }

  /** No two siblings share a name, and every name is a valid segment. */
  ghost predicate ProperNames(f: Forest) {
    f.Cons? ==>
      && |f.node.name| == 4 && ValidSegment(f.node.name)
      && FirstNamed(f.rest, f.node.name).None?
      && ProperNames(f.kids) && ProperNames(f.rest)
  }

  /** The source's names are arrays of four characters, whatever they are. */
  ghost predicate FourCharacters(t: Tree) { forall n :: n in Nodes(t.forest) ==> |n.name| == 4 }

  lemma {:induction false} SiblingFound(f: Forest, n: Node)
    requires Sibling(f, n) && ProperNames(f)
    ensures FirstNamed(f, n.name) == Some(n) && |n.name| == 4 && ValidSegment(n.name)
  {
    if f.node != n { SiblingFound(f.rest, n); }
  }

  lemma {:induction false} FindProper(f: Forest, d: Node)
    requires ProperNames(f)
    ensures ProperNames(Find(f, d))
  {
    if f.Cons? { FindProper(f.kids, d); FindProper(f.rest, d); }
  }

  /** Below its parent, a node is what its name finds. */
  lemma FoundBelowParent(t: Tree, n: Node)
    requires WellFormed(t) && n in Nodes(t.forest) && ProperNames(t.forest)
    ensures In(t, Up(t, n)) && Depth(t, Up(t, n)) < Depth(t, n)
    ensures Sub(t, Up(t, n), n.name) == Some(n) && |n.name| == 4 && ValidSegment(n.name)
  {
    UpStep(t, n);
    FindProper(t.forest, Up(t, n));
    SiblingFound(Kids(t, Up(t, n)), n);
  }

  lemma {:induction false} FollowSnoc(t: Tree, n: Node, segs: seq<Name>, x: Name)
    requires WellFormed(t) && In(t, n)
    ensures Follow(t, n, segs + [x]) == match Follow(t, n, segs) case None => None case Some(m) => Sub(t, m, x)
    decreases |segs|
  {
    if segs == [] {
      SubIn(t, n, x);
      assert ([] + [x])[1..] == [];
    } else {
      assert (segs + [x])[1..] == segs[1..] + [x];
      SubIn(t, n, segs[0]);
      var c := Sub(t, n, segs[0]);
      if c.Some? { FollowSnoc(t, c.value, segs[1..], x); }
    }
  }

  lemma {:induction false} FollowPath(t: Tree, n: Node)
    requires WellFormed(t) && In(t, n) && ProperNames(t.forest)
    ensures Follow(t, t.root, PathNames(t, n)) == Some(n) && ValidNames(PathNames(t, n))
    decreases Depth(t, n)
  {
    if n != t.root {
      FoundBelowParent(t, n);
      FollowPath(t, Up(t, n));
      FollowSnoc(t, t.root, PathNames(t, Up(t, n)), n.name);
    }
  }

  /** With proper names, resolving a node's absolute path finds that node, from any scope. */
  lemma PathRoundTrip(t: Tree, n: Node, scope: Node, mayRise: bool)
    requires WellFormed(t) && In(t, n) && In(t, scope) && ProperNames(t.forest)
    ensures Resolve(t, scope, PathOf(t, n), mayRise) == Found(n)
  {
    FollowPath(t, n);
    var names := PathNames(t, n);
    assert PathOf(t, n)[1..] == Joined(names) && [] + Joined(names) == Joined(names);
    SegmentsFollow(t, scope, t.root, names, false, false, mayRise, Joined(names));
  }

  // -- The code -------------------------------------------------------------------------------

  method NodeDepth(node: Node, ghost t: Tree) returns (depth: nat)
    requires WellFormed(t) && InMemory(t) && In(t, node)
    ensures depth == |PathNames(t, node)| && InMemory(t)
  {
    var n: Node := node;
    depth := 0;
    UpLinked(t, n);
    while n.parent != null
      invariant InMemory(t) && In(t, n) && depth + |PathNames(t, n)| == |PathNames(t, node)|
      invariant n.parent == null <==> n == t.root
      decreases Depth(t, n)
    {
      UpLinked(t, n);
      UpStep(t, n);
      depth := depth + 1;
      n := n.parent;
      UpLinked(t, n);
    }
  }

  /** The part of the path that is written from the back: a dot if more is to come. */
  ghost function Tail(names: seq<Name>, more: bool): string {
    (if more && names != [] then ['.'] else []) + Joined(names) + [NULL]
  }

  /** Writing one more name in front. */
  lemma TailGrows(names: seq<Name>, x: Name, more: bool)
    ensures Tail([x] + names, more) == (if more then ['.'] else []) + x + Tail(names, true)
  {
    assert ([x] + names)[1..] == names;
  }

  /** The buffer with some characters overwritten. */
  function Put(buf: string, at: nat, text: string): (r: string)
    requires at + |text| <= |buf|
    ensures |r| == |buf| && r[at..] == text + buf[at + |text|..] && r[..at] == buf[..at]
  {
    buf[..at] + text + buf[at + |text|..]
  }

  lemma PutNothing(buf: string, at: nat)
    requires at <= |buf|
    ensures Put(buf, at, []) == buf
  {}

  /** How far the buffer is filled: the names from `n` up are still missing. */
  ghost predicate Filling(t: Tree, node: Node, n: Node, path: string, offset: nat, done: seq<Name>)
    requires WellFormed(t) && In(t, node) && In(t, n)
  {
    && PathNames(t, n) + done == PathNames(t, node) && 0 < offset <= |path| && path[0] == '\\'
    && offset == 1 + (if n == t.root then 0 else 5 * |PathNames(t, n)| - 1)
    && path[offset..] == Tail(done, n != t.root)
  }

  lemma PutTwice(path: string, offset: nat, name: Name, dot: string)
    requires |name| == 4 && 5 + |dot| <= offset <= |path|
    ensures var p := Put(Put(path, offset - 4, name), offset - 4 - |dot|, dot);
      |p| == |path| && p[0] == path[0] && p[offset - 4 - |dot|..] == dot + name + path[offset..]
  {
    var p1 := Put(path, offset - 4, name);
    assert p1[offset - 4..] == name + path[offset..];
    assert p1[..offset - 4][0] == path[..offset - 4][0];
    var at := offset - 4 - |dot|;
    var p2 := Put(p1, at, dot);
    assert p2[at..] == dot + p1[offset - 4..];
    assert p2[..at][0] == p1[..at][0];
  }

  lemma PathStep(t: Tree, n: Node, done: seq<Name>)
    requires WellFormed(t) && n in Nodes(t.forest) && FourCharacters(t)
    ensures In(t, Up(t, n)) && |n.name| == 4
    ensures PathNames(t, Up(t, n)) + ([n.name] + done) == PathNames(t, n) + done
    ensures |PathNames(t, n)| == |PathNames(t, Up(t, n))| + 1 && (Up(t, n) == t.root <==> |PathNames(t, Up(t, n))| == 0)
  {
    UpStep(t, n);
    RootHasNoNames(t, Up(t, n));
    assert PathNames(t, n) == PathNames(t, Up(t, n)) + [n.name];
  }

  /** One more name, and a dot in front of it unless it is the first. */
  lemma FillingStep(t: Tree, node: Node, n: Node, path: string, offset: nat, done: seq<Name>)
    requires WellFormed(t) && In(t, node) && n in Nodes(t.forest) && n != t.root && FourCharacters(t)
    requires Filling(t, node, n, path, offset, done)
    ensures In(t, Up(t, n)) && |n.name| == 4
    ensures 5 <= offset <= |path|
    ensures var p := Put(path, offset - 4, n.name);
      if Up(t, n) == t.root then Filling(t, node, Up(t, n), p, offset - 4, [n.name] + done)
      else 6 <= offset && Filling(t, node, Up(t, n), Put(p, offset - 5, ['.']), offset - 5, [n.name] + done)
  {
    hide PathNames, Tail, Put, FourCharacters, WellFormed;
    var dot := if Up(t, n) == t.root then [] else ['.'];
    PathStep(t, n, done);
    PutNothing(Put(path, offset - 4, n.name), offset - 4);
    PutTwice(path, offset, n.name, dot);
    TailGrows(done, n.name, Up(t, n) != t.root);
  }

  lemma FillingStart(t: Tree, node: Node, path: string)
    requires WellFormed(t) && In(t, node) && path != [] && path[0] == '\\' && path[|path| - 1] == NULL
    requires |path| == 2 + (if node == t.root then 0 else 5 * |PathNames(t, node)| - 1)
    ensures Filling(t, node, node, path, |path| - 1, [])
  {
    RootHasNoNames(t, node);
    assert PathNames(t, node) + [] == PathNames(t, node);
    assert path[|path| - 1..] == [NULL];
  }

  lemma FillingDone(t: Tree, node: Node, path: string, offset: nat, done: seq<Name>)
    requires WellFormed(t) && In(t, node) && Filling(t, node, t.root, path, offset, done)
    ensures path == PathOf(t, node) + [NULL]
  {
    assert [] + done == done;
    hide Joined;
    assert path == ['\\'] + path[1..];
    assert path[1..] == Joined(done) + [NULL];
  }

  /** Overwrites some characters of the buffer. */
  method PutText(path: array<char>, at: nat, text: string)
    requires at + |text| <= path.Length
    modifies path
    ensures path[..] == Put(old(path[..]), at, text)
  {
    ghost var before := path[..];
    for i := 0 to |text|
      invariant path[..at] == before[..at] && path[at..at + i] == text[..i] && path[at + i..] == before[at + i..]
    {
      path[at + i] := text[i];
    }
    assert path[..] == path[..at] + path[at..at + |text|] + path[at + |text|..];
  }

  lemma {:induction false} NodesAllocated(f: Forest)
    ensures forall n {:trigger n in Nodes(f)} :: n in Nodes(f) ==> allocated(n)
  {
    if f.Cons? {
      NodesAllocated(f.kids);
      NodesAllocated(f.rest);
    }
  }

  /** Puts the name of the node in front of what is there, and a dot in front of the name
      unless it is the first. */
  method PutInFront(path: array<char>, end: nat, n: Node, root: Node, ghost t: Tree, ghost node: Node, ghost done: seq<Name>)
    returns (offset: nat, up: Node)
    requires WellFormed(t) && InMemory(t) && In(t, node) && t.root == root && FourCharacters(t) && In(t, n) && n != root
    requires 0 < end <= path.Length && Filling(t, node, n, path[..], end, done)
    modifies path
    ensures InMemory(t) && In(t, up) && Depth(t, up) < Depth(t, n)
    ensures 0 < offset <= path.Length && Filling(t, node, up, path[..], offset, [n.name] + done)
  {
    hide Filling, Put, PathNames, WellFormed, FourCharacters, InMemory, Up, Depth, Kids;
    UpLinked(t, n);
    UpStep(t, n);
    FillingStep(t, node, n, path[..], end, done);
    up := n.parent;
    NodesAllocated(t.forest);
    offset := end - 4;
    PutText(path, offset, n.name);
    if up != root {
      offset := offset - 1;
      PutText(path, offset, ['.']);
    }
  }

  /** The path is written from the back into a buffer of exactly the computed size. */
  method GenerateAbsolutePath(node: Node, root: Node, ghost t: Tree) returns (path: array<char>)
    requires WellFormed(t) && InMemory(t) && In(t, node) && t.root == root && FourCharacters(t)
    ensures fresh(path) && path[..] == PathOf(t, node) + [NULL]
  {
    var d := NodeDepth(node, t);
    var depth := d + 1;
    var bytes := 1 + (depth - 1) * 4 + (if depth > 2 then depth - 2 else 0) + 1;
    RootHasNoNames(t, node);
    path := new char[bytes];
    var offset := bytes - 1;
    path[0], path[offset] := '\\', NULL;
    FillingStart(t, node, path[..]);
    hide Filling, PathNames, PathOf, WellFormed, FourCharacters, Depth;
    var n: Node := node;
    ghost var done: seq<Name> := [];
    while n != root
      invariant fresh(path) && InMemory(t) && In(t, n) && 0 < offset <= path.Length && Filling(t, node, n, path[..], offset, done)
      decreases Depth(t, n)
    {
      ghost var name := n.name;
      offset, n := PutInFront(path, offset, n, root, t, node, done);
      done := [name] + done;
    }
    FillingDone(t, node, path[..], offset, done);
  }

  lemma RootHasNoNames(t: Tree, n: Node)
    requires WellFormed(t) && In(t, n)
    ensures n == t.root <==> PathNames(t, n) == []
  {}
}
