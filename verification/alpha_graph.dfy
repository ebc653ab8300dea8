/** The alpha test tree as a value: which memories a fact reaches, and which nodes lead to a memory. */
module AlphaGraph {
  import opened Syntax
  import opened Sequences
  import opened Compaction

  type Tester = (Fact, ConstantTest) -> bool

  datatype AlphaKind = Entry(entry: EntryType) | Test(test: ConstantTest)

  datatype AlphaNode = AlphaNode(kind: AlphaKind, children: seq<NodeId>, memory: Option<AlphaMemoryId>)

  /** The tree with its entry table. `ups` and `paths` name each node's parent and its path from an entry;
      a node created under a missing parent has neither. */
  datatype Tree = Tree(
    nodes: seq<AlphaNode>,
    entries: map<EntryType, NodeId>,
    ups: seq<Option<NodeId>>,
    paths: seq<Option<AlphaPathKey>>)

  predicate ChildrenAscend(nodes: seq<AlphaNode>) {
    forall n, c :: 0 <= n < |nodes| && c in nodes[n].children ==> n < c < |nodes|
  }

  ghost function PathAt(t: Tree, n: NodeId): Option<AlphaPathKey>
    requires n < |t.nodes| && |t.ups| == |t.nodes| == |t.paths|
  {
    match t.nodes[n].kind
    case Entry(entry) => Some(AlphaPathKey(entry, []))
    case Test(test) =>
      if t.ups[n].Some? && t.ups[n].value < n && t.paths[t.ups[n].value].Some?
      then Some(t.paths[t.ups[n].value].value.(tests := t.paths[t.ups[n].value].value.tests + [test]))
      else None
  }

  ghost predicate Linked(t: Tree) {
    && |t.ups| == |t.nodes| == |t.paths|
    && ChildrenAscend(t.nodes)
    && (forall n, c :: 0 <= n < |t.nodes| && c in t.nodes[n].children ==> t.ups[c] == Some(n))
    && (forall n :: 0 <= n < |t.nodes| ==> NoDuplicates(t.nodes[n].children))
    && (forall c :: 0 <= c < |t.nodes| && t.ups[c].Some? ==>
          t.nodes[c].kind.Test? && t.ups[c].value < c && c in t.nodes[t.ups[c].value].children)
  }

  ghost predicate PathsOk(t: Tree)
    requires |t.ups| == |t.nodes| == |t.paths|
  {
    forall n {:trigger PathAt(t, n)} :: 0 <= n < |t.nodes| ==> t.paths[n] == PathAt(t, n)
  }

  ghost predicate LinksOk(t: Tree) {
    Linked(t) && PathsOk(t)
  }

  ghost predicate EntriesOk(t: Tree) {
    && (forall e :: e in t.entries ==> t.entries[e] < |t.nodes| && t.nodes[t.entries[e]].kind == Entry(e))
    && (forall n :: 0 <= n < |t.nodes| && t.nodes[n].kind.Entry? ==>
          t.nodes[n].kind.entry in t.entries && t.entries[t.nodes[n].kind.entry] == n)
  }

  /** Attached memories exist, and no two nodes share one. */
  ghost predicate AttachedOk(nodes: seq<AlphaNode>, size: nat) {
    && (forall n :: 0 <= n < |nodes| && nodes[n].memory.Some? ==> nodes[n].memory.value < size)
    && (forall n, x :: 0 <= n < |nodes| && 0 <= x < |nodes| && nodes[n].memory.Some? && nodes[n].memory == nodes[x].memory ==> n == x)
  }

  ghost predicate TreeWf(t: Tree, size: nat) {
    LinksOk(t) && EntriesOk(t) && AttachedOk(t.nodes, size)
  }

  // ----- the memories a fact reaches -----

  predicate AdmitsAt(test: Tester, node: AlphaNode, fact: Fact) {
    node.kind.Test? ==> test(fact, node.kind.test)
  }

  function Own(node: AlphaNode): seq<AlphaMemoryId> {
    if node.memory.Some? then [node.memory.value] else []
  }

  /** Memories accepting `fact` at or below `n`, parents before children. */
  function Accepting(nodes: seq<AlphaNode>, test: Tester, n: NodeId, fact: Fact): seq<AlphaMemoryId>
    requires ChildrenAscend(nodes) && n < |nodes|
    decreases |nodes| - n, |nodes[n].children| + 1
  {
    if !AdmitsAt(test, nodes[n], fact) then []
    else Own(nodes[n]) + AcceptingAll(nodes, test, nodes[n].children, fact, n)
  }

  function AcceptingAll(nodes: seq<AlphaNode>, test: Tester, children: seq<NodeId>, fact: Fact, floor: NodeId): seq<AlphaMemoryId>
    requires ChildrenAscend(nodes) && floor < |nodes| && forall c :: c in children ==> floor < c < |nodes|
    decreases |nodes| - floor, |children|
  {
    if children == [] then []
    else
      var last := |children| - 1;
      assert children[last] in children && forall c :: c in children[..last] ==> c in children;
      AcceptingAll(nodes, test, children[..last], fact, floor) + Accepting(nodes, test, children[last], fact)
  }

  /** `n` is `x` or an ancestor of `x`. */
  ghost predicate Below(ups: seq<Option<NodeId>>, x: NodeId, n: NodeId)
    decreases x
  {
    x == n || (x < |ups| && ups[x].Some? && ups[x].value < x && Below(ups, ups[x].value, n))
  }

  lemma {:induction false} BelowOlder(ups: seq<Option<NodeId>>, x: NodeId, n: NodeId)
    requires Below(ups, x, n)
    ensures n <= x
    decreases x
  {
    if x != n { BelowOlder(ups, ups[x].value, n); }
  }

  lemma {:induction false} BelowComparable(ups: seq<Option<NodeId>>, x: NodeId, a: NodeId, b: NodeId)
    requires Below(ups, x, a) && Below(ups, x, b)
    ensures Below(ups, a, b) || Below(ups, b, a)
    decreases x
  {
    if x != a && x != b { BelowComparable(ups, ups[x].value, a, b); }
  }

  /** The subtrees of two children of one node share nothing. */
  lemma SiblingsApart(ups: seq<Option<NodeId>>, x: NodeId, a: NodeId, b: NodeId, n: NodeId)
    requires a < |ups| && b < |ups| && ups[a] == Some(n) && ups[b] == Some(n) && n < a && n < b
    requires Below(ups, x, a) && Below(ups, x, b)
    ensures a == b
  {
    BelowComparable(ups, x, a, b);
    if a != b {
      if Below(ups, a, b) { BelowOlder(ups, n, b); } else { BelowOlder(ups, n, a); }
    }
  }

  /** A proper descendant of `n` is at or below one of its children. */
  lemma {:induction false} BelowChild(t: Tree, x: NodeId, n: NodeId) returns (c: NodeId)
    requires LinksOk(t) && x < |t.nodes| && n < |t.nodes| && Below(t.ups, x, n) && x != n
    ensures c in t.nodes[n].children && Below(t.ups, x, c)
    decreases x
  {
    var up := t.ups[x].value;
    if up == n { c := x; } else { c := BelowChild(t, up, n); }
  }

  ghost predicate PathPasses(t: Tree, test: Tester, x: NodeId, fact: Fact)
    requires |t.paths| == |t.nodes|
  {
    x < |t.nodes| && t.paths[x].Some? && Passes(test, fact, t.paths[x].value)
  }

  /** Whether a fact passes a node's path: the parent's path, then the node's own test. */
  lemma PathStep(t: Tree, test: Tester, x: NodeId, fact: Fact)
    requires LinksOk(t) && x < |t.nodes| && t.ups[x].Some?
    ensures PathPasses(t, test, x, fact) <==> PathPasses(t, test, t.ups[x].value, fact) && AdmitsAt(test, t.nodes[x], fact)
  {
    var up := t.ups[x].value;
    assert t.paths[x] == PathAt(t, x);
    if t.paths[up].Some? {
      var before := t.paths[up].value.tests;
      var now := t.paths[x].value.tests;
      assert now == before + [t.nodes[x].kind.test];
      assert forall k :: 0 <= k < |before| ==> now[k] == before[k];
      assert now[|before|] == t.nodes[x].kind.test;
    }
  }

  lemma {:induction false} PathPassesAbove(t: Tree, test: Tester, x: NodeId, n: NodeId, fact: Fact)
    requires LinksOk(t) && x < |t.nodes| && Below(t.ups, x, n) && PathPasses(t, test, x, fact)
    ensures n < |t.nodes| && PathPasses(t, test, n, fact)
    decreases x
  {
    if x != n {
      PathStep(t, test, x, fact);
      PathPassesAbove(t, test, t.ups[x].value, n, fact);
    }
  }

  /** Propagation arrives at `n`: the tests above it passed. */
  ghost predicate Arrives(t: Tree, test: Tester, n: NodeId, fact: Fact)
    requires |t.paths| == |t.nodes| == |t.ups|
  {
    && n < |t.nodes|
    && if t.nodes[n].kind.Entry? then t.nodes[n].kind.entry == fact.entry
       else t.ups[n].Some? && PathPasses(t, test, t.ups[n].value, fact)
  }

  lemma ArrivesPasses(t: Tree, test: Tester, n: NodeId, fact: Fact)
    requires LinksOk(t) && Arrives(t, test, n, fact)
    ensures PathPasses(t, test, n, fact) <==> AdmitsAt(test, t.nodes[n], fact)
  {
    assert t.paths[n] == PathAt(t, n);
    if t.nodes[n].kind.Test? { PathStep(t, test, n, fact); }
  }

  ghost predicate AcceptsAt(t: Tree, test: Tester, n: NodeId, fact: Fact, m: AlphaMemoryId, x: NodeId)
    requires |t.paths| == |t.nodes|
  {
    x < |t.nodes| && t.nodes[x].memory == Some(m) && Below(t.ups, x, n) && PathPasses(t, test, x, fact)
  }

  /** Memory `m` hangs at or below `n` on a node whose whole path the fact passes. */
  ghost predicate Accepts(t: Tree, test: Tester, n: NodeId, fact: Fact, m: AlphaMemoryId)
    requires |t.paths| == |t.nodes|
  {
    exists x :: AcceptsAt(t, test, n, fact, m, x)
  }

  ghost predicate AcceptsAny(t: Tree, test: Tester, children: seq<NodeId>, fact: Fact, m: AlphaMemoryId)
    requires |t.paths| == |t.nodes|
  {
    exists k :: 0 <= k < |children| && Accepts(t, test, children[k], fact, m)
  }

  /** Propagation from `n` reaches exactly the memories whose whole path the fact passes, each once. */
  lemma {:induction false} AcceptingExact(t: Tree, test: Tester, n: NodeId, fact: Fact, size: nat)
    requires TreeWf(t, size) && Arrives(t, test, n, fact)
    ensures forall m :: m in Accepting(t.nodes, test, n, fact) <==> Accepts(t, test, n, fact, m)
    ensures NoDuplicates(Accepting(t.nodes, test, n, fact))
    decreases |t.nodes| - n, |t.nodes[n].children| + 1
  {
    ArrivesPasses(t, test, n, fact);
    var children := t.nodes[n].children;
    if AdmitsAt(test, t.nodes[n], fact) {
      AcceptingAllExact(t, test, children, fact, n, size);
      var below := AcceptingAll(t.nodes, test, children, fact, n);
      forall m | m in below ensures m !in Own(t.nodes[n]) {
        var k :| 0 <= k < |children| && Accepts(t, test, children[k], fact, m);
        BelowIsNotOwn(t, test, n, fact, size, children[k], m);
      }
      DistinctConcat(Own(t.nodes[n]), below);
      forall m ensures m in Own(t.nodes[n]) + below <==> Accepts(t, test, n, fact, m) {
        AcceptsSplit(t, test, n, fact, m);
      }
    } else {
      forall m ensures !Accepts(t, test, n, fact, m) {
        if x :| AcceptsAt(t, test, n, fact, m, x) {
          PathPassesAbove(t, test, x, n, fact);
        }
      }
    }
  }

  lemma AcceptsBelow(t: Tree, test: Tester, n: NodeId, fact: Fact, m: AlphaMemoryId, x: NodeId)
    requires LinksOk(t) && n < |t.nodes| && AcceptsAt(t, test, n, fact, m, x) && x != n
    ensures AcceptsAny(t, test, t.nodes[n].children, fact, m)
  {
    var c := BelowChild(t, x, n);
    var k :| 0 <= k < |t.nodes[n].children| && t.nodes[n].children[k] == c;
    assert AcceptsAt(t, test, c, fact, m, x);
  }

  lemma AcceptsAbove(t: Tree, test: Tester, n: NodeId, fact: Fact, m: AlphaMemoryId, c: NodeId)
    requires LinksOk(t) && c < |t.nodes| && t.ups[c] == Some(n) && Accepts(t, test, c, fact, m)
    ensures Accepts(t, test, n, fact, m)
  {
    var x :| AcceptsAt(t, test, c, fact, m, x);
    BelowThrough(t.ups, x, c, n);
    assert AcceptsAt(t, test, n, fact, m, x);
  }

  lemma AcceptsSplit(t: Tree, test: Tester, n: NodeId, fact: Fact, m: AlphaMemoryId)
    requires LinksOk(t) && n < |t.nodes| && PathPasses(t, test, n, fact)
    ensures Accepts(t, test, n, fact, m) <==> t.nodes[n].memory == Some(m) || AcceptsAny(t, test, t.nodes[n].children, fact, m)
  {
    var children := t.nodes[n].children;
    if x :| AcceptsAt(t, test, n, fact, m, x) {
      if x != n { AcceptsBelow(t, test, n, fact, m, x); }
    }
    if k :| 0 <= k < |children| && Accepts(t, test, children[k], fact, m) {
      assert children[k] in children;
      AcceptsAbove(t, test, n, fact, m, children[k]);
    }
    if t.nodes[n].memory == Some(m) { assert AcceptsAt(t, test, n, fact, m, n); }
  }

  /** Memories below different children of a node are different. */
  lemma SiblingsAcceptApart(t: Tree, test: Tester, n: NodeId, fact: Fact, size: nat, a: NodeId, b: NodeId, m: AlphaMemoryId)
    requires TreeWf(t, size) && a < |t.nodes| && b < |t.nodes| && t.ups[a] == Some(n) && t.ups[b] == Some(n)
    requires Accepts(t, test, a, fact, m) && Accepts(t, test, b, fact, m)
    ensures a == b
  {
    var x :| AcceptsAt(t, test, a, fact, m, x);
    var y :| AcceptsAt(t, test, b, fact, m, y);
    SiblingsApart(t.ups, x, a, b, n);
  }

  /** A memory below a child is not the node's own. */
  lemma BelowIsNotOwn(t: Tree, test: Tester, n: NodeId, fact: Fact, size: nat, c: NodeId, m: AlphaMemoryId)
    requires TreeWf(t, size) && n < |t.nodes| && c in t.nodes[n].children && Accepts(t, test, c, fact, m)
    ensures t.nodes[n].memory != Some(m)
  {
    var x :| AcceptsAt(t, test, c, fact, m, x);
    BelowOlder(t.ups, x, c);
  }

  lemma AnySnoc(t: Tree, test: Tester, before: seq<NodeId>, c: NodeId, fact: Fact, m: AlphaMemoryId)
    requires |t.paths| == |t.nodes|
    ensures AcceptsAny(t, test, before + [c], fact, m) <==> AcceptsAny(t, test, before, fact, m) || Accepts(t, test, c, fact, m)
  {
    var children := before + [c];
    if k :| 0 <= k < |before| && Accepts(t, test, before[k], fact, m) { assert Accepts(t, test, children[k], fact, m); }
    if Accepts(t, test, c, fact, m) { assert Accepts(t, test, children[|before|], fact, m); }
  }

  lemma {:induction false} BelowThrough(ups: seq<Option<NodeId>>, x: NodeId, c: NodeId, n: NodeId)
    requires Below(ups, x, c) && c < |ups| && ups[c] == Some(n) && n < c
    ensures Below(ups, x, n)
    decreases x
  {
    if x != c { BelowThrough(ups, ups[x].value, c, n); }
  }

  lemma {:induction false} AcceptingAllExact(t: Tree, test: Tester, children: seq<NodeId>, fact: Fact, n: NodeId, size: nat)
    requires TreeWf(t, size) && n < |t.nodes| && PathPasses(t, test, n, fact)
    requires NoDuplicates(children) && forall c :: c in children ==> c in t.nodes[n].children
    ensures forall m :: m in AcceptingAll(t.nodes, test, children, fact, n) <==> AcceptsAny(t, test, children, fact, m)
    ensures NoDuplicates(AcceptingAll(t.nodes, test, children, fact, n))
    decreases |t.nodes| - n, |children|
  {
    if children != [] {
      var last := |children| - 1;
      var c, before := children[last], children[..last];
      assert c in t.nodes[n].children;
      AcceptingAllExact(t, test, before, fact, n, size);
      AcceptingExact(t, test, c, fact, size);
      var a, b := AcceptingAll(t.nodes, test, before, fact, n), Accepting(t.nodes, test, c, fact);
      forall m | m in a ensures m !in b {
        var k :| 0 <= k < |before| && Accepts(t, test, before[k], fact, m);
        assert before[k] in children && children[k] == before[k];
        if m in b { SiblingsAcceptApart(t, test, n, fact, size, before[k], c, m); }
      }
      assert children == before + [c];
      DistinctConcat(a, b);
      forall m ensures m in a + b <==> AcceptsAny(t, test, children, fact, m) {
        AnySnoc(t, test, before, c, fact, m);
      }
    }
  }

  /** Every node on a path of entry type `e` is below the entry node of `e`. */
  lemma {:induction false} BelowEntry(t: Tree, x: NodeId)
    requires LinksOk(t) && EntriesOk(t) && x < |t.nodes| && t.paths[x].Some?
    ensures t.paths[x].value.entry in t.entries && Below(t.ups, x, t.entries[t.paths[x].value.entry])
    decreases x
  {
    assert t.paths[x] == PathAt(t, x);
    if t.nodes[x].kind.Test? { BelowEntry(t, t.ups[x].value); }
  }

  /** The memories that accept an asserted fact: all and only those whose path it passes. */
  lemma AcceptedByNetwork(t: Tree, test: Tester, fact: Fact, size: nat)
    requires TreeWf(t, size)
    ensures fact.entry in t.entries ==>
              var accepted := Accepting(t.nodes, test, t.entries[fact.entry], fact);
              NoDuplicates(accepted) &&
              forall x :: 0 <= x < |t.nodes| && t.nodes[x].memory.Some? && t.paths[x].Some? ==>
                (t.nodes[x].memory.value in accepted <==> Passes(test, fact, t.paths[x].value))
    ensures fact.entry !in t.entries ==>
              forall x :: 0 <= x < |t.nodes| && t.paths[x].Some? ==> !Passes(test, fact, t.paths[x].value)
  {
    forall x | 0 <= x < |t.nodes| && t.paths[x].Some? && Passes(test, fact, t.paths[x].value)
      ensures fact.entry in t.entries
    {
      BelowEntry(t, x);
    }
    if fact.entry in t.entries {
      var n := t.entries[fact.entry];
      AcceptingExact(t, test, n, fact, size);
      forall x | 0 <= x < |t.nodes| && t.nodes[x].memory.Some? && t.paths[x].Some?
        ensures t.nodes[x].memory.value in Accepting(t.nodes, test, n, fact) <==> Passes(test, fact, t.paths[x].value)
      {
        var m := t.nodes[x].memory.value;
        if Passes(test, fact, t.paths[x].value) {
          BelowEntry(t, x);
          assert AcceptsAt(t, test, n, fact, m, x);
        }
        if y :| AcceptsAt(t, test, n, fact, m, y) { assert y == x; }
      }
    }
  }
}
