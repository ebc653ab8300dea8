/** Growing the alpha test tree, and dropping the paths that lead to no retained memory. */
module AlphaGrowth {
  import opened Syntax
  import opened Sequences
  import opened Compaction
  import opened AlphaGraph

  const EMPTY_TREE: Tree := Tree([], map[], [], [])

  function WithEntry(t: Tree, e: EntryType): (Tree, NodeId) {
    if e in t.entries then (t, t.entries[e])
    else (Tree(t.nodes + [AlphaNode(Entry(e), [], None)], t.entries[e := |t.nodes|],
               t.ups + [None], t.paths + [Some(AlphaPathKey(e, []))]), |t.nodes|)
  }

  function WithChild(nodes: seq<AlphaNode>, parent: NodeId, child: NodeId): seq<AlphaNode> {
    if parent < |nodes| then nodes[parent := nodes[parent].(children := nodes[parent].children + [child])] else nodes
  }

  function Extension(t: Tree, parent: NodeId, test: ConstantTest): Option<AlphaPathKey>
    requires |t.paths| == |t.nodes|
  {
    if parent < |t.paths| && t.paths[parent].Some?
    then Some(t.paths[parent].value.(tests := t.paths[parent].value.tests + [test]))
    else None
  }

  /** A test node under `parent`; under a missing parent it hangs nowhere. */
  function WithTest(t: Tree, parent: NodeId, test: ConstantTest): Tree
    requires |t.paths| == |t.nodes|
  {
    Tree(WithChild(t.nodes + [AlphaNode(Test(test), [], None)], parent, |t.nodes|), t.entries,
         t.ups + [if parent < |t.nodes| then Some(parent) else None],
         t.paths + [Extension(t, parent, test)])
  }

  function WithMemory(t: Tree, n: NodeId, m: AlphaMemoryId): Tree {
    if n < |t.nodes| then t.(nodes := t.nodes[n := t.nodes[n].(memory := Some(m))]) else t
  }

  lemma WithEntryWf(t: Tree, e: EntryType, size: nat)
    requires TreeWf(t, size)
    ensures var (after, n) := WithEntry(t, e);
      && TreeWf(after, size) && n < |after.nodes| && after.paths[n] == Some(AlphaPathKey(e, []))
      && (e !in t.entries ==> after.nodes[n].memory == None)
  {
    if e in t.entries {
      assert t.paths[t.entries[e]] == PathAt(t, t.entries[e]);
    } else {
      WithEntryLinked(t, e);
      WithEntryEntries(t, e, size);
      var after := WithEntry(t, e).0;
      assert after.nodes[|t.nodes|].kind == Entry(e);
      forall x | 0 <= x < |after.nodes| ensures after.paths[x] == PathAt(after, x) {
        if x < |t.nodes| { PathAtStable(t, after, x); }
      }
    }
  }

  lemma WithEntryLinked(t: Tree, e: EntryType)
    requires Linked(t) && e !in t.entries
    ensures Linked(WithEntry(t, e).0)
  {
    var after := WithEntry(t, e).0;
    forall n | 0 <= n < |after.nodes|
      ensures NoDuplicates(after.nodes[n].children)
      ensures forall c :: c in after.nodes[n].children ==> n < c < |after.nodes| && after.ups[c] == Some(n)
    {
      if n < |t.nodes| { assert after.nodes[n] == t.nodes[n]; }
    }
  }

  lemma WithEntryEntries(t: Tree, e: EntryType, size: nat)
    requires EntriesOk(t) && AttachedOk(t.nodes, size) && e !in t.entries
    ensures var after := WithEntry(t, e).0; EntriesOk(after) && AttachedOk(after.nodes, size)
  {
    var after := WithEntry(t, e).0;
    assert forall n :: 0 <= n < |t.nodes| ==> after.nodes[n] == t.nodes[n];
  }

  /** A node that keeps its kind and its parent keeps its path. */
  lemma PathAtStable(t: Tree, after: Tree, x: NodeId)
    requires |t.ups| == |t.nodes| == |t.paths| && |after.ups| == |after.nodes| == |after.paths|
    requires x < |t.nodes| <= |after.nodes| && PathsOk(t) && after.nodes[x].kind == t.nodes[x].kind
    requires t.paths <= after.paths && t.ups <= after.ups
    ensures after.paths[x] == PathAt(after, x)
  {
    assert t.paths[x] == PathAt(t, x);
  }

  /** A new test node keeps the tree well formed exactly when its parent is not the id about to be allocated:
      the new node would then be its own child. */
  lemma WithTestKeepsTree(t: Tree, parent: NodeId, test: ConstantTest, size: nat)
    requires TreeWf(t, size)
    ensures TreeWf(WithTest(t, parent, test), size) <==> parent != |t.nodes|
  {
    if parent != |t.nodes| {
      WithTestWf(t, parent, test, size);
    } else {
      var nodes := WithTest(t, parent, test).nodes;
      assert |t.nodes| in nodes[|t.nodes|].children;
      assert !ChildrenAscend(nodes);
    }
  }

  lemma WithTestWf(t: Tree, parent: NodeId, test: ConstantTest, size: nat)
    requires TreeWf(t, size) && parent != |t.nodes|
    ensures TreeWf(WithTest(t, parent, test), size)
  {
    var after := WithTest(t, parent, test);
    WithTestLinked(t, parent, test);
    WithTestShape(t, parent, test);
    WithTestAttached(t, after, size);
    forall x | 0 <= x < |after.nodes| ensures after.paths[x] == PathAt(after, x) {
      if x < |t.nodes| { PathAtStable(t, after, x); }
    }
  }

  lemma WithTestShape(t: Tree, parent: NodeId, test: ConstantTest)
    requires |t.paths| == |t.nodes|
    ensures var after := WithTest(t, parent, test);
      && |after.nodes| == |t.nodes| + 1 && after.nodes[|t.nodes|].kind == Test(test) && after.nodes[|t.nodes|].memory == None
      && (parent != |t.nodes| ==> after.nodes[|t.nodes|].children == [])
      && forall n :: 0 <= n < |t.nodes| ==>
           && after.nodes[n].kind == t.nodes[n].kind && after.nodes[n].memory == t.nodes[n].memory
           && after.nodes[n].children == t.nodes[n].children + if n == parent then [|t.nodes|] else []
  {
  }

  lemma WithTestAttached(t: Tree, after: Tree, size: nat)
    requires EntriesOk(t) && AttachedOk(t.nodes, size) && after.entries == t.entries
    requires |after.nodes| == |t.nodes| + 1 && after.nodes[|t.nodes|].kind.Test? && after.nodes[|t.nodes|].memory == None
    requires forall n :: 0 <= n < |t.nodes| ==> after.nodes[n].kind == t.nodes[n].kind && after.nodes[n].memory == t.nodes[n].memory
    ensures EntriesOk(after) && AttachedOk(after.nodes, size)
  {
  }

  lemma WithTestLinked(t: Tree, parent: NodeId, test: ConstantTest)
    requires Linked(t) && parent != |t.nodes|
    ensures Linked(WithTest(t, parent, test))
  {
    var after := WithTest(t, parent, test);
    WithTestShape(t, parent, test);
    forall n, c | 0 <= n < |after.nodes| && c in after.nodes[n].children
      ensures n < c < |after.nodes| && after.ups[c] == Some(n)
    {
      if c != |t.nodes| { assert n < |t.nodes| && c in t.nodes[n].children; }
    }
    forall n | 0 <= n < |after.nodes| ensures NoDuplicates(after.nodes[n].children) {
      if n < |t.nodes| { assert NoDuplicates(t.nodes[n].children); }
      if n == parent { DistinctConcat(t.nodes[n].children, [|t.nodes|]); }
    }
  }

  lemma WithMemoryWf(t: Tree, n: NodeId, m: AlphaMemoryId)
    requires TreeWf(t, m)
    ensures TreeWf(WithMemory(t, n, m), m + 1)
  {
    var after := WithMemory(t, n, m);
    assert forall x :: 0 <= x < |t.nodes| ==>
      after.nodes[x].kind == t.nodes[x].kind && after.nodes[x].children == t.nodes[x].children;
    WithMemoryAttached(t.nodes, n, m);
    forall x | 0 <= x < |after.nodes| ensures after.paths[x] == PathAt(after, x) { PathAtStable(t, after, x); }
  }

  lemma WithMemoryAttached(nodes: seq<AlphaNode>, n: NodeId, m: AlphaMemoryId)
    requires AttachedOk(nodes, m)
    ensures n < |nodes| ==> AttachedOk(nodes[n := nodes[n].(memory := Some(m))], m + 1)
    ensures AttachedOk(nodes, m + 1)
  {
  }

  /** Memory `m` hangs on a node, so facts can reach it. */
  ghost predicate Attached(t: Tree, m: AlphaMemoryId) {
    exists n :: 0 <= n < |t.nodes| && t.nodes[n].memory == Some(m)
  }

  /** Creating a memory keeps every earlier one attached exactly when the node carried none. */
  lemma CreationKeepsAttached(t: Tree, n: NodeId, m: AlphaMemoryId)
    requires AttachedOk(t.nodes, m)
    ensures (forall k: AlphaMemoryId :: Attached(t, k) ==> Attached(WithMemory(t, n, m), k)) <==> n >= |t.nodes| || t.nodes[n].memory.None?
  {
    var after := WithMemory(t, n, m);
    if n < |t.nodes| && t.nodes[n].memory.Some? {
      var k := t.nodes[n].memory.value;
      assert Attached(t, k) && k < m;
      forall x | 0 <= x < |after.nodes| ensures after.nodes[x].memory != Some(k) {
        assert x != n ==> after.nodes[x] == t.nodes[x];
      }
    } else {
      forall k: AlphaMemoryId | Attached(t, k) ensures Attached(after, k) {
        var x :| 0 <= x < |t.nodes| && t.nodes[x].memory == Some(k);
        assert after.nodes[x].memory == Some(k);
      }
    }
  }

  /** Two memories created on one entry node: no fact reaches the first any more. */
  lemma SecondMemoryOrphansFirst(e: EntryType, test: Tester, fact: Fact)
    ensures var one := WithMemory(WithEntry(EMPTY_TREE, e).0, 0, 0);
      var two := WithMemory(one, 0, 1);
      && |one.nodes| == |two.nodes| == 1 && ChildrenAscend(one.nodes) && ChildrenAscend(two.nodes)
      && Attached(one, 0) && !Attached(two, 0) && Attached(two, 1)
      && Accepting(one.nodes, test, 0, fact) == [0] && Accepting(two.nodes, test, 0, fact) == [1]
  {
    var one := WithMemory(WithEntry(EMPTY_TREE, e).0, 0, 0);
    var two := WithMemory(one, 0, 1);
    assert one.nodes == [AlphaNode(Entry(e), [], Some(0))] && two.nodes == [AlphaNode(Entry(e), [], Some(1))];
    assert one.nodes[0].memory == Some(0) && two.nodes[0].memory == Some(1);
  }

  // ----- dropping paths -----

  ghost predicate HoldsMemory(nodes: seq<AlphaNode>, retained: set<AlphaMemoryId>, x: NodeId) {
    x < |nodes| && nodes[x].memory.Some? && nodes[x].memory.value in retained
  }

  /** A retained memory hangs at or below `n`. */
  ghost predicate LeadsTo(t: Tree, retained: set<AlphaMemoryId>, n: NodeId) {
    exists x :: HoldsMemory(t.nodes, retained, x) && Below(t.ups, x, n)
  }

  ghost predicate KeepsPaths(t: Tree, retained: set<AlphaMemoryId>, keep: seq<bool>) {
    |keep| == |t.nodes| && forall n :: 0 <= n < |keep| ==> (keep[n] <==> LeadsTo(t, retained, n))
  }

  lemma LeadsToStep(t: Tree, retained: set<AlphaMemoryId>, n: NodeId)
    requires LinksOk(t) && n < |t.nodes|
    ensures LeadsTo(t, retained, n) <==> HoldsMemory(t.nodes, retained, n) || exists c :: c in t.nodes[n].children && LeadsTo(t, retained, c)
  {
    if x :| HoldsMemory(t.nodes, retained, x) && Below(t.ups, x, n) {
      if x != n {
        var c := BelowChild(t, x, n);
        assert LeadsTo(t, retained, c);
      }
    }
    if c :| c in t.nodes[n].children && LeadsTo(t, retained, c) {
      LeadsToAbove(t, retained, c);
    }
    if HoldsMemory(t.nodes, retained, n) { assert Below(t.ups, n, n); }
  }

  lemma LeadsToAbove(t: Tree, retained: set<AlphaMemoryId>, c: NodeId)
    requires LinksOk(t) && c < |t.nodes| && t.ups[c].Some? && LeadsTo(t, retained, c)
    ensures LeadsTo(t, retained, t.ups[c].value)
  {
    var x :| HoldsMemory(t.nodes, retained, x) && Below(t.ups, x, c);
    BelowThrough(t.ups, x, c, t.ups[c].value);
  }

  function RemapId(id: nat, keep: seq<bool>): Option<nat> {
    if id < |keep| && keep[id] then Some(Rank(keep, id)) else None
  }

  function RemapIds(ids: seq<nat>, keep: seq<bool>): seq<nat> {
    if ids == [] then []
    else
      var last := |ids| - 1;
      RemapIds(ids[..last], keep) + (if RemapId(ids[last], keep).Some? then [RemapId(ids[last], keep).value] else [])
  }

  function RemapNode(node: AlphaNode, keep: seq<bool>, kept: seq<bool>): AlphaNode {
    node.(children := RemapIds(node.children, keep), memory := if node.memory.Some? then RemapId(node.memory.value, kept) else None)
  }

  function RemapNodes(nodes: seq<AlphaNode>, keep: seq<bool>, kept: seq<bool>): seq<AlphaNode> {
    seq(|nodes|, i requires 0 <= i < |nodes| => RemapNode(nodes[i], keep, kept))
  }

  function RemapUps(ups: seq<Option<NodeId>>, keep: seq<bool>): seq<Option<NodeId>> {
    seq(|ups|, i requires 0 <= i < |ups| => if ups[i].Some? then RemapId(ups[i].value, keep) else None)
  }

  function RemapEntries(entries: map<EntryType, NodeId>, keep: seq<bool>): map<EntryType, NodeId> {
    map e | e in entries && RemapId(entries[e], keep).Some? :: RemapId(entries[e], keep).value
  }

  /** The tree of the nodes in `keep`, with the memories in `kept` renumbered. */
  function Pruned(t: Tree, keep: seq<bool>, kept: seq<bool>): Tree
    requires |keep| == |t.nodes| == |t.ups| == |t.paths|
  {
    Tree(Compact(RemapNodes(t.nodes, keep, kept), keep), RemapEntries(t.entries, keep),
         Compact(RemapUps(t.ups, keep), keep), Compact(t.paths, keep))
  }

  lemma {:induction false} RemapIdsExact(ids: seq<nat>, keep: seq<bool>)
    ensures forall c :: c in ids && RemapId(c, keep).Some? ==> RemapId(c, keep).value in RemapIds(ids, keep)
    ensures forall y :: y in RemapIds(ids, keep) ==> exists c :: c in ids && RemapId(c, keep) == Some(y)
    ensures NoDuplicates(ids) ==> NoDuplicates(RemapIds(ids, keep))
  {
    if ids != [] {
      var last := |ids| - 1;
      var before, c := ids[..last], ids[last];
      assert ids == before + [c];
      RemapIdsExact(before, keep);
      if RemapId(c, keep).Some? && NoDuplicates(ids) {
        assert c !in before;
        forall y | y in RemapIds(before, keep) ensures y !in [Rank(keep, c)] {
          var b :| b in before && RemapId(b, keep) == Some(y);
          if y == Rank(keep, c) { RankInjective(keep, b, c); }
        }
        DistinctConcat(RemapIds(before, keep), [Rank(keep, c)]);
      }
    }
  }

  /** What a surviving node looks like in the pruned tree. */
  lemma PrunedAt(t: Tree, keep: seq<bool>, kept: seq<bool>, i: NodeId)
    requires |keep| == |t.nodes| == |t.ups| == |t.paths| && i < |keep| && keep[i]
    ensures var p, j := Pruned(t, keep, kept), Rank(keep, i);
      && |p.nodes| == |p.ups| == |p.paths| == Rank(keep, |keep|) && j < |p.nodes|
      && p.nodes[j] == RemapNode(t.nodes[i], keep, kept) && p.paths[j] == t.paths[i]
      && p.ups[j] == if t.ups[i].Some? then RemapId(t.ups[i].value, keep) else None
  {
    CompactAt(RemapNodes(t.nodes, keep, kept), keep, i);
    CompactAt(RemapUps(t.ups, keep), keep, i);
    CompactAt(t.paths, keep, i);
  }

  lemma PrunedSize(t: Tree, keep: seq<bool>, kept: seq<bool>)
    requires |keep| == |t.nodes| == |t.ups| == |t.paths|
    ensures var p := Pruned(t, keep, kept); |p.nodes| == |p.ups| == |p.paths| == Rank(keep, |keep|)
  {
    CompactAt(RemapNodes(t.nodes, keep, kept), keep, 0);
    CompactAt(RemapUps(t.ups, keep), keep, 0);
    CompactAt(t.paths, keep, 0);
  }

  /** The old id of a node of the pruned tree. */
  lemma PrunedFrom(t: Tree, keep: seq<bool>, kept: seq<bool>, j: NodeId) returns (i: NodeId)
    requires |keep| == |t.nodes| == |t.ups| == |t.paths| && j < |Pruned(t, keep, kept).nodes|
    ensures i < |keep| && keep[i] && Rank(keep, i) == j
  {
    PrunedSize(t, keep, kept);
    i := CompactOnto(keep, keep, |keep|, j);
  }

  lemma PrunedChildrenOk(t: Tree, keep: seq<bool>, kept: seq<bool>, i: NodeId)
    requires Linked(t) && |keep| == |t.nodes| && i < |keep| && keep[i]
    ensures var p, j := Pruned(t, keep, kept), Rank(keep, i);
      && |p.nodes| == |p.ups| == |p.paths| && j < |p.nodes|
      && (forall c :: c in p.nodes[j].children ==> j < c < |p.nodes| && p.ups[c] == Some(j))
      && NoDuplicates(p.nodes[j].children)
  {
    var p, j := Pruned(t, keep, kept), Rank(keep, i);
    PrunedAt(t, keep, kept, i);
    RemapIdsExact(t.nodes[i].children, keep);
    forall c | c in p.nodes[j].children ensures j < c < |p.nodes| && p.ups[c] == Some(j) {
      var b :| b in t.nodes[i].children && RemapId(b, keep) == Some(c);
      PrunedAt(t, keep, kept, b);
      RankMonotone(keep, i, b);
    }
  }

  lemma PrunedUpOk(t: Tree, keep: seq<bool>, kept: seq<bool>, i: NodeId)
    requires Linked(t) && |keep| == |t.nodes| && i < |keep| && keep[i] && (t.ups[i].Some? ==> keep[t.ups[i].value])
    requires t.paths[i] == PathAt(t, i)
    ensures var p, j := Pruned(t, keep, kept), Rank(keep, i);
      && |p.nodes| == |p.ups| == |p.paths| && j < |p.nodes|
      && (p.ups[j].Some? ==> p.nodes[j].kind.Test? && p.ups[j].value < j && j in p.nodes[p.ups[j].value].children)
      && p.paths[j] == PathAt(p, j)
  {
    PrunedAt(t, keep, kept, i);
    if t.ups[i].Some? {
      var up := t.ups[i].value;
      PrunedAt(t, keep, kept, up);
      RankMonotone(keep, up, i);
      RemapIdsExact(t.nodes[up].children, keep);
    }
  }

  lemma PrunedEntriesOk(t: Tree, keep: seq<bool>, kept: seq<bool>)
    requires LinksOk(t) && EntriesOk(t) && |keep| == |t.nodes|
    ensures EntriesOk(Pruned(t, keep, kept))
  {
    var p := Pruned(t, keep, kept);
    forall e | e in p.entries ensures p.entries[e] < |p.nodes| && p.nodes[p.entries[e]].kind == Entry(e) {
      PrunedAt(t, keep, kept, t.entries[e]);
    }
    forall j | 0 <= j < |p.nodes| && p.nodes[j].kind.Entry? ensures p.nodes[j].kind.entry in p.entries && p.entries[p.nodes[j].kind.entry] == j {
      var i := PrunedFrom(t, keep, kept, j);
      PrunedAt(t, keep, kept, i);
    }
  }

  lemma PrunedAttachedOk(t: Tree, keep: seq<bool>, kept: seq<bool>)
    requires LinksOk(t) && AttachedOk(t.nodes, |kept|) && |keep| == |t.nodes|
    ensures AttachedOk(Pruned(t, keep, kept).nodes, Rank(kept, |kept|))
  {
    var p := Pruned(t, keep, kept);
    forall j | 0 <= j < |p.nodes| && p.nodes[j].memory.Some? ensures p.nodes[j].memory.value < Rank(kept, |kept|) {
      var i := PrunedFrom(t, keep, kept, j);
      PrunedAt(t, keep, kept, i);
      RankMonotone(kept, t.nodes[i].memory.value, |kept|);
    }
    forall j, k | 0 <= j < |p.nodes| && 0 <= k < |p.nodes| && p.nodes[j].memory.Some? && p.nodes[j].memory == p.nodes[k].memory
      ensures j == k
    {
      var i := PrunedFrom(t, keep, kept, j);
      var h := PrunedFrom(t, keep, kept, k);
      PrunedAt(t, keep, kept, i);
      PrunedAt(t, keep, kept, h);
      RankInjective(kept, t.nodes[i].memory.value, t.nodes[h].memory.value);
    }
  }

  /** Pruning leaves a tree of the same paths. */
  lemma PrunedWf(t: Tree, keep: seq<bool>, kept: seq<bool>, retained: set<AlphaMemoryId>)
    requires TreeWf(t, |kept|) && KeepsPaths(t, retained, keep)
    ensures TreeWf(Pruned(t, keep, kept), Rank(kept, |kept|))
  {
    var p := Pruned(t, keep, kept);
    PrunedSize(t, keep, kept);
    forall j | 0 <= j < |p.nodes|
      ensures (forall c :: c in p.nodes[j].children ==> j < c < |p.nodes| && p.ups[c] == Some(j)) && NoDuplicates(p.nodes[j].children)
      ensures p.ups[j].Some? ==> p.nodes[j].kind.Test? && p.ups[j].value < j && j in p.nodes[p.ups[j].value].children
      ensures p.paths[j] == PathAt(p, j)
    {
      var i := PrunedFrom(t, keep, kept, j);
      if t.ups[i].Some? { LeadsToAbove(t, retained, i); }
      PrunedChildrenOk(t, keep, kept, i);
      assert t.paths[i] == PathAt(t, i);
      PrunedUpOk(t, keep, kept, i);
    }
    PrunedEntriesOk(t, keep, kept);
    PrunedAttachedOk(t, keep, kept);
  }

  // ----- the loops of the pruning -----

  /** Mark nodes from the leaves up: children are created after their parents. */
  method MarkNodes(nodes: seq<AlphaNode>, retained: set<AlphaMemoryId>, ghost t: Tree) returns (keep: seq<bool>)
    requires LinksOk(t) && nodes == t.nodes
    ensures KeepsPaths(t, retained, keep)
  {
    keep := seq(|nodes|, _ => false);
    for index := |nodes| downto 0
      invariant |keep| == |nodes|
      invariant forall n :: index <= n < |keep| ==> (keep[n] <==> LeadsTo(t, retained, n))
    {
      var node := nodes[index];
      LeadsToStep(t, retained, index);
      keep := keep[index := (node.memory.Some? && node.memory.value in retained) || exists c | c in node.children :: keep[c]];
    }
  }

  /** Number the live nodes in their old order. */
  method NumberNodes(keep: seq<bool>) returns (nodeMap: seq<Option<NodeId>>)
    ensures nodeMap == Mapping(keep)
  {
    nodeMap := seq(|keep|, _ => None);
    var next := 0;
    for index := 0 to |keep|
      invariant |nodeMap| == |keep| && next == Rank(keep, index)
      invariant forall i :: 0 <= i < |keep| ==> nodeMap[i] == if i < index && keep[i] then Some(Rank(keep, i)) else None
    {
      if keep[index] {
        nodeMap := nodeMap[index := Some(next)];
        next := next + 1;
      }
    }
  }

  method FilterMap(ids: seq<nat>, mapping: seq<Option<nat>>, ghost keep: seq<bool>) returns (mapped: seq<nat>)
    requires mapping == Mapping(keep)
    ensures mapped == RemapIds(ids, keep)
  {
    mapped := [];
    for i := 0 to |ids|
      invariant mapped == RemapIds(ids[..i], keep)
    {
      assert ids[..i + 1][..i] == ids[..i];
      if ids[i] < |mapping| && mapping[ids[i]].Some? { mapped := mapped + [mapping[ids[i]].value]; }
    }
    assert ids[..|ids|] == ids;
  }

  /** Drain the old nodes, keeping the live ones with their links renumbered. */
  method DrainNodes(nodes: seq<AlphaNode>, keep: seq<bool>, nodeMap: seq<Option<NodeId>>, memoryMap: seq<Option<AlphaMemoryId>>,
                    ghost kept: seq<bool>) returns (live: seq<AlphaNode>)
    requires |keep| == |nodes| && nodeMap == Mapping(keep) && memoryMap == Mapping(kept)
    ensures live == Compact(RemapNodes(nodes, keep, kept), keep)
  {
    live := [];
    for index := 0 to |nodes|
      invariant live == CompactTo(RemapNodes(nodes, keep, kept), keep, index)
    {
      if keep[index] {
        var node := nodes[index];
        var children := FilterMap(node.children, nodeMap, keep);
        var memory := if node.memory.Some? && node.memory.value < |memoryMap| then memoryMap[node.memory.value] else None;
        live := live + [node.(children := children, memory := memory)];
      }
    }
  }
}
