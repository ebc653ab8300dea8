/** Building one alpha path: the new memory answers for its path at once, and every older one keeps its own. */
module AlphaPaths {
  import opened Syntax
  import opened Sequences
  import opened AlphaGraph
  import opened AlphaGrowth
  import opened AlphaContents
  import opened AlphaMemories
  import opened AlphaNetworks
  import opened Compaction

  ghost predicate ServesAt(t: Tree, x: NodeId, m: AlphaMemoryId, path: AlphaPathKey) {
    x < |t.nodes| && x < |t.paths| && t.nodes[x].memory == Some(m) && t.paths[x] == Some(path)
  }

  ghost predicate HasServer(t: Tree, m: AlphaMemoryId, path: AlphaPathKey) {
    exists x :: ServesAt(t, x, m, path)
  }

  /** Memory `m` hangs on a node of path `paths[m]`, for every memory. */
  ghost predicate Served(t: Tree, paths: seq<AlphaPathKey>) {
    forall m :: 0 <= m < |paths| ==> HasServer(t, m, paths[m])
  }

  /** `b` has the nodes of `a` with their memories and paths, and new nodes without a memory. */
  ghost predicate PathsExtended(a: Tree, b: Tree) {
    && |a.paths| == |a.nodes| <= |b.nodes| == |b.paths|
    && (forall x :: 0 <= x < |a.nodes| ==> b.nodes[x].memory == a.nodes[x].memory && b.paths[x] == a.paths[x])
    && (forall x :: |a.nodes| <= x < |b.nodes| ==> b.nodes[x].memory == None)
  }

  /** The facts every memory holds are the live facts on its path. */
  ghost predicate Synced(alpha: AlphaNetwork, paths: seq<AlphaPathKey>)
    reads alpha, alpha.memories
  {
    alpha.Valid() && alpha.UpToDate() && |paths| == |alpha.memories| && Served(alpha.Shape(), paths)
  }

  /** In a synchronised network, memory `m` is the filter of the live facts by `paths[m]`. */
  lemma SyncedMemory(alpha: AlphaNetwork, paths: seq<AlphaPathKey>, m: AlphaMemoryId)
    requires Synced(alpha, paths) && m < |paths|
    ensures alpha.memories[m].facts == Matching(alpha.live, alpha.base, alpha.test, paths[m])
  {
    assert HasServer(alpha.Shape(), m, paths[m]);
    var x :| ServesAt(alpha.Shape(), x, m, paths[m]);
    assert CurrentAt(alpha.Shape(), Held(alpha.memories), alpha.live, alpha.base, alpha.test, x);
    assert Held(alpha.memories)[m] == alpha.memories[m].facts;
  }

  /** What a join reads from its alpha memory is what its path admits: exactly the facts its meaning quantifies over. */
  lemma MembersPassPath(alpha: AlphaNetwork, paths: seq<AlphaPathKey>, m: AlphaMemoryId, f: FactId)
    requires Synced(alpha, paths) && m < |paths|
    ensures f in alpha.memories[m].facts <==> f in alpha.base && Passes(alpha.test, alpha.base[f], paths[m])
  {
    SyncedMemory(alpha, paths, m);
    MatchingMembers(alpha.live, alpha.base, alpha.test, paths[m]);
  }

  /** Compiling before or after the facts arrive gives the same memories. */
  lemma CompileTimeIsInvisible(a: AlphaNetwork, b: AlphaNetwork, aPaths: seq<AlphaPathKey>, bPaths: seq<AlphaPathKey>,
                               i: AlphaMemoryId, j: AlphaMemoryId)
    requires Synced(a, aPaths) && Synced(b, bPaths) && i < |aPaths| && j < |bPaths| && aPaths[i] == bPaths[j]
    requires a.live == b.live && a.base == b.base && a.test == b.test
    ensures a.memories[i].facts == b.memories[j].facts
  {
    SyncedMemory(a, aPaths, i);
    SyncedMemory(b, bPaths, j);
  }

  lemma EntryExtends(a: Tree, t: Tree, e: EntryType)
    requires PathsExtended(a, t) && |t.paths| == |t.nodes|
    ensures PathsExtended(a, WithEntry(t, e).0)
  {
  }

  lemma TestExtends(a: Tree, t: Tree, parent: NodeId, test: ConstantTest, path: AlphaPathKey)
    requires PathsExtended(a, t) && parent < |t.nodes| && t.paths[parent] == Some(path)
    ensures var after := WithTest(t, parent, test);
      && PathsExtended(a, after) && |after.nodes| == |t.nodes| + 1 && |after.paths| == |after.nodes|
      && after.paths[|t.nodes|] == Some(path.(tests := path.tests + [test]))
  {
    WithTestShape(t, parent, test);
  }

  /** Attaching a new memory leaves the older ones serving their paths. */
  lemma MemoryServes(a: Tree, t: Tree, paths: seq<AlphaPathKey>, n: NodeId, path: AlphaPathKey)
    requires PathsExtended(a, t) && Served(a, paths) && n < |t.nodes| && t.paths[n] == Some(path) && t.nodes[n].memory == None
    ensures Served(WithMemory(t, n, |paths|), paths + [path])
  {
    var after, more := WithMemory(t, n, |paths|), paths + [path];
    assert |t.paths| == |t.nodes|;
    forall m | 0 <= m < |more| ensures HasServer(after, m, more[m]) {
      if m < |paths| { assert HasServer(a, m, paths[m]); }
      if m < |paths| {
        var x :| ServesAt(a, x, m, paths[m]);
        assert ServesAt(after, x, m, more[m]);
      } else {
        assert ServesAt(after, n, m, more[m]);
      }
    }
  }

  lemma MemoryIsCurrent(a: Tree, t: Tree, contents: Contents, live: seq<FactId>, base: map<FactId, Fact>, test: Tester,
                        n: NodeId, path: AlphaPathKey)
    requires PathsExtended(a, t) && AttachedOk(a.nodes, |contents|) && Current(a, contents, live, base, test)
    requires n < |t.nodes| && t.paths[n] == Some(path)
    ensures Current(WithMemory(t, n, |contents|), contents + [Matching(live, base, test, path)], live, base, test)
  {
    var after, filled := WithMemory(t, n, |contents|), contents + [Matching(live, base, test, path)];
    forall x | 0 <= x < |after.nodes| ensures CurrentAt(after, filled, live, base, test, x) {
      if x != n && x < |a.nodes| { assert CurrentAt(a, contents, live, base, test, x); }
    }
  }

  /** An attached memory serves the path of its node. */
  lemma AttachedServes(t: Tree, paths: seq<AlphaPathKey>, n: NodeId)
    requires AttachedOk(t.nodes, |paths|) && Served(t, paths) && n < |t.nodes| == |t.paths| && t.nodes[n].memory.Some?
    ensures t.nodes[n].memory.value < |paths| && t.paths[n] == Some(paths[t.nodes[n].memory.value])
  {
    var m := t.nodes[n].memory.value;
    assert HasServer(t, m, paths[m]);
    var x :| ServesAt(t, x, m, paths[m]);
  }

  /** Build the chain for a path that has no memory yet, and fill its memory from the current facts. */
  method BuildPath(alpha: AlphaNetwork, path: AlphaPathKey, factBase: map<FactId, FactEntry>, ghost paths: seq<AlphaPathKey>)
    returns (m: AlphaMemoryId)
    requires Synced(alpha, paths) && path !in paths && Mirrors(factBase, alpha.live, alpha.base)
    modifies alpha, alpha.memories
    ensures m == |paths| && Synced(alpha, paths + [path]) && Slots(alpha.memories) == old(Slots(alpha.memories)) + [[]]
    ensures alpha.live == old(alpha.live) && alpha.base == old(alpha.base)
    ensures forall i :: 0 <= i < |alpha.memories| ==> alpha.memories[i] in old(alpha.memories) || fresh(alpha.memories[i])
  {
    hide Stored, Linked, PathsOk, EntriesOk, AttachedOk, Inverse, Served, Current, WithTest, WithMemory, Mirrors, PathsExtended;
    ghost var before, contents := alpha.Shape(), Held(alpha.memories);
    TreeSizes(before, |alpha.memories|);
    StartsExtended(before);
    WithEntryWf(before, path.entry, |alpha.memories|);
    EntryExtends(before, before, path.entry);
    var current: NodeId := alpha.CreateEntryNode(path.entry);
    for i := 0 to |path.tests|
      invariant alpha.Valid() && alpha.memories == old(alpha.memories) && Held(alpha.memories) == contents
      invariant Slots(alpha.memories) == old(Slots(alpha.memories))
      invariant alpha.live == old(alpha.live) && alpha.base == old(alpha.base)
      invariant current < |alpha.nodes| == |alpha.paths|
      invariant PathsExtended(before, alpha.Shape())
      invariant alpha.paths[current] == Some(AlphaPathKey(path.entry, path.tests[..i]))
    {
      assert path.tests[..i + 1] == path.tests[..i] + [path.tests[i]];
      TestExtends(before, alpha.Shape(), current, path.tests[i], AlphaPathKey(path.entry, path.tests[..i]));
      current := alpha.CreateConstantTestNode(current, path.tests[i]);
    }
    assert path.tests[..|path.tests|] == path.tests;
    ghost var chain := alpha.Shape();
    ChainEndIsFree(before, chain, paths, current, path);
    MemoryServes(before, chain, paths, current, path);
    MemoryIsCurrent(before, chain, contents, alpha.live, alpha.base, alpha.test, current, path);
    m := alpha.CreateMemory(current);
    if factBase != map[] {
      alpha.BackfillMemory(m, path, factBase);
      assert Held(alpha.memories) == contents + [Matching(alpha.live, alpha.base, alpha.test, path)];
    } else {
      NothingMatches(factBase, alpha.live, alpha.base, alpha.test, path);
    }
  }

  /** Index a path's memory on the slots a new node selects by. */
  method IndexPath(alpha: AlphaNetwork, m: AlphaMemoryId, wanted: seq<(SlotIndex, VarId)>, factBase: map<FactId, FactEntry>,
                   ghost paths: seq<AlphaPathKey>)
    requires Synced(alpha, paths) && m < |paths| && Mirrors(factBase, alpha.live, alpha.base)
    modifies alpha.memories
    ensures Synced(alpha, paths) && m < |old(Slots(alpha.memories))|
    ensures Slots(alpha.memories) == old(Slots(alpha.memories))[m := WithSlots(old(Slots(alpha.memories))[m], wanted)]
  {
    hide Consistent, Stored, Served, Current, Mirrors, WithSlots;
    alpha.RequestIndexes(m, wanted, factBase);
  }

  lemma StartsExtended(t: Tree)
    requires |t.paths| == |t.nodes|
    ensures PathsExtended(t, t)
  {
  }

  lemma ChainEndIsFree(a: Tree, t: Tree, paths: seq<AlphaPathKey>, n: NodeId, path: AlphaPathKey)
    requires PathsExtended(a, t) && AttachedOk(a.nodes, |paths|) && Served(a, paths) && path !in paths
    requires n < |t.nodes| && t.paths[n] == Some(path)
    ensures t.nodes[n].memory == None
  {
    if n < |a.nodes| && a.nodes[n].memory.Some? { AttachedServes(a, paths, n); }
  }

  lemma NothingMatches(factBase: map<FactId, FactEntry>, live: seq<FactId>, base: map<FactId, Fact>, test: Tester, path: AlphaPathKey)
    requires Mirrors(factBase, live, base) && factBase == map[]
    ensures live == [] && Matching(live, base, test, path) == []
  {
    SomeMember(live);
  }

  /** A path whose memory survives keeps its memory, under the new id. */
  lemma PrunedServes(t: Tree, paths: seq<AlphaPathKey>, retained: set<AlphaMemoryId>, keep: seq<bool>, kept: seq<bool>)
    requires |t.ups| == |t.nodes| == |t.paths| && KeepsPaths(t, retained, keep) && Served(t, paths) && kept == Flags(retained, |paths|)
    ensures Served(Pruned(t, keep, kept), Compact(paths, kept))
  {
    var after, left := Pruned(t, keep, kept), Compact(paths, kept);
    CompactAt(paths, kept, 0);
    forall j | 0 <= j < |left| ensures HasServer(after, j, left[j]) {
      var i := CompactOnto(paths, kept, |kept|, j);
      CompactAt(paths, kept, i);
      assert HasServer(t, i, paths[i]);
      var x :| ServesAt(t, x, i, paths[i]);
      assert HoldsMemory(t.nodes, retained, x) && Below(t.ups, x, x);
      PrunedAt(t, keep, kept, x);
      assert ServesAt(after, Rank(keep, x), j, left[j]);
    }
  }

  /** Drop the paths of unused memories: the others stay synchronised under their new ids. */
  method RetainPaths(alpha: AlphaNetwork, retained: set<AlphaMemoryId>, ghost paths: seq<AlphaPathKey>)
    returns (mapping: seq<Option<AlphaMemoryId>>)
    requires Synced(alpha, paths)
    modifies alpha, alpha.memories
    ensures mapping == Mapping(Flags(retained, |paths|)) && Synced(alpha, Compact(paths, Flags(retained, |paths|)))
    ensures |old(Slots(alpha.memories))| == |paths| && Slots(alpha.memories) == Compact(old(Slots(alpha.memories)), Flags(retained, |paths|))
    ensures alpha.live == old(alpha.live) && alpha.base == old(alpha.base)
    ensures forall i :: 0 <= i < |alpha.memories| ==> alpha.memories[i] in old(alpha.memories)
  {
    hide Consistent, Stored, Current, Served, KeepsPaths, Pruned;
    ghost var t, kept := alpha.Shape(), Flags(retained, |paths|);
    ghost var keep;
    mapping, keep := alpha.RetainMemories(retained);
    PrunedServes(t, paths, retained, keep, kept);
    CompactAt(paths, kept, 0);
    CompactAt(old(alpha.memories), kept, 0);
    forall i | 0 <= i < |alpha.memories| ensures alpha.memories[i] in old(alpha.memories) {
      var x := CompactOnto(old(alpha.memories), kept, |kept|, i);
      CompactAt(old(alpha.memories), kept, x);
    }
  }
}
