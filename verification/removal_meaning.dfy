/** Removing rules leaves every surviving rule as it was: its matches, its memories and the caches. */
module RemovalMeaning {
  import opened Syntax
  import opened Sequences
  import opened Network
  import opened WellFormed
  import opened Compile
  import opened Meaning
  import opened Waits
  import opened Compaction
  import opened Removal

  /** `f` is `e` cut down to the nodes `s`, each of them unchanged up to renumbering. */
  ghost predicate Survived(e: Engine, s: set<NodeId>, f: Engine) {
    && s <= e.beta.nodes.Keys && f.beta.nodes.Keys == s
    && f.beta.root == e.beta.root && f.beta.next == e.beta.next
    && (forall n :: n in s ==> SameNode(e, f, s, n))
  }

  lemma RemovedSurvives(e: Engine, removed: set<RuleId>, s: set<NodeId>, f: Engine)
    requires EngineWf(e, {}) && IsRetained(e.beta, removed, s) && RemovedTo(e, s, f)
    ensures Survived(e, s, f)
  {
    forall n | n in s ensures n in f.beta.nodes && SameNode(e, f, s, n) {
      SurvivorsUnchanged(e, s, f, n);
    }
    RemovedKeys(e, s, f);
  }

  lemma RemovedKeys(e: Engine, s: set<NodeId>, f: Engine)
    requires MemoriesOk(e.beta) && AlphaIdsOk(e) && AlphaCacheOk(e) && RemovedTo(e, s, f)
    requires s <= e.beta.nodes.Keys
    ensures f.beta.nodes.Keys == s && f.beta.root == e.beta.root && f.beta.next == e.beta.next
  {
    AlphasAreKept(e, s);
    var mid := RetainNodes(e.beta, s);
    assert mid.nodes.Keys == s;
    assert f.beta.nodes.Keys == mid.nodes.Keys;
  }

  // ----- terms -----

  lemma {:induction false} TermSurvives(e: Engine, s: set<NodeId>, f: Engine, n: NodeId, t: Term)
    requires Survived(e, s, f) && ClosedSet(e.beta.nodes, s) && n in s
    requires Represents(e.paths, e.beta.nodes, n, t)
    ensures Represents(f.paths, f.beta.nodes, n, t)
    decreases t
  {
    assert SameNode(e, f, s, n) && NeedsIn(e.beta.nodes, n, s);
    var a := e.beta.nodes[n];
    match t
    case Start =>
    case JoinTerm(up, _, _, _, _) => TermSurvives(e, s, f, a.parent, up);
    case NegativeTerm(up, _, _, _) => TermSurvives(e, s, f, a.parent, up);
    case ExistsTerm(up, _, _, _) => TermSurvives(e, s, f, a.parent, up);
    case PredicateTerm(up, _, _) => TermSurvives(e, s, f, a.parent, up);
    case NccTerm(up, sub) =>
      var p := a.kind.partner;
      assert SameNode(e, f, s, p) && NeedsIn(e.beta.nodes, p, s);
      TermSurvives(e, s, f, a.parent, up);
      TermSurvives(e, s, f, e.beta.nodes[p].parent, sub);
  }

  lemma {:induction false} TermReflected(e: Engine, s: set<NodeId>, f: Engine, n: NodeId, t: Term)
    requires Survived(e, s, f) && ClosedSet(e.beta.nodes, s) && n in s
    requires Represents(f.paths, f.beta.nodes, n, t)
    ensures Represents(e.paths, e.beta.nodes, n, t)
    decreases t
  {
    assert SameNode(e, f, s, n) && NeedsIn(e.beta.nodes, n, s);
    var a := e.beta.nodes[n];
    match t
    case Start =>
    case JoinTerm(up, _, _, _, _) => TermReflected(e, s, f, a.parent, up);
    case NegativeTerm(up, _, _, _) => TermReflected(e, s, f, a.parent, up);
    case ExistsTerm(up, _, _, _) => TermReflected(e, s, f, a.parent, up);
    case PredicateTerm(up, _, _) => TermReflected(e, s, f, a.parent, up);
    case NccTerm(up, sub) =>
      var p := a.kind.partner;
      assert SameNode(e, f, s, p) && NeedsIn(e.beta.nodes, p, s);
      TermReflected(e, s, f, a.parent, up);
      TermReflected(e, s, f, e.beta.nodes[p].parent, sub);
  }

  // ----- the engine invariant -----

  lemma {:induction false} FilterMembers(children: seq<NodeId>, s: set<NodeId>)
    ensures forall c :: c in FilterChildren(children, s) <==> c in children && c in s
    ensures NoDuplicates(children) ==> NoDuplicates(FilterChildren(children, s))
  {
    if children != [] {
      FilterMembers(children[1..], s);
      assert children == [children[0]] + children[1..];
      if NoDuplicates(children) {
        assert forall i, j :: 0 <= i < j < |children[1..]| ==> children[1..][i] == children[i + 1] && children[1..][j] == children[j + 1];
        assert children[0] !in children[1..];
      }
    }
  }

  lemma TreeSurvives(e: Engine, s: set<NodeId>, f: Engine)
    requires Survived(e, s, f) && ClosedSet(e.beta.nodes, s) && TreeOk(e.beta) && e.beta.root in s
    ensures TreeOk(f.beta)
  {
    assert SameNode(e, f, s, e.beta.root);
    forall n | n in f.beta.nodes
      ensures n < f.beta.next && (f.beta.nodes[n].kind.Root? <==> n == f.beta.root)
           && (n != f.beta.root ==> HasOlderParent(f.beta.nodes, n))
    {
      assert SameNode(e, f, s, n) && NeedsIn(e.beta.nodes, n, s);
      if n != f.beta.root {
        assert HasOlderParent(e.beta.nodes, n);
        assert SameNode(e, f, s, e.beta.nodes[n].parent);
      }
    }
  }

  lemma ChildrenSurvive(e: Engine, s: set<NodeId>, f: Engine)
    requires Survived(e, s, f) && ChildrenOk(e.beta)
    ensures ChildrenOk(f.beta)
  {
    forall p | p in f.beta.nodes && f.beta.nodes[p].Inner() ensures NoDuplicates(f.beta.nodes[p].children) {
      assert SameNode(e, f, s, p);
      FilterMembers(e.beta.nodes[p].children, s);
    }
    forall p, c | p in f.beta.nodes && f.beta.nodes[p].Inner() && c in f.beta.nodes[p].children
      ensures IsChild(f.beta.nodes, p, c)
    {
      assert SameNode(e, f, s, p);
      FilterMembers(e.beta.nodes[p].children, s);
      assert IsChild(e.beta.nodes, p, c);
      assert SameNode(e, f, s, c);
    }
    forall c | c in f.beta.nodes && !f.beta.nodes[c].kind.Root? ensures Listed(f.beta.nodes, c) {
      assert SameNode(e, f, s, c);
      assert Listed(e.beta.nodes, c);
      var p := f.beta.nodes[c].parent;
      if p in f.beta.nodes {
        assert SameNode(e, f, s, p);
        FilterMembers(e.beta.nodes[p].children, s);
      }
    }
  }

  lemma PairSurvives(e: Engine, s: set<NodeId>, f: Engine, n: NodeId)
    requires MemoriesOk(e.beta) && AlphaIdsOk(e) && AlphaCacheOk(e) && RemovedTo(e, s, f)
    requires n in s && n in e.beta.nodes && e.beta.nodes[n].kind.Ncc? && Paired(e.beta.nodes, n)
    requires e.beta.nodes[n].kind.partner in s
    ensures n in f.beta.nodes && f.beta.nodes[n].kind.Ncc? && Paired(f.beta.nodes, n)
  {
    SurvivorsUnchanged(e, s, f, n);
    SurvivorsUnchanged(e, s, f, e.beta.nodes[n].kind.partner);
  }

  lemma PairsSurvive(e: Engine, removed: set<RuleId>, s: set<NodeId>, f: Engine)
    requires EngineWf(e, {}) && IsRetained(e.beta, removed, s) && RemovedTo(e, s, f) && Survived(e, s, f)
    ensures PairsOk(f.beta, {})
  {
    RetainedKinds(e.beta, removed, s);
    forall n | n in f.beta.nodes && f.beta.nodes[n].kind.Ncc? ensures Paired(f.beta.nodes, n) {
      assert SameNode(e, f, s, n) && NeedsIn(e.beta.nodes, n, s) && Paired(e.beta.nodes, n);
      PairSurvives(e, s, f, n);
    }
    PartnersSurvive(e, s, f);
  }

  lemma PartnersSurvive(e: Engine, s: set<NodeId>, f: Engine)
    requires PairsOk(e.beta, {}) && Survived(e, s, f)
    requires forall n :: n in s && e.beta.nodes[n].kind.NccPartner? ==> e.beta.nodes[n].kind.nccNode in s
    ensures forall p :: p in f.beta.nodes && f.beta.nodes[p].kind.NccPartner? ==> PartnerOf(f.beta.nodes, p)
  {
    forall p | p in f.beta.nodes && f.beta.nodes[p].kind.NccPartner? ensures PartnerOf(f.beta.nodes, p) {
      assert SameNode(e, f, s, p) && PartnerOf(e.beta.nodes, p);
      assert SameNode(e, f, s, e.beta.nodes[p].kind.nccNode);
    }
  }

  lemma MemoriesSurvive(e: Engine, s: set<NodeId>, f: Engine)
    requires MemoriesOk(e.beta) && AlphaIdsOk(e) && AlphaCacheOk(e) && RemovedTo(e, s, f) && Survived(e, s, f)
    ensures MemoriesOk(f.beta) && AlphaIdsOk(f)
  {
    forall n | n in f.beta.nodes
      ensures OwnsMemories(f.beta, f.beta.nodes[n]) && (f.beta.nodes[n].ReadsAlpha() ==> f.beta.nodes[n].kind.alpha < |f.paths|)
    {
      NodeIdsSurvive(e, s, f, n);
    }
    TablesRenumbered(e, s, f);
  }

  lemma NodeIdsSurvive(e: Engine, s: set<NodeId>, f: Engine, n: NodeId)
    requires n in e.beta.nodes && n in f.beta.nodes && SameNode(e, f, s, n)
    ensures OwnsMemories(f.beta, f.beta.nodes[n])
    ensures f.beta.nodes[n].ReadsAlpha() ==> f.beta.nodes[n].kind.alpha < |f.paths|
  {
  }

  lemma TablesRenumbered(e: Engine, s: set<NodeId>, f: Engine)
    requires MemoriesOk(e.beta) && AlphaIdsOk(e) && AlphaCacheOk(e) && RemovedTo(e, s, f)
    ensures IdsAreIndices(f.beta.memories) && IdsAreIndices(f.beta.negMemories)
    ensures IdsAreIndices(f.beta.nccMemories) && IdsAreIndices(f.beta.existsMemories)
  {
    AlphasAreKept(e, s);
  }

  lemma AlphaCacheSurvives(e: Engine, s: set<NodeId>, f: Engine)
    requires MemoriesOk(e.beta) && AlphaIdsOk(e) && AlphaCacheOk(e) && RemovedTo(e, s, f)
    ensures AlphaCacheOk(f)
  {
    var keep := AlphaFlags(e, s);
    forall k | k in f.alphaCache ensures f.alphaCache[k] < |f.paths| && f.paths[f.alphaCache[k]] == k {
      CompactAt(e.paths, keep, e.alphaCache[k]);
    }
    forall j | 0 <= j < |f.paths| ensures f.paths[j] in f.alphaCache && f.alphaCache[f.paths[j]] == j {
      CompactAt(e.paths, keep, 0);
      var i := CompactOnto(e.paths, keep, |keep|, j);
      CompactAt(e.paths, keep, i);
      assert e.alphaCache[e.paths[i]] == i;
    }
  }

  lemma JoinAlphaRenumbered(e: Engine, s: set<NodeId>, f: Engine, n: NodeId)
    requires MemoriesOk(e.beta) && AlphaIdsOk(e) && AlphaCacheOk(e) && RemovedTo(e, s, f)
    requires n in e.beta.nodes && n in s && e.beta.nodes[n].kind.Join?
    ensures e.beta.nodes[n].kind.alpha < |AlphaFlags(e, s)| && AlphaFlags(e, s)[e.beta.nodes[n].kind.alpha]
    ensures n in f.beta.nodes && f.beta.nodes[n].kind.Join?
    ensures KeyOf(f.beta.nodes[n]) == RemappedKey(KeyOf(e.beta.nodes[n]), AlphaFlags(e, s))
  {
    RetainedCovered(e.beta, s);
    AlphasAreKept(e, s);
    var mid := RetainNodes(e.beta, s);
    assert mid.nodes[n] == RenumberNode(Kept(e.beta, s)[n], SurvivingMemories(e.beta, s));
    assert f.beta.nodes[n] == RenumberAlpha(mid.nodes[n], AlphaFlags(e, s));
  }

  lemma JoinCacheSurvives(e: Engine, s: set<NodeId>, f: Engine)
    requires MemoriesOk(e.beta) && AlphaIdsOk(e) && AlphaCacheOk(e) && JoinCacheOk(e) && RemovedTo(e, s, f) && Survived(e, s, f)
    ensures JoinCacheOk(f)
  {
    var keep := AlphaFlags(e, s);
    forall j | j in f.joinCache ensures CachedJoin(f, j) {
      var k :| k in e.joinCache && e.joinCache[k] in s && k.alpha < |keep| && RemappedKey(k, keep) == j;
      assert CachedJoin(e, k);
      JoinAlphaRenumbered(e, s, f, e.joinCache[k]);
    }
    forall n | n in f.beta.nodes && f.beta.nodes[n].kind.Join? ensures IsCached(f, n) {
      assert SameNode(e, f, s, n);
      assert IsCached(e, n);
      JoinAlphaRenumbered(e, s, f, n);
    }
  }

  /** No lookup of a renumbered id fails, and the engine left behind is well formed again. */
  lemma RemovalKeepsEngine(e: Engine, removed: set<RuleId>, s: set<NodeId>, f: Engine)
    requires EngineWf(e, {}) && IsRetained(e.beta, removed, s) && RemovedTo(e, s, f)
    ensures EngineWf(f, {}) && f.beta.nodes.Keys == s
  {
    RemovedSurvives(e, removed, s, f);
    assert Seed(e.beta, removed, e.beta.root);
    TreeSurvives(e, s, f);
    ChildrenSurvive(e, s, f);
    PairsSurvive(e, removed, s, f);
    MemoriesSurvive(e, s, f);
    AlphaCacheSurvives(e, s, f);
    JoinCacheSurvives(e, s, f);
  }

  /** Rule removal preserves meaning: exactly the terminals of the other rules are left, each with the
      matches it had before, and every surviving node still holds the same partial matches. */
  lemma RemovalPreservesMeaning(e: Engine, removed: set<RuleId>, s: set<NodeId>, f: Engine, w: World, n: NodeId, m: seq<Choice>)
    requires EngineWf(e, {}) && IsRetained(e.beta, removed, s) && RemovedTo(e, s, f)
    requires n in e.beta.nodes
    ensures n in f.beta.nodes && e.beta.nodes[n].kind.Terminal? ==> e.beta.nodes[n].kind.rule !in removed
    ensures e.beta.nodes[n].kind.Terminal? && e.beta.nodes[n].kind.rule !in removed ==>
              && n in f.beta.nodes && f.beta.nodes[n].kind == e.beta.nodes[n].kind
              && f.beta.nodes[n].parent == e.beta.nodes[n].parent && e.beta.nodes[n].parent in f.beta.nodes
    ensures n in f.beta.nodes ==> (Denotes(w, f, n, m) <==> Denotes(w, e, n, m))
    ensures n in f.beta.nodes && e.beta.nodes[n].Inner() ==>
              SameContents(e.beta.memories, f.beta.memories, e.beta.nodes[n].memory, f.beta.nodes[n].memory)
  {
    RemovedSurvives(e, removed, s, f);
    RetainedKinds(e.beta, removed, s);
    if n in s {
      assert SameNode(e, f, s, n) && NeedsIn(e.beta.nodes, n, s);
      if t :| Represents(e.paths, e.beta.nodes, n, t) && Accepts(w, t, m) { TermSurvives(e, s, f, n, t); }
      if t :| Represents(f.paths, f.beta.nodes, n, t) && Accepts(w, t, m) { TermReflected(e, s, f, n, t); }
    } else {
      assert !Seed(e.beta, removed, n);
    }
  }

  // ----- the wait index -----

  lemma SurvivorSkeleton(e: Engine, s: set<NodeId>, f: Engine)
    requires Survived(e, s, f)
    ensures Skeleton(f.beta.nodes, e.beta.nodes)
  {
    forall m | m in f.beta.nodes ensures SameRole(f.beta.nodes[m], e.beta.nodes[m]) {
      assert SameNode(e, f, s, m);
    }
  }

  lemma LastBelow(net: Net, s: set<NodeId>, n: NodeId) returns (m: NodeId)
    requires n in s && OnPath(net.nodes, n, n)
    ensures m in s && OnPath(net.nodes, n, m) && forall k :: k in s && OnPath(net.nodes, n, k) ==> k <= m
  {
    var rest := set k | k in s && OnPath(net.nodes, n, k);
    m := n;
    while rest != {}
      invariant m in s && OnPath(net.nodes, n, m)
      invariant forall k :: k in s && OnPath(net.nodes, n, k) && k !in rest ==> k <= m
      invariant rest <= s && forall k :: k in rest ==> OnPath(net.nodes, n, k)
      decreases |rest|
    {
      var k :| k in rest;
      if k > m { m := k; }
      rest := rest - {k};
    }
  }

  /** Nothing is retained without a reason: below every retained NCC hangs a retained terminal or partner. */
  lemma LastBelowIsLeaf(net: Net, removed: set<RuleId>, s: set<NodeId>, n: NodeId, m: NodeId)
    requires Wf(net, {}) && IsRetained(net, removed, s) && n in s && net.nodes[n].kind.Ncc?
    requires m in s && OnPath(net.nodes, n, m) && forall k :: k in s && OnPath(net.nodes, n, k) ==> k <= m
    ensures net.nodes[m].kind.Terminal? || net.nodes[m].kind.NccPartner?
  {
    if !net.nodes[m].kind.Terminal? && !net.nodes[m].kind.NccPartner? {
      forall k | k in s && !net.nodes[k].kind.Root? ensures net.nodes[k].parent != m {
        assert HasOlderParent(net.nodes, k);
        if net.nodes[k].parent == m { assert OnPath(net.nodes, n, k); }
      }
      LessIsClosed(net, s, m);
      assert HoldsSeeds(net, removed, s - {m});
    }
  }

  lemma LessIsClosed(net: Net, s: set<NodeId>, m: NodeId)
    requires PairsOk(net, {}) && ClosedSet(net.nodes, s) && m in s && !net.nodes[m].kind.NccPartner?
    requires forall k :: k in s && !net.nodes[k].kind.Root? ==> net.nodes[k].parent != m
    ensures ClosedSet(net.nodes, s - {m})
  {
    forall k | k in s - {m} ensures NeedsIn(net.nodes, k, s - {m}) {
      assert NeedsIn(net.nodes, k, s);
      if net.nodes[k].kind.Ncc? { assert Paired(net.nodes, k); }
    }
  }

  lemma ChainedBelow(net: Net, n: NodeId, q: NodeId)
    requires Wf(net, {}) && ChainsOk(net) && n in net.nodes && net.nodes[n].kind.Ncc?
    requires q in net.nodes && net.nodes[q].kind.NccPartner? && OnPath(net.nodes, n, q)
    ensures net.nodes[q].kind.nccNode != n
    ensures n < net.nodes[q].kind.nccNode ==> OnPath(net.nodes, n, net.nodes[q].kind.nccNode)
  {
    var outer := net.nodes[q].kind.nccNode;
    assert Chained(net.nodes, q) && PartnerOf(net.nodes, q);
    assert HasOlderParent(net.nodes, outer);
    if n == outer && OnPath(net.nodes, n, net.nodes[n].parent) { OnPathDown(net.nodes, n, net.nodes[n].parent); }
  }

  /** Below a retained NCC hangs a retained terminal, or a retained partner of an older NCC. */
  lemma {:induction false} Descend(net: Net, removed: set<RuleId>, s: set<NodeId>, n: NodeId) returns (q: NodeId)
    requires Wf(net, {}) && ChainsOk(net) && IsRetained(net, removed, s) && n in s && net.nodes[n].kind.Ncc?
    ensures q in s && OnPath(net.nodes, n, q)
    ensures net.nodes[q].kind.Terminal? || (net.nodes[q].kind.NccPartner? && net.nodes[q].kind.nccNode < n)
    decreases net.next - n, 1, 0
  {
    q := LastBelow(net, s, n);
    LastBelowIsLeaf(net, removed, s, n, q);
    if net.nodes[q].kind.NccPartner? {
      RetainedKinds(net, removed, s);
      ChainedBelow(net, n, q);
      assert PartnerOf(net.nodes, q);
      if n < net.nodes[q].kind.nccNode { q := DescendFrom(net, removed, s, n, net.nodes[q].kind.nccNode); }
    }
  }

  lemma {:induction false} DescendFrom(net: Net, removed: set<RuleId>, s: set<NodeId>, n: NodeId, m: NodeId) returns (q: NodeId)
    requires Wf(net, {}) && ChainsOk(net) && IsRetained(net, removed, s) && n in s && net.nodes[n].kind.Ncc?
    requires m in s && net.nodes[m].kind.Ncc? && n < m && OnPath(net.nodes, n, m)
    ensures q in s && OnPath(net.nodes, n, q)
    ensures net.nodes[q].kind.Terminal? || (net.nodes[q].kind.NccPartner? && net.nodes[q].kind.nccNode < n)
    decreases net.next - n, 0, m
  {
    q := Descend(net, removed, s, m);
    OnPathTransitive(net.nodes, n, m, q);
    if net.nodes[q].kind.NccPartner? {
      RetainedKinds(net, removed, s);
      ChainedBelow(net, n, q);
      assert PartnerOf(net.nodes, q);
      if n < net.nodes[q].kind.nccNode { q := DescendFrom(net, removed, s, n, net.nodes[q].kind.nccNode); }
    }
  }

  /** Removal never cuts the partner a retained nested NCC feeds. */
  lemma FeedsSurvives(e: Engine, removed: set<RuleId>, s: set<NodeId>, f: Engine, n: NodeId)
    requires Wf(e.beta, {}) && ChainsOk(e.beta) && IsRetained(e.beta, removed, s) && Survived(e, s, f)
    requires TreeOk(f.beta) && n in s && e.beta.nodes[n].kind.Ncc?
    ensures Feeds(e.beta.nodes, n) <==> Feeds(f.beta.nodes, n)
  {
    TreeIsOlder(f.beta);
    SurvivorSkeleton(e, s, f);
    if Feeds(e.beta.nodes, n) {
      var q := Descend(e.beta, removed, s, n);
      assert SameNode(e, f, s, q);
      OnPathStable(f.beta.nodes, e.beta.nodes, n, q);
      assert FeedsThrough(f.beta.nodes, n, q);
    }
    if q :| q in f.beta.nodes && FeedsThrough(f.beta.nodes, n, q) {
      assert SameNode(e, f, s, q);
      OnPathStable(f.beta.nodes, e.beta.nodes, n, q);
      assert FeedsThrough(e.beta.nodes, n, q);
    }
  }

  lemma WaitSurvives(e: Engine, removed: set<RuleId>, s: set<NodeId>, f: Engine, n: NodeId)
    requires Wf(e.beta, {}) && Wf(f.beta, {}) && ChainsOk(e.beta) && IsRetained(e.beta, removed, s) && Survived(e, s, f)
    requires n in s
    ensures WaitOf(e.beta, n) == WaitOf(f.beta, n)
  {
    assert SameNode(e, f, s, n);
    if e.beta.nodes[n].kind.Ncc? {
      TreeIsOlder(f.beta);
      SurvivorSkeleton(e, s, f);
      FeedsSurvives(e, removed, s, f, n);
      assert Paired(f.beta.nodes, n);
      EntryWaitStable(f.beta, e.beta, n, Feeds(e.beta.nodes, n));
    }
  }

  lemma WaitsPruned(e: Engine, s: set<NodeId>, f: Engine)
    requires MemoriesOk(e.beta) && AlphaIdsOk(e) && AlphaCacheOk(e) && RemovedTo(e, s, f)
    ensures f.beta.waits == PrunedWaits(e.beta.waits, s)
  {
    AlphasAreKept(e, s);
  }

  /** The index pruned by removal equals the one rebuilt from the smaller graph. */
  lemma RemovalKeepsIndex(e: Engine, removed: set<RuleId>, s: set<NodeId>, f: Engine)
    requires EngineWf(e, {}) && ChainsOk(e.beta) && WaitsOk(e.beta) && IsRetained(e.beta, removed, s) && RemovedTo(e, s, f)
    ensures WaitsOk(f.beta) && IndexTells(f.beta)
  {
    RemovalKeepsEngine(e, removed, s, f);
    RemovedSurvives(e, removed, s, f);
    WaitsPruned(e, s, f);
    PrunedIsRebuilt(e, removed, s, f);
    ExactIndexTells(f.beta, {});
  }

  lemma PrunedIsRebuilt(e: Engine, removed: set<RuleId>, s: set<NodeId>, f: Engine)
    requires Wf(e.beta, {}) && Wf(f.beta, {}) && ChainsOk(e.beta) && IsRetained(e.beta, removed, s) && Survived(e, s, f)
    requires WaitsOk(e.beta) && f.beta.waits == PrunedWaits(e.beta.waits, s)
    ensures WaitsOk(f.beta)
  {
    forall n | n in s ensures WaitOf(e.beta, n) == WaitOf(f.beta, n) { WaitSurvives(e, removed, s, f, n); }
    SameWaits(e.beta, f.beta, s);
  }

  lemma SameWaits(a: Net, b: Net, s: set<NodeId>)
    requires WaitsOk(a) && b.waits == PrunedWaits(a.waits, s) && b.nodes.Keys == s && s <= a.nodes.Keys
    requires forall n :: n in s ==> WaitOf(a, n) == WaitOf(b, n)
    ensures WaitsOk(b)
  {
    if b.waits.Some? {
      forall n ensures SameEntry(b.waits.value, RebuiltWaits(b), n) {
        assert n in s ==> WaitOf(a, n) == WaitOf(b, n);
      }
    }
  }

  lemma RemovalKeepsChains(e: Engine, removed: set<RuleId>, s: set<NodeId>, f: Engine)
    requires EngineWf(e, {}) && ChainsOk(e.beta) && IsRetained(e.beta, removed, s) && RemovedTo(e, s, f)
    ensures ChainsOk(f.beta)
  {
    RemovalKeepsEngine(e, removed, s, f);
    RemovedSurvives(e, removed, s, f);
    ChainsSurvive(e, removed, s, f);
  }

  lemma ChainsSurvive(e: Engine, removed: set<RuleId>, s: set<NodeId>, f: Engine)
    requires Wf(e.beta, {}) && Wf(f.beta, {}) && ChainsOk(e.beta) && IsRetained(e.beta, removed, s) && Survived(e, s, f)
    ensures ChainsOk(f.beta)
  {
    TreeIsOlder(f.beta);
    SurvivorSkeleton(e, s, f);
    forall p | p in f.beta.nodes && f.beta.nodes[p].kind.NccPartner? ensures Chained(f.beta.nodes, p) {
      assert PartnerOf(f.beta.nodes, p);
      ChainSurvives(e, s, f, p);
    }
    forall t, n | t in f.beta.nodes && n in f.beta.nodes && f.beta.nodes[t].kind.Terminal? && OnPath(f.beta.nodes, n, t)
      ensures f.beta.nodes[n].kind.Ncc? ==> !Feeds(f.beta.nodes, n)
    {
      if f.beta.nodes[n].kind.Ncc? { TerminalSurvives(e, removed, s, f, t, n); }
    }
  }

  lemma TerminalSurvives(e: Engine, removed: set<RuleId>, s: set<NodeId>, f: Engine, t: NodeId, n: NodeId)
    requires Wf(e.beta, {}) && TreeOk(f.beta) && ChainsOk(e.beta) && IsRetained(e.beta, removed, s) && Survived(e, s, f)
    requires Older(f.beta.nodes) && Skeleton(f.beta.nodes, e.beta.nodes)
    requires t in f.beta.nodes && n in f.beta.nodes && f.beta.nodes[t].kind.Terminal? && f.beta.nodes[n].kind.Ncc?
    requires OnPath(f.beta.nodes, n, t)
    ensures !Feeds(f.beta.nodes, n)
  {
    assert SameNode(e, f, s, t) && SameNode(e, f, s, n);
    OnPathStable(f.beta.nodes, e.beta.nodes, n, t);
    FeedsSurvives(e, removed, s, f, n);
  }

  lemma ChainSurvives(e: Engine, s: set<NodeId>, f: Engine, p: NodeId)
    requires ChainsOk(e.beta) && Survived(e, s, f) && Older(f.beta.nodes) && Skeleton(f.beta.nodes, e.beta.nodes)
    requires p in f.beta.nodes && f.beta.nodes[p].kind.NccPartner? && PartnerOf(f.beta.nodes, p)
    ensures Chained(f.beta.nodes, p)
  {
    var ncc := f.beta.nodes[p].kind.nccNode;
    assert SameRole(f.beta.nodes[p], e.beta.nodes[p]) && SameRole(f.beta.nodes[ncc], e.beta.nodes[ncc]);
    var top := f.beta.nodes[ncc].parent;
    OnPathStable(f.beta.nodes, e.beta.nodes, top, p);
    forall x | x in f.beta.nodes && f.beta.nodes[x].kind.Ncc? && OnPath(f.beta.nodes, x, p)
      ensures ncc < x || OnPath(f.beta.nodes, x, top)
    {
      assert SameRole(f.beta.nodes[x], e.beta.nodes[x]);
      OnPathStable(f.beta.nodes, e.beta.nodes, x, p);
      OnPathStable(f.beta.nodes, e.beta.nodes, x, top);
    }
  }
}
