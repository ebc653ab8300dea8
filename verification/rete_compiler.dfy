/** The rule compiler object: it mutates both networks and its caches exactly as the compilation function says. */
module ReteCompilers {
  import opened Syntax
  import opened Sequences
  import opened Network
  import opened WellFormed
  import opened Relink
  import opened Compile
  import opened Waits
  import opened Planning
  import opened Binding
  import opened Meaning
  import opened Validation
  import opened BetaNetworks
  import opened AlphaContents
  import opened AlphaNetworks
  import opened AlphaPaths
  import opened Removal
  import opened Compaction

  // ----- facts about intermediate states -----

  lemma BuiltFacts(e: Engine, open: set<NodeId>, n: NodeId, t: Term)
    requires Built(e, e, open, n, t)
    ensures n in e.beta.nodes && e.beta.nodes[n].Inner() && n != e.beta.next && AlphaCacheOk(e) && Older(e.beta.nodes)
    ensures e.beta.next !in e.beta.nodes
  {
    TreeIsOlder(e.beta);
  }

  /** One condition leaves the parent of the next one built, within its share of the ids. */
  lemma OneBuilt(e: Engine, open: set<NodeId>, cx: Context, parent: NodeId, c: Condition, bound: set<Symbol>, nested: bool, up: Term)
    requires RegisteredIn(c, cx.ids) && Built(e, e, open, parent, up)
    ensures var (e1, n) := CompileOne(e, cx, parent, c, bound, nested);
      && Built(e1, e1, open, n, TermOfOne(cx, c, up, bound)) && e1.beta.next <= e.beta.next + NodeDemandOf(c)
  {
    CompileOneOk(e, open, cx, parent, c, bound, nested, up);
    var (e1, n) := CompileOne(e, cx, parent, c, bound, nested);
    BuiltAgain(e, e1, open, n, TermOfOne(cx, c, up, bound));
    DemandOf(e, cx, parent, c, bound, nested);
  }

  lemma SeqBuilt(e: Engine, open: set<NodeId>, cx: Context, parent: NodeId, conditions: seq<Condition>, bound: set<Symbol>, nested: bool, up: Term)
    requires AllRegistered(conditions, cx.ids) && Built(e, e, open, parent, up)
    ensures var (e1, n) := CompileSeq(e, cx, parent, conditions, bound, nested);
      && Built(e1, e1, open, n, TermOf(cx, conditions, up, bound)) && e1.beta.next <= e.beta.next + NodeDemand(conditions)
  {
    CompileSeqOk(e, open, cx, parent, conditions, bound, nested, up);
    var (e1, n) := CompileSeq(e, cx, parent, conditions, bound, nested);
    BuiltAgain(e, e1, open, n, TermOf(cx, conditions, up, bound));
    Demand(e, cx, parent, conditions, bound, nested);
  }

  /** What an NCC needs along the way: its subnetwork compiles from a well-formed graph, and the graph
      stays ordered while the NCC is closed and relinked. */
  lemma NccStages(e: Engine, open: set<NodeId>, cx: Context, parent: NodeId, subs: seq<Condition>, bound: set<Symbol>, up: Term)
    requires AllRegistered(subs, cx.ids) && Built(e, e, open, parent, up)
    ensures var begun := e.(beta := OpenNcc(e.beta, parent));
      var (e1, bottom) := CompileSeq(begun, cx, parent, subs, bound, true);
      var closed := CloseNcc(e1.beta, e.beta.next, bottom, |e.beta.nccMemories|);
      && Built(begun, begun, open + {e.beta.next}, parent, up)
      && e1.beta.next <= e.beta.next + 1 + NodeDemand(subs)
      && Older(closed.nodes) && Older(LinkNcc(closed, e.beta.next).nodes) && e1.beta.next !in e1.beta.nodes
  {
    var begun := e.(beta := OpenNcc(e.beta, parent));
    OpenedOk(e, open, parent, up);
    BuiltAgain(e, begun, open + {e.beta.next}, parent, up);
    CompileSeqOk(begun, open + {e.beta.next}, cx, parent, subs, bound, true, up);
    SeqBuilt(begun, open + {e.beta.next}, cx, parent, subs, bound, true, up);
    var (e1, bottom) := CompileSeq(begun, cx, parent, subs, bound, true);
    NccClosedOlder(e, begun, e1, open, bottom, TermOf(cx, subs, up, bound));
  }

  lemma NccClosedOlder(e: Engine, begun: Engine, e1: Engine, open: set<NodeId>, bottom: NodeId, sub: Term)
    requires e.beta.next in begun.beta.nodes && begun.beta.nodes[e.beta.next].kind == Ncc(e.beta.root, |e.beta.nccMemories|)
    requires Built(begun, e1, open + {e.beta.next}, bottom, sub)
    ensures var closed := CloseNcc(e1.beta, e.beta.next, bottom, |e.beta.nccMemories|);
      Older(closed.nodes) && Older(LinkNcc(closed, e.beta.next).nodes)
  {
    var ncc := e.beta.next;
    assert e1.beta.nodes[ncc].Core() == begun.beta.nodes[ncc].Core();
    CloseNccWf(e1.beta, open + {ncc}, ncc, bottom);
    var closed := CloseNcc(e1.beta, ncc, bottom, |e.beta.nccMemories|);
    TreeIsOlder(closed);
    LinkNccRearranges(closed, ncc);
    LinkedOlder(closed, LinkNcc(closed, ncc));
  }

  lemma LinkedOlder(a: Net, b: Net)
    requires Older(a.nodes) && Rearranged(a, b)
    ensures Older(b.nodes)
  {
    forall m | m in b.nodes && !b.nodes[m].kind.Root? ensures b.nodes[m].parent in b.nodes && b.nodes[m].parent < m {
      assert b.nodes[m].Core() == a.nodes[m].Core();
    }
  }

  // ----- join structure -----

  method VariableTests(slots: seq<(SlotIndex, Symbol)>, ids: VarIds, bound: set<Symbol>)
    returns (tests: seq<JoinTest>, extractions: seq<(SlotIndex, VarId)>)
    requires forall k :: 0 <= k < |slots| ==> slots[k].1 in ids
    ensures tests == EqualityTests(slots, ids, bound) && extractions == Extractions(slots, ids, bound)
  {
    tests, extractions := [], [];
    for i := 0 to |slots|
      invariant tests + EqualityTests(slots[i..], ids, bound) == EqualityTests(slots, ids, bound)
      invariant extractions + Extractions(slots[i..], ids, bound) == Extractions(slots, ids, bound)
    {
      var (slot, x) := slots[i];
      assert slots[i..][1..] == slots[i + 1..];
      if x in bound {
        tests := tests + [JoinTest(slot, ids[x], EQUAL)];
      } else {
        extractions := extractions + [(slot, ids[x])];
      }
    }
  }

  method PatternTests(p: Pattern, ids: VarIds, bound: set<Symbol>) returns (tests: seq<JoinTest>, extractions: seq<(SlotIndex, VarId)>)
    requires Registered(p, ids)
    ensures tests == JoinTests(p, ids, bound) && extractions == Extractions(p.variableSlots, ids, bound)
  {
    tests, extractions := VariableTests(p.variableSlots, ids, bound);
    hide EqualityTests, Extractions;
    var slots := p.negatedVariableSlots;
    ghost var equalities := tests;
    for i := 0 to |slots|
      invariant tests + ComparisonTests(slots[i..], ids) == equalities + ComparisonTests(slots, ids)
    {
      var (slot, x, test) := slots[i];
      assert slots[i..][1..] == slots[i + 1..];
      tests := tests + [JoinTest(slot, ids[x], test)];
    }
    assert slots[|slots|..] == [];
  }

  function SelectorOf(test: JoinTest, sequence: Option<SequencePlan>): seq<(SlotIndex, VarId)> {
    var physical := if sequence.Some? then PhysicalSelector(sequence.value, test.slot) else Some(test.slot);
    if test.test == EQUAL && physical.Some? then [(physical.value, test.variable)] else []
  }

  lemma SelectorStep(tests: seq<JoinTest>, i: nat, sequence: Option<SequencePlan>, wanted: seq<(SlotIndex, VarId)>)
    requires i < |tests|
    ensures wanted + SelectorOf(tests[i], sequence) + IndexableTests(tests[i + 1..], sequence) == wanted + IndexableTests(tests[i..], sequence)
  {
    assert tests[i..][0] == tests[i] && tests[i..][1..] == tests[i + 1..];
  }

  method IndexableSelectors(tests: seq<JoinTest>, sequence: Option<SequencePlan>) returns (wanted: seq<(SlotIndex, VarId)>)
    ensures wanted == IndexableTests(tests, sequence)
  {
    wanted := [];
    for i := 0 to |tests|
      invariant wanted + IndexableTests(tests[i..], sequence) == IndexableTests(tests, sequence)
    {
      SelectorStep(tests, i, sequence, wanted);
      if tests[i].test == EQUAL {
        var physical := if sequence.Some? then PhysicalSelector(sequence.value, tests[i].slot) else Some(tests[i].slot);
        if physical.Some? { wanted := wanted + [(physical.value, tests[i].variable)]; }
      }
    }
  }

  // ----- alpha indices -----

  /** Every equality selector of every reader is indexed in the alpha memory it reads. */
  ghost predicate AlphaIndexed(slots: seq<seq<SlotIndex>>, nodes: map<NodeId, BetaNode>) {
    forall n :: n in nodes && nodes[n].ReadsAlpha() ==> KindIndexed(slots, nodes[n].kind)
  }

  predicate KindIndexed(slots: seq<seq<SlotIndex>>, kind: Kind)
    requires kind.Join? || kind.Negative? || kind.Exists?
  {
    && kind.alpha < |slots|
    && var wanted := IndexableTests(kind.tests, kind.sequence);
      forall k :: 0 <= k < |wanted| ==> wanted[k].0 in slots[kind.alpha]
  }

  /** Memories are only added, and none drops an index. */
  ghost predicate SlotsGrow(a: seq<seq<SlotIndex>>, b: seq<seq<SlotIndex>>) {
    |a| <= |b| && forall i, x :: 0 <= i < |a| && x in a[i] ==> x in b[i]
  }

  /** The readers of `b` are readers of `a` or have this kind. */
  ghost predicate ReadersFrom(a: map<NodeId, BetaNode>, b: map<NodeId, BetaNode>, kind: Kind) {
    forall n :: n in b && b[n].ReadsAlpha() ==> b[n].kind == kind || (n in a && b[n].kind == a[n].kind)
  }

  lemma AlphaStaysIndexed(slots: seq<seq<SlotIndex>>, more: seq<seq<SlotIndex>>, a: map<NodeId, BetaNode>, b: map<NodeId, BetaNode>, kind: Kind)
    requires AlphaIndexed(slots, a) && SlotsGrow(slots, more) && ReadersFrom(a, b, kind)
    requires kind.Join? || kind.Negative? || kind.Exists? ==> KindIndexed(more, kind)
    ensures AlphaIndexed(more, b)
  {
    forall n | n in b && b[n].ReadsAlpha() ensures KindIndexed(more, b[n].kind) {
      if b[n].kind != kind { assert KindIndexed(slots, a[n].kind); }
    }
  }

  lemma StaysIndexed(slots: seq<seq<SlotIndex>>, a: map<NodeId, BetaNode>, b: map<NodeId, BetaNode>)
    requires AlphaIndexed(slots, a) && ReadersFrom(a, b, Root)
    ensures AlphaIndexed(slots, b)
  {
    AlphaStaysIndexed(slots, slots, a, b, Root);
  }

  /** Indexing one memory on what a kind selects by. */
  lemma KindGetsIndexed(slots: seq<seq<SlotIndex>>, ensured: seq<seq<SlotIndex>>, kind: Kind)
    requires kind.Join? || kind.Negative? || kind.Exists?
    requires (ensured == slots || ensured == slots + [[]]) && kind.alpha < |ensured|
    ensures var wanted := IndexableTests(kind.tests, kind.sequence);
      var more := ensured[kind.alpha := WithSlots(ensured[kind.alpha], wanted)];
      KindIndexed(more, kind) && SlotsGrow(slots, more)
  {
    WithSlotsMembers(ensured[kind.alpha], IndexableTests(kind.tests, kind.sequence));
  }

  /** What compiling one pattern adds to the readers. */
  function PatternKind(e: Engine, cx: Context, p: Pattern, bound: set<Symbol>, alpha: AlphaMemoryId): Kind
    requires Registered(p, cx.ids)
  {
    var tests := JoinTests(p, cx.ids, bound);
    if p.negated then Negative(alpha, tests, p.sequence, |e.beta.negMemories|)
    else if p.exists_ then Exists(alpha, tests, p.sequence, |e.beta.existsMemories|)
    else Join(alpha, tests, p.sequence, Extractions(p.variableSlots, cx.ids, bound))
  }

  lemma PatternReaders(e: Engine, cx: Context, parent: NodeId, p: Pattern, bound: set<Symbol>)
    requires Registered(p, cx.ids) && e.beta.next !in e.beta.nodes
    ensures ReadersFrom(e.beta.nodes, CompilePattern(e, cx, parent, p, bound).0.beta.nodes,
                        PatternKind(e, cx, p, bound, ReadyPattern(e, cx, parent, p, bound).1))
  {
    var (ea, alpha) := ReadyPattern(e, cx, parent, p, bound);
    ReadyRoom(e, cx, parent, p, bound);
    NodeAddsReader(PushMemory(ea.beta), PatternKind(e, cx, p, bound, alpha), parent, |ea.beta.memories|);
    hide AddNode, JoinTests, Extractions, ReadyPattern, ReadersFrom;
    SameReadersFrom(e.beta.nodes, PatternKind(e, cx, p, bound, alpha));
  }

  lemma SameReadersFrom(nodes: map<NodeId, BetaNode>, kind: Kind)
    ensures ReadersFrom(nodes, nodes, kind)
  {
  }

  lemma PatternIndexed(e: Engine, open: set<NodeId>, cx: Context, parent: NodeId, p: Pattern, bound: set<Symbol>, up: Term)
    requires Registered(p, cx.ids) && Built(e, e, open, parent, up)
    ensures ReadersFrom(e.beta.nodes, CompilePattern(e, cx, parent, p, bound).0.beta.nodes,
                        PatternKind(e, cx, p, bound, ReadyPattern(e, cx, parent, p, bound).1))
  {
    PatternReaders(e, cx, parent, p, bound);
  }

  lemma ReadyRoom(e: Engine, cx: Context, parent: NodeId, p: Pattern, bound: set<Symbol>)
    requires Registered(p, cx.ids)
    ensures ReadyPattern(e, cx, parent, p, bound).0.beta.next == e.beta.next
    ensures ReadyPattern(e, cx, parent, p, bound).0.beta.nodes == e.beta.nodes
    ensures |ReadyPattern(e, cx, parent, p, bound).0.beta.negMemories| == |e.beta.negMemories|
    ensures |ReadyPattern(e, cx, parent, p, bound).0.beta.existsMemories| == |e.beta.existsMemories|
  {
  }

  /** The other construction steps add no reader. */
  lemma QuietSteps(net: Net, parent: NodeId, rule: RuleId, index: nat)
    requires net.next !in net.nodes
    ensures ReadersFrom(net.nodes, AddPredicate(net, parent, rule, index).nodes, Root)
    ensures ReadersFrom(net.nodes, OpenNcc(net, parent).nodes, Root)
  {
    NodeIsQuiet(PushMemory(net), Predicate(rule, index), parent, |net.memories|);
    NodeIsQuiet(PushMemory(EnableRanks(AllocateNccMemory(net), parent)), Ncc(net.root, |net.nccMemories|), parent, |net.memories|);
  }

  lemma NodeIsQuiet(net: Net, kind: Kind, parent: NodeId, memory: nat)
    requires net.next !in net.nodes && !kind.Join? && !kind.Negative? && !kind.Exists?
    ensures ReadersFrom(net.nodes, AddNode(net, kind, parent, memory).nodes, Root)
  {
  }

  lemma ClosingIsQuiet(net: Net, ncc: NodeId, bottom: NodeId, memory: nat, nested: bool)
    requires net.next !in net.nodes
    ensures ReadersFrom(net.nodes, FinishNcc(CloseNcc(net, ncc, bottom, memory), ncc, nested).nodes, Root)
  {
    NodeIsQuiet(net, NccPartner(ncc, memory), bottom, 0);
    var grown := AddNccPartner(net, bottom, ncc, memory);
    RelinkingIsQuiet(SetNccPartner(grown, ncc, net.next), ncc, nested);
    assert ReadersFrom(grown.nodes, SetNccPartner(grown, ncc, net.next).nodes, Root);
  }

  lemma RelinkingIsQuiet(net: Net, ncc: NodeId, nested: bool)
    ensures ReadersFrom(net.nodes, FinishNcc(net, ncc, nested).nodes, Root)
  {
  }

  lemma NodeAddsReader(net: Net, kind: Kind, parent: NodeId, memory: nat)
    requires net.next !in net.nodes
    ensures ReadersFrom(net.nodes, AddNode(net, kind, parent, memory).nodes, kind)
  {
  }

  lemma AlphaInRange(e: Engine, p: Pattern)
    requires AlphaCacheOk(e)
    ensures EnsureAlpha(e, p).1 < |EnsureAlpha(e, p).0.paths|
  {
  }

  /** The NCC and its memory, pointing at the root until the partner exists. */
  method OpenConjunction(beta: BetaNetwork, parent: NodeId) returns (ncc: NodeId, nccMemory: nat)
    requires beta.nextNodeId < U32_MAX && parent in beta.nodes && beta.nodes[parent].Inner()
    modifies beta
    ensures beta.State() == OpenNcc(old(beta.State()), parent) && ncc == old(beta.nextNodeId) && nccMemory == |old(beta.nccMemories)|
  {
    hide AddNcc;
    nccMemory := beta.CreateNccMemory();
    ncc := beta.CreateNccNode(parent, beta.rootId, nccMemory);
  }

  /** The partner below the subnetwork, the back pointer, the relinking and the wait. */
  method CloseConjunction(beta: BetaNetwork, ncc: NodeId, bottom: NodeId, nccMemory: nat, nested: bool)
    requires beta.nextNodeId < U32_MAX
    requires var closed := CloseNcc(beta.State(), ncc, bottom, nccMemory); Older(closed.nodes) && Older(LinkNcc(closed, ncc).nodes)
    modifies beta
    ensures beta.State() == FinishNcc(CloseNcc(old(beta.State()), ncc, bottom, nccMemory), ncc, nested)
  {
    hide LinkNcc, RegisterWait, SetNccPartner, AddNccPartner, Older;
    var partner := beta.CreateNccPartner(bottom, ncc, nccMemory);
    beta.RepointNcc(ncc, partner);
    beta.LinkNccAfterSubnetwork(ncc);
    beta.RegisterNccEntryWait(ncc, nested);
  }

  /** Survivors keep their selectors and the memories they read keep their indices. */
  lemma RemovalKeepsAlphaIndexed(e: Engine, s: set<NodeId>, f: Engine, slots: seq<seq<SlotIndex>>)
    requires MemoriesOk(e.beta) && AlphaIdsOk(e) && AlphaCacheOk(e) && RemovedTo(e, s, f) && |slots| == |e.paths|
    requires AlphaIndexed(slots, e.beta.nodes)
    ensures |AlphaFlags(e, s)| == |slots| && AlphaIndexed(Compact(slots, AlphaFlags(e, s)), f.beta.nodes)
  {
    AlphasAreKept(e, s);
    var keep := AlphaFlags(e, s);
    forall n | n in f.beta.nodes && f.beta.nodes[n].ReadsAlpha() ensures KindIndexed(Compact(slots, keep), f.beta.nodes[n].kind) {
      SurvivingReader(e, s, f, n);
      assert KindIndexed(slots, e.beta.nodes[n].kind);
      CompactAt(slots, keep, e.beta.nodes[n].kind.alpha);
      hide RemovedTo, AlphaIndexed;
    }
  }

  /** A surviving reader keeps its tests and reads the renumbered memory. */
  lemma SurvivingReader(e: Engine, s: set<NodeId>, f: Engine, n: NodeId)
    requires MemoriesOk(e.beta) && AlphaIdsOk(e) && AlphaCacheOk(e) && RemovedTo(e, s, f) && n in f.beta.nodes && f.beta.nodes[n].ReadsAlpha()
    ensures n in e.beta.nodes && e.beta.nodes[n].ReadsAlpha()
    ensures var a, b, keep := e.beta.nodes[n].kind, f.beta.nodes[n].kind, AlphaFlags(e, s);
      a.alpha < |keep| && keep[a.alpha] && b.alpha == Rank(keep, a.alpha) && b.tests == a.tests && b.sequence == a.sequence
  {
    RetainedCovered(e.beta, s);
    AlphasAreKept(e, s);
    FinalNode(e, s, f, n);
    var a := Kept(e.beta, s)[n];
    RenumberingKeepsReading(a, SurvivingMemories(e.beta, s), AlphaFlags(e, s));
    KeptKind(e.beta, s, n);
    hide RemovedTo, Kept, RenumberNode, RenumberAlpha, SurvivingMemories, AlphaFlags, MemoriesOk, AlphaIdsOk, AlphaCacheOk;
  }

  lemma FinalNode(e: Engine, s: set<NodeId>, f: Engine, n: NodeId)
    requires MemoriesOk(e.beta) && AlphaIdsOk(e) && AlphaCacheOk(e) && RemovedTo(e, s, f) && n in f.beta.nodes
    ensures n in Kept(e.beta, s)
    ensures var a, keep := Kept(e.beta, s)[n], AlphaFlags(e, s);
      && Removal.Covered(a, SurvivingMemories(e.beta, s))
      && var b := RenumberNode(a, SurvivingMemories(e.beta, s));
      (b.ReadsAlpha() ==> b.kind.alpha < |keep| && keep[b.kind.alpha]) && f.beta.nodes[n] == RenumberAlpha(b, keep)
  {
    RetainedCovered(e.beta, s);
    AlphasAreKept(e, s);
    var mid := RetainNodes(e.beta, s);
    hide SurvivingMemories, AlphaFlags, Kept, MemoriesOk, AlphaIdsOk, AlphaCacheOk, CacheAfter, Compact, RenumberNode, RenumberAlpha, Removal.Covered;
    assert n in mid.nodes;
    assert mid.nodes[n] == RenumberNode(Kept(e.beta, s)[n], SurvivingMemories(e.beta, s));
  }

  lemma RenumberingKeepsReading(a: BetaNode, surviving: Surviving, keep: seq<bool>)
    requires Removal.Covered(a, surviving)
    requires var b := RenumberNode(a, surviving); b.ReadsAlpha() ==> b.kind.alpha < |keep| && keep[b.kind.alpha]
    ensures var b := RenumberAlpha(RenumberNode(a, surviving), keep);
      && b.ReadsAlpha() == a.ReadsAlpha()
      && (a.ReadsAlpha() ==>
            && a.kind.alpha < |keep| && keep[a.kind.alpha] && b.kind.alpha == Rank(keep, a.kind.alpha)
            && b.kind.tests == a.kind.tests && b.kind.sequence == a.kind.sequence)
  {
  }

  lemma KeptKind(net: Net, s: set<NodeId>, n: NodeId)
    requires n in Kept(net, s)
    ensures n in net.nodes && Kept(net, s)[n].kind == net.nodes[n].kind
  {
  }

  class ReteCompiler {
    var alphaPathCache: map<AlphaPathKey, AlphaMemoryId>
    var joinNodeCache: map<JoinKey, NodeId>
    /** The path each alpha memory was built for. */
    ghost var paths: seq<AlphaPathKey>

    ghost function State(beta: BetaNetwork): Engine
      reads this, beta
    {
      Engine(paths, beta.State(), alphaPathCache, joinNodeCache)
    }

    constructor ()
      ensures alphaPathCache == map[] && joinNodeCache == map[] && paths == []
    {
      alphaPathCache, joinNodeCache, paths := map[], map[], [];
    }

    /** The memory of a pattern's alpha path; a new path is filled from the current facts. */
    method EnsureAlphaPath(alpha: AlphaNetwork, p: Pattern, factBase: map<FactId, FactEntry>, ghost e: Engine) returns (m: AlphaMemoryId)
      requires Synced(alpha, paths) && Mirrors(factBase, alpha.live, alpha.base)
      requires e.paths == paths && e.alphaCache == alphaPathCache && AlphaCacheOk(e)
      modifies this, alpha, alpha.memories
      ensures (e.(paths := paths, alphaCache := alphaPathCache), m) == EnsureAlpha(e, p) && joinNodeCache == old(joinNodeCache)
      ensures Synced(alpha, paths) && alpha.live == old(alpha.live) && alpha.base == old(alpha.base)
      ensures Slots(alpha.memories) == old(Slots(alpha.memories)) || Slots(alpha.memories) == old(Slots(alpha.memories)) + [[]]
      ensures forall i :: 0 <= i < |alpha.memories| ==> alpha.memories[i] in old(alpha.memories) || fresh(alpha.memories[i])
    {
      hide Synced, Mirrors, Slots;
      var key := PathKey(p);
      if key in alphaPathCache { return alphaPathCache[key]; }
      m := BuildPath(alpha, key, factBase, paths);
      alphaPathCache, paths := alphaPathCache[key := m], paths + [key];
    }

    method EnsureJoinNode(beta: BetaNetwork, key: JoinKey) returns (n: NodeId)
      requires beta.nextNodeId < U32_MAX && key.parent != beta.nextNodeId
      modifies this`joinNodeCache, beta
      ensures (State(beta), n) == EnsureJoin(old(State(beta)), key)
    {
      if key in joinNodeCache { return joinNodeCache[key]; }
      JoinWithPlan(beta.State(), key.parent, key.alpha, key.tests, key.bindings, key.sequence);
      n := beta.CreateJoinNode(key.parent, key.alpha, key.tests, key.bindings);
      beta.SetSequence(n, key.sequence);
      joinNodeCache := joinNodeCache[key := n];
    }

    /** Everything a pattern needs before its node: the alpha path, the join structure, and both sides indexed. */
    method PreparePattern(alpha: AlphaNetwork, beta: BetaNetwork, factBase: map<FactId, FactEntry>, cx: Context, parent: NodeId,
                          p: Pattern, bound: set<Symbol>)
      returns (m: AlphaMemoryId, tests: seq<JoinTest>, extractions: seq<(SlotIndex, VarId)>)
      requires Synced(alpha, paths) && Mirrors(factBase, alpha.live, alpha.base) && Registered(p, cx.ids) && AlphaCacheOk(State(beta))
      modifies this, alpha, alpha.memories, beta
      ensures (State(beta), m) == ReadyPattern(old(State(beta)), cx, parent, p, bound)
      ensures tests == JoinTests(p, cx.ids, bound) && extractions == Extractions(p.variableSlots, cx.ids, bound)
      ensures Synced(alpha, paths) && alpha.live == old(alpha.live) && alpha.base == old(alpha.base)
      ensures SlotsGrow(old(Slots(alpha.memories)), Slots(alpha.memories))
      ensures KindIndexed(Slots(alpha.memories), PatternKind(old(State(beta)), cx, p, bound, m))
      ensures forall i :: 0 <= i < |alpha.memories| ==> alpha.memories[i] in old(alpha.memories) || fresh(alpha.memories[i])
    {
      hide Synced, Mirrors, AlphaCacheOk, JoinTests, Extractions, PathKey, Slots, SlotsGrow, KindIndexed, WithSlots;
      ghost var slots, e := Slots(alpha.memories), State(beta);
      AlphaInRange(e, p);
      m := EnsureAlphaPath(alpha, p, factBase, e);
      ghost var ensured := Slots(alpha.memories);
      tests, extractions := PatternTests(p, cx.ids, bound);
      var wanted := IndexableSelectors(tests, p.sequence);
      IndexPath(alpha, m, wanted, factBase, paths);
      KindGetsIndexed(slots, ensured, PatternKind(e, cx, p, bound, m));
      beta.RequestVarIndexes(parent, wanted);
    }

    method CompilePatternNode(alpha: AlphaNetwork, beta: BetaNetwork, factBase: map<FactId, FactEntry>, cx: Context, parent: NodeId,
                              p: Pattern, bound: set<Symbol>, ghost open: set<NodeId>, ghost up: Term) returns (n: NodeId)
      requires Synced(alpha, paths) && Mirrors(factBase, alpha.live, alpha.base) && AlphaIndexed(Slots(alpha.memories), beta.nodes)
      requires Registered(p, cx.ids) && Built(State(beta), State(beta), open, parent, up) && beta.nextNodeId < U32_MAX
      modifies this, alpha, alpha.memories, beta
      ensures (State(beta), n) == CompilePattern(old(State(beta)), cx, parent, p, bound)
      ensures Synced(alpha, paths) && alpha.live == old(alpha.live) && alpha.base == old(alpha.base)
      ensures AlphaIndexed(Slots(alpha.memories), beta.nodes)
      ensures forall i :: 0 <= i < |alpha.memories| ==> alpha.memories[i] in old(alpha.memories) || fresh(alpha.memories[i])
    {
      hide Synced, Mirrors, Built, AlphaCacheOk, AddNegative, AddExists, WithSequence, JoinTests, Extractions, PathKey, EnsureJoin, Slots,
        SlotsGrow, KindIndexed, AlphaIndexed, ReadersFrom, RequestVars;
      ghost var e, slots := State(beta), Slots(alpha.memories);
      BuiltFacts(e, open, parent, up);
      ReadyRoom(e, cx, parent, p, bound);
      PatternIndexed(e, open, cx, parent, p, bound, up);
      var m, tests, extractions := PreparePattern(alpha, beta, factBase, cx, parent, p, bound);
      if p.negated {
        NegativeWithPlan(beta.State(), parent, m, tests, p.sequence);
        n := beta.CreateNegativeNode(parent, m, tests);
        beta.SetSequence(n, p.sequence);
      } else if p.exists_ {
        ExistsWithPlan(beta.State(), parent, m, tests, p.sequence);
        n := beta.CreateExistsNode(parent, m, tests);
        beta.SetSequence(n, p.sequence);
      } else {
        n := EnsureJoinNode(beta, JoinKey(parent, m, tests, extractions, p.sequence));
      }
      AlphaStaysIndexed(slots, Slots(alpha.memories), e.beta.nodes, beta.nodes, PatternKind(e, cx, p, bound, m));
    }

    /** Compile conditions in order below `parent`. */
    method CompileSequence(alpha: AlphaNetwork, beta: BetaNetwork, factBase: map<FactId, FactEntry>, cx: Context, parent: NodeId,
                           conditions: seq<Condition>, bound: set<Symbol>, nested: bool, ghost open: set<NodeId>, ghost up: Term)
      returns (n: NodeId)
      requires Synced(alpha, paths) && Mirrors(factBase, alpha.live, alpha.base) && AlphaIndexed(Slots(alpha.memories), beta.nodes)
      requires AllRegistered(conditions, cx.ids) && Built(State(beta), State(beta), open, parent, up)
      requires beta.nextNodeId + NodeDemand(conditions) <= U32_MAX
      modifies this, alpha, alpha.memories, beta
      ensures (State(beta), n) == CompileSeq(old(State(beta)), cx, parent, conditions, bound, nested)
      ensures Synced(alpha, paths) && alpha.live == old(alpha.live) && alpha.base == old(alpha.base)
      ensures AlphaIndexed(Slots(alpha.memories), beta.nodes)
      ensures forall i :: 0 <= i < |alpha.memories| ==> alpha.memories[i] in old(alpha.memories) || fresh(alpha.memories[i])
      decreases conditions, 1
    {
      hide Synced, Mirrors, Built, CompilePattern, AddPredicate, BoundBy, TermOfOne, AlphaIndexed, Slots;
      n := parent;
      var bindings := bound;
      ghost var term, goal := up, CompileSeq(State(beta), cx, parent, conditions, bound, nested);
      for i := 0 to |conditions|
        invariant Synced(alpha, paths) && alpha.live == old(alpha.live) && alpha.base == old(alpha.base)
        invariant AlphaIndexed(Slots(alpha.memories), beta.nodes)
        invariant forall j :: 0 <= j < |alpha.memories| ==> alpha.memories[j] in old(alpha.memories) || fresh(alpha.memories[j])
        invariant AllRegistered(conditions[i..], cx.ids) && Built(State(beta), State(beta), open, n, term)
        invariant beta.nextNodeId + NodeDemand(conditions[i..]) <= U32_MAX
        invariant CompileSeq(State(beta), cx, n, conditions[i..], bindings, nested) == goal
      {
        var c := conditions[i];
        assert conditions[i..][0] == c && conditions[i..][1..] == conditions[i + 1..];
        OneBuilt(State(beta), open, cx, n, c, bindings, nested, term);
        ghost var before := term;
        term := TermOfOne(cx, c, term, bindings);
        n := CompileCondition(alpha, beta, factBase, cx, n, c, bindings, nested, open, before);
        bindings := BoundBy(c, bindings);
      }
    }

    /** Compile one condition below `parent`. */
    method CompileCondition(alpha: AlphaNetwork, beta: BetaNetwork, factBase: map<FactId, FactEntry>, cx: Context, parent: NodeId,
                            c: Condition, bound: set<Symbol>, nested: bool, ghost open: set<NodeId>, ghost up: Term)
      returns (n: NodeId)
      requires Synced(alpha, paths) && Mirrors(factBase, alpha.live, alpha.base) && AlphaIndexed(Slots(alpha.memories), beta.nodes)
      requires RegisteredIn(c, cx.ids) && Built(State(beta), State(beta), open, parent, up)
      requires beta.nextNodeId + NodeDemandOf(c) <= U32_MAX
      modifies this, alpha, alpha.memories, beta
      ensures (State(beta), n) == CompileOne(old(State(beta)), cx, parent, c, bound, nested)
      ensures Synced(alpha, paths) && alpha.live == old(alpha.live) && alpha.base == old(alpha.base)
      ensures AlphaIndexed(Slots(alpha.memories), beta.nodes)
      ensures forall i :: 0 <= i < |alpha.memories| ==> alpha.memories[i] in old(alpha.memories) || fresh(alpha.memories[i])
      decreases c, 0
    {
      hide Synced, Mirrors, Built, CompilePattern, CompileSeq, AddPredicate, AlphaIndexed, ReadersFrom, Slots;
      match c {
        case PatternCE(p) => n := CompilePatternNode(alpha, beta, factBase, cx, parent, p, bound, open, up);
        case PredicateCE(index) =>
          ghost var nodes := beta.nodes;
          BuiltFacts(State(beta), open, parent, up);
          QuietSteps(beta.State(), parent, cx.rule, index);
          n := beta.CreatePredicateNode(parent, cx.rule, index);
          StaysIndexed(Slots(alpha.memories), nodes, beta.nodes);
        case NccCE(_) => n := CompileNcc(alpha, beta, factBase, cx, parent, c, bound, nested, open, up);
      }
    }

    /** Compile a conjunction under `not`: the NCC first, its subnetwork, then the partner, relinking and the wait. */
    method CompileNcc(alpha: AlphaNetwork, beta: BetaNetwork, factBase: map<FactId, FactEntry>, cx: Context, parent: NodeId,
                      c: Condition, bound: set<Symbol>, nested: bool, ghost open: set<NodeId>, ghost up: Term)
      returns (ncc: NodeId)
      requires Synced(alpha, paths) && Mirrors(factBase, alpha.live, alpha.base) && AlphaIndexed(Slots(alpha.memories), beta.nodes)
      requires c.NccCE? && RegisteredIn(c, cx.ids) && Built(State(beta), State(beta), open, parent, up)
      requires beta.nextNodeId + NodeDemandOf(c) <= U32_MAX
      modifies this, alpha, alpha.memories, beta
      ensures (State(beta), ncc) == CompileOne(old(State(beta)), cx, parent, c, bound, nested)
      ensures Synced(alpha, paths) && alpha.live == old(alpha.live) && alpha.base == old(alpha.base)
      ensures AlphaIndexed(Slots(alpha.memories), beta.nodes)
      ensures forall i :: 0 <= i < |alpha.memories| ==> alpha.memories[i] in old(alpha.memories) || fresh(alpha.memories[i])
      decreases c.subconditions, 2
    {
      hide Synced, Mirrors, Built, AlphaIndexed, ReadersFrom, Slots, CompileSeq, LinkNcc, CloseNcc, FinishNcc, OpenNcc, Older;
      ghost var e := State(beta);
      NccStages(e, open, cx, parent, c.subconditions, bound, up);
      BuiltFacts(e, open, parent, up);
      NccMemoryKeepsNodes(e.beta, parent);
      QuietSteps(e.beta, parent, 0, 0);
      var nccMemory;
      ncc, nccMemory := OpenConjunction(beta, parent);
      StaysIndexed(Slots(alpha.memories), e.beta.nodes, beta.nodes);
      var bottom := CompileSequence(alpha, beta, factBase, cx, parent, c.subconditions, bound, true, open + {ncc}, up);
      ghost var grown := beta.State();
      ClosingIsQuiet(grown, ncc, bottom, nccMemory, nested);
      CloseConjunction(beta, ncc, bottom, nccMemory, nested);
      StaysIndexed(Slots(alpha.memories), grown.nodes, beta.nodes);
    }

    /** Install a rule whose conditions are accepted, whose variables are registered and whose ids are left:
        nothing can fail any more. */
    method CompileConditionsUnchecked(alpha: AlphaNetwork, beta: BetaNetwork, factBase: map<FactId, FactEntry>, cx: Context,
                                      conditions: seq<Condition>, salience: int, complexity: nat) returns (terminal: NodeId)
      requires Synced(alpha, paths) && Mirrors(factBase, alpha.live, alpha.base) && AlphaIndexed(Slots(alpha.memories), beta.nodes)
      requires AllRegistered(conditions, cx.ids) && EngineWf(State(beta), {})
      requires beta.nextNodeId + MaximumNewBetaNodes(conditions) <= U32_MAX
      modifies this, alpha, alpha.memories, beta
      ensures (State(beta), terminal) == CompileRule(old(State(beta)), cx, conditions, salience, complexity)
      ensures EngineWf(State(beta), {}) && Synced(alpha, paths) && alpha.live == old(alpha.live) && alpha.base == old(alpha.base)
      ensures AlphaIndexed(Slots(alpha.memories), beta.nodes)
      ensures forall i :: 0 <= i < |alpha.memories| ==> alpha.memories[i] in old(alpha.memories) || fresh(alpha.memories[i])
    {
      hide Synced, Mirrors, EngineWf, Built, CompileSeq, AlphaIndexed, ReadersFrom, Slots;
      ghost var e := State(beta);
      RootBuilt(e);
      SeqBuilt(e, {}, cx, e.beta.root, conditions, {}, false, Start);
      CompileRuleOk(e, cx, conditions, salience, complexity);
      var bottom := CompileSequence(alpha, beta, factBase, cx, beta.rootId, conditions, {}, false, {}, Start);
      ghost var grown := beta.State();
      BuiltFacts(State(beta), {}, bottom, TermOf(cx, conditions, Start, {}));
      NodeIsQuiet(grown, Terminal(cx.rule, salience, complexity % 0x800), bottom, 0);
      terminal := beta.CreateTerminalNode(bottom, cx.rule, salience, complexity);
      StaysIndexed(Slots(alpha.memories), grown.nodes, beta.nodes);
    }

    /** Drop the cache entries of what is gone and renumber the others. */
    method PruneCaches(left: set<NodeId>, mapping: seq<Option<AlphaMemoryId>>, ghost keep: seq<bool>)
      requires mapping == Mapping(keep) && |keep| == |paths| && forall k :: k in alphaPathCache ==> alphaPathCache[k] < |keep|
      requires forall k :: k in joinNodeCache && joinNodeCache[k] in left ==> k.alpha < |keep| && keep[k.alpha]
      modifies this
      ensures alphaPathCache == map k | k in old(alphaPathCache) && keep[old(alphaPathCache)[k]] :: Rank(keep, old(alphaPathCache)[k])
      ensures CacheAfter(old(joinNodeCache), left, keep, joinNodeCache) && paths == Compact(old(paths), keep)
    {
      hide CacheAfter;
      alphaPathCache := map k | k in alphaPathCache && mapping[alphaPathCache[k]].Some? :: mapping[alphaPathCache[k]].value;
      joinNodeCache := RemapJoinCache(joinNodeCache, left, mapping, keep);
      paths := Compact(paths, keep);
    }

    /** Retire rules: keep what surviving terminals need, compact every table and prune both caches. */
    method RemoveRules(alpha: AlphaNetwork, beta: BetaNetwork, removed: set<RuleId>) returns (ghost retained: set<NodeId>)
      requires Synced(alpha, paths) && EngineWf(State(beta), {}) && AlphaIndexed(Slots(alpha.memories), beta.nodes)
      modifies this, alpha, alpha.memories, beta
      ensures old(EngineWf(State(beta), {}))
      ensures removed == {} ==> State(beta) == old(State(beta))
      ensures removed != {} ==> IsRetained(old(beta.State()), removed, retained) && RemovedTo(old(State(beta)), retained, State(beta))
      ensures forall i :: 0 <= i < |alpha.memories| ==> alpha.memories[i] in old(alpha.memories)
      ensures Synced(alpha, paths) && alpha.live == old(alpha.live) && alpha.base == old(alpha.base)
      ensures AlphaIndexed(Slots(alpha.memories), beta.nodes)
    {
      hide Synced, Wf, MemoriesOk, AlphaIdsOk, AlphaCacheOk, JoinCacheOk, RetainNodes, RemapAlpha, IsRetained, CacheAfter, UsedAlphas, RemovedTo, AlphaFlags, Compact, AlphaIndexed, Slots;
      retained := {};
      if removed == {} { return; }
      ghost var e, slots := State(beta), Slots(alpha.memories);
      EngineParts(e);
      var left := beta.RetainedNodes(removed);
      retained := left;
      RetainedParts(e, retained);
      var alphas := beta.RetainNodes(left);
      var mapping := RetainPaths(alpha, alphas, paths);
      ghost var keep := AlphaFlags(e, retained);
      beta.RemapAlphaMemories(mapping, keep);
      PruneCaches(left, mapping, keep);
      RemovedParts(e, retained, State(beta));
      RemovalKeepsAlphaIndexed(e, retained, State(beta), slots);
    }

    /** Validate, number the variables, check capacity, then install. A refused rule changes nothing; an
        accepted one is compiled whole. */
    method CompileConditions(alpha: AlphaNetwork, beta: BetaNetwork, factBase: map<FactId, FactEntry>, rule: RuleId,
                             salience: int, conditions: seq<Condition>) returns (terminal: Option<NodeId>, ids: VarIds)
      requires Synced(alpha, paths) && Mirrors(factBase, alpha.live, alpha.base) && AlphaIndexed(Slots(alpha.memories), beta.nodes)
      requires EngineWf(State(beta), {}) && beta.nextNodeId <= U32_MAX
      modifies this, alpha, alpha.memories, beta
      ensures terminal.Some? <==>
        && Accepted(conditions) && |Distinct(Names(conditions))| <= 65_536
        && old(beta.nextNodeId) + MaximumNewBetaNodes(conditions) <= 0xFFFF_FFFF
      ensures terminal.None? ==>
        && State(beta) == old(State(beta)) && alpha.memories == old(alpha.memories) && alpha.Shape() == old(alpha.Shape())
        && Held(alpha.memories) == old(Held(alpha.memories)) && Slots(alpha.memories) == old(Slots(alpha.memories))
      ensures terminal.Some? ==>
        && AllRegistered(conditions, ids) && Injective(ids)
        && (State(beta), terminal.value) == CompileRule(old(State(beta)), Context(rule, ids), conditions, salience, 0)
      ensures EngineWf(State(beta), {}) && Synced(alpha, paths) && alpha.live == old(alpha.live) && alpha.base == old(alpha.base)
      ensures AlphaIndexed(Slots(alpha.memories), beta.nodes)
      ensures forall i :: 0 <= i < |alpha.memories| ==> alpha.memories[i] in old(alpha.memories) || fresh(alpha.memories[i])
    {
      hide Synced, Mirrors, EngineWf, AlphaIndexed, Slots, Accepted, AllRegistered, Injective, CompileRule;
      terminal, ids := None, map[];
      var valid := ValidateConditions(conditions);
      if !valid { return; }
      var variables := PrepareVarMap(conditions);
      if variables.None? { return; }
      var capacity := beta.EnsureNodeCapacity(MaximumNewBetaNodes(conditions));
      if !capacity { return; }
      ids := variables.value.byName;
      var installed := CompileConditionsUnchecked(alpha, beta, factBase, Context(rule, ids), conditions, salience, 0);
      terminal := Some(installed);
    }

    /** Validate a rule and prepare its variables without touching any network. */
    method PlanConditions(rule: RuleId, salience: int, conditions: seq<Condition>) returns (plan: Option<Rule>)
      ensures plan.Some? <==> Accepted(conditions) && |Distinct(Names(conditions))| <= 65_536
      ensures plan.Some? ==>
        && plan.value == Rule(Context(rule, plan.value.cx.ids), conditions, salience, 0)
        && AllRegistered(conditions, plan.value.cx.ids) && Injective(plan.value.cx.ids)
    {
      var valid := ValidateConditions(conditions);
      if !valid { return None; }
      var variables := PrepareVarMap(conditions);
      if variables.None? { return None; }
      plan := Some(Rule(Context(rule, variables.value.byName), conditions, salience, 0));
    }

    /** Install a batch of plans: one capacity check for the sum of their demands, then nothing can fail. */
    method InstallPlans(alpha: AlphaNetwork, beta: BetaNetwork, factBase: map<FactId, FactEntry>, plans: seq<Rule>)
      returns (terminals: Option<seq<NodeId>>)
      requires Synced(alpha, paths) && Mirrors(factBase, alpha.live, alpha.base) && AlphaIndexed(Slots(alpha.memories), beta.nodes)
      requires EngineWf(State(beta), {}) && beta.nextNodeId <= U32_MAX && BatchRegistered(plans)
      modifies this, alpha, alpha.memories, beta
      ensures terminals.Some? <==> old(beta.nextNodeId) + BatchDemand(plans) <= 0xFFFF_FFFF
      ensures terminals.None? ==>
        && State(beta) == old(State(beta)) && alpha.memories == old(alpha.memories) && alpha.Shape() == old(alpha.Shape())
        && Held(alpha.memories) == old(Held(alpha.memories)) && Slots(alpha.memories) == old(Slots(alpha.memories))
      ensures terminals.Some? ==> (State(beta), terminals.value) == CompileBatch(old(State(beta)), plans)
      ensures EngineWf(State(beta), {}) && Synced(alpha, paths) && alpha.live == old(alpha.live) && alpha.base == old(alpha.base)
      ensures AlphaIndexed(Slots(alpha.memories), beta.nodes)
      ensures forall i :: 0 <= i < |alpha.memories| ==> alpha.memories[i] in old(alpha.memories) || fresh(alpha.memories[i])
    {
      hide Synced, Mirrors, EngineWf, AlphaIndexed, Slots, AllRegistered, CompileRule;
      var capacity := beta.EnsureNodeCapacity(BatchDemand(plans));
      if !capacity { return None; }
      ghost var e := State(beta);
      var installed := [];
      for i := 0 to |plans|
        invariant EngineWf(State(beta), {}) && Synced(alpha, paths) && alpha.live == old(alpha.live) && alpha.base == old(alpha.base)
        invariant AlphaIndexed(Slots(alpha.memories), beta.nodes)
        invariant forall j :: 0 <= j < |alpha.memories| ==> alpha.memories[j] in old(alpha.memories) || fresh(alpha.memories[j])
        invariant (State(beta), installed) == CompileBatch(e, plans[..i])
      {
        NextFits(e, plans, i);
        var terminal := CompileConditionsUnchecked(alpha, beta, factBase, plans[i].cx, plans[i].conditions, plans[i].salience,
                                                   plans[i].complexity);
        installed := installed + [terminal];
      }
      assert plans[..|plans|] == plans;
      terminals := Some(installed);
    }
  }

  /** Within the summed demand of a batch, each plan finds its share of the ids. */
  lemma NextFits(e: Engine, plans: seq<Rule>, i: nat)
    requires BatchRegistered(plans) && i < |plans|
    ensures plans[..i + 1][..i] == plans[..i] && plans[..i + 1][i] == plans[i]
    ensures CompileBatch(e, plans[..i]).0.beta.next + MaximumNewBetaNodes(plans[i].conditions) <= e.beta.next + BatchDemand(plans)
    ensures AllRegistered(plans[i].conditions, plans[i].cx.ids)
    ensures CompileBatch(e, plans[..i + 1]) ==
      (var (e1, terminals) := CompileBatch(e, plans[..i]);
       (Compiled(e1, plans[i]).0, terminals + [Compiled(e1, plans[i]).1]))
  {
    assert plans[..i + 1][..i] == plans[..i];
    BatchStaysWithinPlan(e, plans[..i]);
    DemandOfPrefix(plans, i + 1);
  }

  // ----- retiring rules -----

  /** Two cached joins never collide after renumbering. */
  lemma RemappedKeysDiffer(a: JoinKey, b: JoinKey, keep: seq<bool>)
    requires a.alpha < |keep| && b.alpha < |keep| && keep[a.alpha] && keep[b.alpha] && RemappedKey(a, keep) == RemappedKey(b, keep)
    ensures a == b
  {
    RankInjective(keep, a.alpha, b.alpha);
  }

  /** A surviving join reads a surviving alpha memory. */
  lemma CachedAlphasKept(e: Engine, s: set<NodeId>)
    requires MemoriesOk(e.beta) && AlphaIdsOk(e) && JoinCacheOk(e)
    ensures |AlphaFlags(e, s)| == |e.paths|
    ensures forall k :: k in e.joinCache ==> (e.joinCache[k] in e.beta.nodes &&
      (e.joinCache[k] in s ==> k.alpha < |e.paths| && AlphaFlags(e, s)[k.alpha]))
  {
    AlphasAreKept(e, s);
    RetainedCovered(e.beta, s);
    var net := RetainNodes(e.beta, s);
    forall k | k in e.joinCache
      ensures e.joinCache[k] in e.beta.nodes
      ensures e.joinCache[k] in s ==> k.alpha < |e.paths| && AlphaFlags(e, s)[k.alpha]
    {
      assert CachedJoin(e, k);
      var n := e.joinCache[k];
      if n in s {
        assert net.nodes[n] == RenumberNode(Kept(e.beta, s)[n], SurvivingMemories(e.beta, s));
        assert net.nodes[n].kind == e.beta.nodes[n].kind;
      }
    }
  }

  /** Drain the join cache, keeping entries whose node is left, under the renumbered alpha memory. */
  method RemapJoinCache(cache: map<JoinKey, NodeId>, left: set<NodeId>, mapping: seq<Option<AlphaMemoryId>>, ghost keep: seq<bool>)
    returns (remapped: map<JoinKey, NodeId>)
    requires mapping == Mapping(keep)
    requires forall k :: k in cache && cache[k] in left ==> k.alpha < |keep| && keep[k.alpha]
    ensures CacheAfter(cache, left, keep, remapped)
  {
    remapped := map[];
    var pending := cache.Keys;
    while pending != {}
      invariant pending <= cache.Keys
      invariant forall k :: k in cache && k !in pending && cache[k] in left ==>
                  RemappedKey(k, keep) in remapped && remapped[RemappedKey(k, keep)] == cache[k]
      invariant forall j :: j in remapped ==> CachedBefore(cache, left, keep, j)
    {
      var k :| k in pending;
      pending := pending - {k};
      if cache[k] in left {
        forall j | j in cache && j !in pending && j != k && cache[j] in left ensures RemappedKey(j, keep) != RemappedKey(k, keep) {
          if RemappedKey(j, keep) == RemappedKey(k, keep) { RemappedKeysDiffer(j, k, keep); }
        }
        remapped := remapped[k.(alpha := mapping[k.alpha].value) := cache[k]];
        assert CachedBefore(cache, left, keep, RemappedKey(k, keep));
      }
    }
    forall j | j in remapped ensures exists k :: k in cache && cache[k] in left && k.alpha < |keep| && RemappedKey(k, keep) == j {
      assert CachedBefore(cache, left, keep, j);
    }
  }

  ghost predicate CachedBefore(cache: map<JoinKey, NodeId>, left: set<NodeId>, keep: seq<bool>, j: JoinKey) {
    exists k :: k in cache && cache[k] in left && k.alpha < |keep| && RemappedKey(k, keep) == j
  }

  lemma NccMemoryKeepsNodes(net: Net, parent: NodeId)
    ensures OpenNcc(net, parent).next == net.next + 1
    ensures AllocateNccMemory(net).nodes == net.nodes && AllocateNccMemory(net).next == net.next && AllocateNccMemory(net).root == net.root
  {
  }

  lemma EngineParts(e: Engine)
    requires EngineWf(e, {})
    ensures Wf(e.beta, {}) && MemoriesOk(e.beta) && AlphaIdsOk(e) && AlphaCacheOk(e) && JoinCacheOk(e)
    ensures forall k :: k in e.alphaCache ==> e.alphaCache[k] < |e.paths|
  {
  }

  /** The pieces of a removal make up the whole. */
  lemma RemovedParts(e: Engine, s: set<NodeId>, f: Engine)
    requires MemoriesOk(e.beta) && AlphaIdsOk(e) && AlphaCacheOk(e) && AlphasKept(RetainNodes(e.beta, s), AlphaFlags(e, s))
    requires forall k :: k in e.alphaCache ==> e.alphaCache[k] < |AlphaFlags(e, s)|
    requires f.beta == RemapAlpha(RetainNodes(e.beta, s), AlphaFlags(e, s))
    requires |AlphaFlags(e, s)| == |e.paths| && f.paths == Compact(e.paths, AlphaFlags(e, s))
    requires f.alphaCache == map k | k in e.alphaCache && AlphaFlags(e, s)[e.alphaCache[k]] :: Rank(AlphaFlags(e, s), e.alphaCache[k])
    requires CacheAfter(e.joinCache, s, AlphaFlags(e, s), f.joinCache)
    ensures RemovedTo(e, s, f)
  {
  }

  lemma RetainedParts(e: Engine, s: set<NodeId>)
    requires EngineWf(e, {})
    ensures AlphasKept(RetainNodes(e.beta, s), AlphaFlags(e, s)) && |AlphaFlags(e, s)| == |e.paths|
    ensures AlphaFlags(e, s) == Flags(UsedAlphas(RetainNodes(e.beta, s).nodes), |e.paths|)
    ensures RetainNodes(e.beta, s).next == e.beta.next && forall n :: n in RetainNodes(e.beta, s).nodes ==> n < e.beta.next
    ensures forall k :: k in e.joinCache && e.joinCache[k] in s ==> k.alpha < |e.paths| && AlphaFlags(e, s)[k.alpha]
  {
    AlphasAreKept(e, s);
    CachedAlphasKept(e, s);
    RetainedCovered(e.beta, s);
  }

  lemma RootBuilt(e: Engine)
    requires EngineWf(e, {})
    ensures Built(e, e, {}, e.beta.root, Start)
  {
  }
}
