/** The beta network object: every construction step, walk and compaction, tied to its effect on the graph. */
module BetaNetworks {
  import opened Syntax
  import opened Sequences
  import opened Network
  import opened WellFormed
  import opened Relink
  import opened Compaction
  import opened Waits
  import opened Removal
  import opened Planning

  /** Install a plan on a fact pattern node. */
  function WithSequence(net: Net, n: NodeId, plan: Option<SequencePlan>): Net
    requires n in net.nodes && net.nodes[n].ReadsAlpha()
  {
    net.(nodes := net.nodes[n := net.nodes[n].(kind := net.nodes[n].kind.(sequence := plan))])
  }

  /** Creating a pattern node bare and then installing its plan is creating it with the plan. */
  lemma JoinWithPlan(net: Net, parent: NodeId, alpha: AlphaMemoryId, tests: seq<JoinTest>, bindings: seq<(SlotIndex, VarId)>,
                     plan: Option<SequencePlan>)
    requires parent != net.next
    ensures var bare := AddJoin(net, parent, alpha, tests, bindings, None);
      && net.next in bare.nodes && bare.nodes[net.next].ReadsAlpha()
      && WithSequence(bare, net.next, plan) == AddJoin(net, parent, alpha, tests, bindings, plan)
  {
    var bare, full := AddJoin(net, parent, alpha, tests, bindings, None), AddJoin(net, parent, alpha, tests, bindings, plan);
    assert WithSequence(bare, net.next, plan).nodes == full.nodes;
  }

  lemma NegativeWithPlan(net: Net, parent: NodeId, alpha: AlphaMemoryId, tests: seq<JoinTest>, plan: Option<SequencePlan>)
    requires parent != net.next
    ensures var bare := AddNegative(net, parent, alpha, tests, None);
      && net.next in bare.nodes && bare.nodes[net.next].ReadsAlpha()
      && WithSequence(bare, net.next, plan) == AddNegative(net, parent, alpha, tests, plan)
  {
    var bare, full := AddNegative(net, parent, alpha, tests, None), AddNegative(net, parent, alpha, tests, plan);
    assert WithSequence(bare, net.next, plan).nodes == full.nodes;
  }

  lemma ExistsWithPlan(net: Net, parent: NodeId, alpha: AlphaMemoryId, tests: seq<JoinTest>, plan: Option<SequencePlan>)
    requires parent != net.next
    ensures var bare := AddExists(net, parent, alpha, tests, None);
      && net.next in bare.nodes && bare.nodes[net.next].ReadsAlpha()
      && WithSequence(bare, net.next, plan) == AddExists(net, parent, alpha, tests, plan)
  {
    var bare, full := AddExists(net, parent, alpha, tests, None), AddExists(net, parent, alpha, tests, plan);
    assert WithSequence(bare, net.next, plan).nodes == full.nodes;
  }

  lemma RebuiltTells(net: Net)
    requires Wf(net, {})
    ensures IndexTells(net.(waits := Some(RebuiltWaits(net))))
  {
    var rebuilt := net.(waits := Some(RebuiltWaits(net)));
    SameNodesWf(net, rebuilt, {});
    forall n ensures WaitOf(net, n) == WaitOf(rebuilt, n) { SameWaitOf(net, rebuilt, n); }
    hide Wf, WaitOf, IndexTells;
    assert RebuiltWaits(rebuilt) == RebuiltWaits(net);
    ExactIndexTells(rebuilt, {});
  }

  lemma SameWaitOf(a: Net, b: Net, n: NodeId)
    requires a.nodes == b.nodes
    ensures WaitOf(a, n) == WaitOf(b, n)
  {
  }

  class BetaNetwork {
    var nodes: map<NodeId, BetaNode>
    var memories: seq<Memory<BetaContents>>
    var negMemories: seq<Memory<map<TokenId, set<FactId>>>>
    var nccMemories: seq<Memory<map<TokenId, seq<TokenId>>>>
    var existsMemories: seq<Memory<map<TokenId, set<FactId>>>>
    const rootId: NodeId
    var nextNodeId: NodeId
    var alphaToJoins: Subscribers
    var alphaToNegatives: Subscribers
    var alphaToExists: Subscribers
    var nccEntryWaits: Option<map<NodeId, NccEntryWait>>

    ghost function State(): Net
      reads this
    {
      Net(nodes, rootId, nextNodeId, memories, negMemories, nccMemories, existsMemories,
          alphaToJoins, alphaToNegatives, alphaToExists, nccEntryWaits)
    }

    constructor (root: NodeId)
      ensures State() == EmptyNet(root)
    {
      nodes := map[root := BetaNode(Root, root, 0, [])];
      memories, negMemories, nccMemories, existsMemories := [Memory(0, NO_CONTENTS)], [], [], [];
      rootId, nextNodeId := root, root + 1;
      alphaToJoins, alphaToNegatives, alphaToExists, nccEntryWaits := map[], map[], map[], Some(map[]);
    }

    // ----- ids -----

    /** Whether the ids for a planned installation are left. */
    method EnsureNodeCapacity(required: nat) returns (ok: bool)
      requires nextNodeId <= U32_MAX
      ensures ok <==> nextNodeId + required <= U32_MAX
    {
      ok := required <= U32_MAX - nextNodeId;
    }

    method AllocateNodeId() returns (id: NodeId)
      requires nextNodeId < U32_MAX
      modifies this`nextNodeId
      ensures id == old(nextNodeId) && nextNodeId == id + 1
    {
      id := nextNodeId;
      nextNodeId := nextNodeId + 1;
    }

    method InsertNode(kind: Kind, parent: NodeId, memory: nat) returns (id: NodeId)
      requires nextNodeId < U32_MAX
      modifies this`nodes, this`nextNodeId
      ensures id == old(nextNodeId) && State() == AddNode(old(State()), kind, parent, memory)
    {
      id := AllocateNodeId();
      nodes := nodes[id := BetaNode(kind, parent, memory, [])];
      if parent in nodes && nodes[parent].Inner() {
        nodes := nodes[parent := nodes[parent].(children := nodes[parent].children + [id])];
      }
    }

    method CreateBetaMemory() returns (id: nat)
      modifies this`memories
      ensures id == old(|memories|) && State() == PushMemory(old(State()))
    {
      id := |memories|;
      memories := memories + [Memory(id, NO_CONTENTS)];
    }

    // ----- construction -----

    method CreateJoinNode(parent: NodeId, alpha: AlphaMemoryId, tests: seq<JoinTest>, bindings: seq<(SlotIndex, VarId)>)
      returns (n: NodeId)
      requires nextNodeId < U32_MAX
      modifies this
      ensures n == old(nextNodeId) && State() == AddJoin(old(State()), parent, alpha, tests, bindings, None)
    {
      var m := CreateBetaMemory();
      n := InsertNode(Join(alpha, tests, None, bindings), parent, m);
      alphaToJoins := Subscribe(alphaToJoins, alpha, n);
    }

    method SetSequence(n: NodeId, plan: Option<SequencePlan>)
      requires n in nodes && nodes[n].ReadsAlpha()
      modifies this`nodes
      ensures State() == WithSequence(old(State()), n, plan)
    {
      nodes := nodes[n := nodes[n].(kind := nodes[n].kind.(sequence := plan))];
    }

    method CreatePredicateNode(parent: NodeId, rule: RuleId, index: nat) returns (n: NodeId)
      requires nextNodeId < U32_MAX
      modifies this
      ensures n == old(nextNodeId) && State() == AddPredicate(old(State()), parent, rule, index)
    {
      var m := CreateBetaMemory();
      n := InsertNode(Predicate(rule, index), parent, m);
    }

    method CreateTerminalNode(parent: NodeId, rule: RuleId, salience: int, complexity: nat) returns (n: NodeId)
      requires nextNodeId < U32_MAX
      modifies this
      ensures n == old(nextNodeId) && State() == AddTerminal(old(State()), parent, rule, salience, complexity)
    {
      n := InsertNode(Terminal(rule, salience, complexity % 0x800), parent, 0);
    }

    method CreateNegativeNode(parent: NodeId, alpha: AlphaMemoryId, tests: seq<JoinTest>) returns (n: NodeId)
      requires nextNodeId < U32_MAX
      modifies this
      ensures n == old(nextNodeId) && State() == AddNegative(old(State()), parent, alpha, tests, None)
    {
      var m := CreateBetaMemory();
      n := InsertNode(Negative(alpha, tests, None, |negMemories|), parent, m);
      negMemories := negMemories + [Memory(|negMemories|, map[])];
      alphaToNegatives := Subscribe(alphaToNegatives, alpha, n);
    }

    method CreateExistsNode(parent: NodeId, alpha: AlphaMemoryId, tests: seq<JoinTest>) returns (n: NodeId)
      requires nextNodeId < U32_MAX
      modifies this
      ensures n == old(nextNodeId) && State() == AddExists(old(State()), parent, alpha, tests, None)
    {
      var m := CreateBetaMemory();
      n := InsertNode(Exists(alpha, tests, None, |existsMemories|), parent, m);
      existsMemories := existsMemories + [Memory(|existsMemories|, map[])];
      alphaToExists := Subscribe(alphaToExists, alpha, n);
    }

    method CreateNccMemory() returns (id: nat)
      modifies this`nccMemories
      ensures id == old(|nccMemories|) && State() == AllocateNccMemory(old(State()))
    {
      id := |nccMemories|;
      nccMemories := nccMemories + [Memory(id, map[])];
    }

    /** The parent of an NCC ranks its tokens from now on. */
    method EnableParentRanks(parent: NodeId)
      modifies this`memories
      ensures State() == EnableRanks(old(State()), parent)
    {
      if parent in nodes && nodes[parent].Inner() && nodes[parent].memory < |memories| {
        var m := nodes[parent].memory;
        memories := memories[m := memories[m].(contents := memories[m].contents.(ranked := true))];
      }
    }

    /** Index the parent's memory on every variable a new node selects by, except under the root. */
    method RequestVarIndexes(parent: NodeId, wanted: seq<(SlotIndex, VarId)>)
      modifies this`memories
      ensures State() == RequestVars(old(State()), parent, wanted)
    {
      if parent == rootId { return; }
      if parent in nodes && nodes[parent].Inner() && nodes[parent].memory < |memories| {
        var m := nodes[parent].memory;
        var contents := memories[m].contents;
        for i := 0 to |wanted|
          invariant WithVars(contents, wanted[i..]) == WithVars(memories[m].contents, wanted)
        {
          var v := wanted[i].1;
          assert wanted[i..][0] == wanted[i] && wanted[i..][1..] == wanted[i + 1..];
          if v !in contents.indexedVars { contents := contents.(indexedVars := contents.indexedVars + [v]); }
        }
        memories := memories[m := memories[m].(contents := contents)];
      }
    }

    method CreateNccNode(parent: NodeId, partner: NodeId, nccMemory: nat) returns (n: NodeId)
      requires nextNodeId < U32_MAX && parent in nodes && nodes[parent].Inner()
      modifies this
      ensures n == old(nextNodeId) && State() == AddNcc(old(State()), parent, partner, nccMemory)
    {
      EnableParentRanks(parent);
      var m := CreateBetaMemory();
      n := InsertNode(Ncc(partner, nccMemory), parent, m);
    }

    method CreateNccPartner(parent: NodeId, ncc: NodeId, nccMemory: nat) returns (n: NodeId)
      requires nextNodeId < U32_MAX
      modifies this
      ensures n == old(nextNodeId) && State() == AddNccPartner(old(State()), parent, ncc, nccMemory)
    {
      n := InsertNode(NccPartner(ncc, nccMemory), parent, 0);
    }

    method RepointNcc(ncc: NodeId, partner: NodeId)
      modifies this`nodes
      ensures State() == SetNccPartner(old(State()), ncc, partner)
    {
      if ncc in nodes && nodes[ncc].kind.Ncc? {
        nodes := nodes[ncc := nodes[ncc].(kind := nodes[ncc].kind.(partner := partner))];
      }
    }

    // ----- completing an NCC -----

    method NccSubnetworkEntry(ncc: NodeId) returns (entry: Option<NodeId>)
      requires Older(nodes)
      ensures entry == SubnetworkEntry(State(), ncc)
    {
      if ncc !in nodes || !nodes[ncc].kind.Ncc? { return None; }
      var parent, current := nodes[ncc].parent, nodes[ncc].kind.partner;
      while current in nodes && !nodes[current].kind.Root?
        invariant EntryBelow(nodes, current, parent) == SubnetworkEntry(State(), ncc)
        decreases current
      {
        if nodes[current].parent == parent { return Some(current); }
        current := nodes[current].parent;
      }
      entry := None;
    }

    method NccIsPureDoubleNegation(ncc: NodeId) returns (pure: bool)
      requires Older(nodes)
      ensures pure <==> PureDoubleNegation(State(), ncc)
    {
      if ncc !in nodes || !nodes[ncc].kind.Ncc? { return false; }
      var partner := nodes[ncc].kind.partner;
      var entry := NccSubnetworkEntry(ncc);
      if entry.None? { return false; }
      pure := entry.value in nodes && nodes[entry.value].kind.Ncc?
              && partner in nodes && !nodes[partner].kind.Root? && nodes[partner].parent == entry.value;
    }

    method LinkNccAfterSubnetwork(ncc: NodeId)
      requires Older(nodes)
      modifies this`nodes
      ensures State() == LinkNcc(old(State()), ncc)
    {
      if ncc !in nodes || !nodes[ncc].kind.Ncc? { return; }
      var parent, partner := nodes[ncc].parent, nodes[ncc].kind.partner;
      if parent == rootId { return; }
      var pure := NccIsPureDoubleNegation(ncc);
      if parent in nodes && nodes[parent].Inner() && !nodes[parent].kind.Root? {
        var linked := Without(nodes[parent].children, ncc);
        var second := if |linked| == 0 then 0 else |linked| - 1;
        var slot := second;
        if pure {
          var found := Position(linked, ncc, partner);
          slot := if found.Some? then found.value else second;
        }
        nodes := nodes[parent := nodes[parent].(children := linked[..slot] + [ncc] + linked[slot..])];
      }
    }

    /** What a completed NCC waits for, from the graph. */
    method NccEntryWaitFor(ncc: NodeId, nested: bool) returns (wait: Option<NccEntryWait>)
      requires Older(nodes)
      ensures wait == EntryWait(State(), ncc, nested)
      ensures wait.Some? <==> SubnetworkEntry(State(), ncc).Some? && (nested || PureDoubleNegation(State(), ncc))
      ensures wait.Some? ==>
        (wait.value.nested <==> nested) && EntryOnPath(nodes, wait.value.entry, nodes[ncc].kind.partner, nodes[ncc].parent)
    {
      var entry := NccSubnetworkEntry(ncc);
      if entry.None? { return None; }
      EntryFound(nodes, nodes[ncc].kind.partner, nodes[ncc].parent);
      var pure := NccIsPureDoubleNegation(ncc);
      wait := if nested || pure then Some(NccEntryWait(entry.value, nested)) else None;
    }

    method RegisterNccEntryWait(ncc: NodeId, nested: bool)
      requires Older(nodes)
      modifies this`nccEntryWaits
      ensures State() == RegisterWait(old(State()), ncc, nested)
    {
      var wait := NccEntryWaitFor(ncc, nested);
      if wait.Some? && nccEntryWaits.Some? {
        nccEntryWaits := Some(nccEntryWaits.value[ncc := wait.value]);
      }
    }

    /** Search downwards for a partner that reports to an older NCC. */
    method NccFeedsEnclosingSubnetwork(ncc: NodeId) returns (feeds: bool)
      requires Wf(State(), {})
      ensures feeds <==> Feeds(nodes, ncc)
    {
      hide Wf, OnPath;
      WfIsOlder(State());
      var pending := [ncc];
      SearchStarts(nodes, ncc);
      while pending != []
        invariant Antichain(nodes, pending) && (forall y :: y in pending && y in nodes ==> OnPath(nodes, ncc, y))
        invariant forall p :: p in nodes && FeedsThrough(nodes, ncc, p) ==> p in Reached(nodes, pending)
        decreases |Reached(nodes, pending)|, |pending|
      {
        var last := |pending| - 1;
        var n := pending[last];
        if n in nodes && nodes[n].kind.NccPartner? && nodes[n].kind.nccNode < ncc {
          assert FeedsThrough(nodes, ncc, n);
          return true;
        }
        var more := if n in nodes && nodes[n].Inner() then NewerThan(nodes[n].children, ncc) else [];
        SearchStep(State(), ncc, pending, more);
        pending := pending[..last] + more;
      }
      assert Reached(nodes, []) == {};
      feeds := false;
    }

    /** Rebuild the entry-wait index from the graph if it was dropped. */
    method EnsureNccEntryWaitIndex()
      requires Wf(State(), {})
      modifies this`nccEntryWaits
      ensures State() == if old(State()).waits.Some? then old(State()) else old(State()).(waits := Some(RebuiltWaits(old(State()))))
      ensures old(nccEntryWaits).None? ==> IndexTells(State())
    {
      hide Wf, RebuiltWaits, WaitOf, IndexTells;
      if nccEntryWaits.Some? { return; }
      RebuiltTells(State());
      WfIsOlder(State());
      RebuiltAt(State());
      var waits: map<NodeId, NccEntryWait>, pending := map[], nodes.Keys;
      while pending != {}
        invariant pending <= nodes.Keys && State() == old(State())
        invariant forall n :: n in waits ==> n in nodes && n !in pending && WaitOf(State(), n) == Some(waits[n])
        invariant forall n :: n in nodes && n !in pending && WaitOf(State(), n).Some? ==> n in waits
      {
        var n :| n in pending;
        pending := pending - {n};
        WaitOfNcc(State(), n);
        if nodes[n].kind.Ncc? {
          var nested := NccFeedsEnclosingSubnetwork(n);
          var wait := NccEntryWaitFor(n, nested);
          if wait.Some? { waits := waits[n := wait.value]; }
        }
      }
      assert waits == RebuiltWaits(State());
      nccEntryWaits := Some(waits);
    }

    // ----- removing rules -----

    /** The part of the graph surviving terminals need: the least set closed under parents and partners. */
    method RetainedNodes(removed: set<RuleId>) returns (retained: set<NodeId>)
      requires Wf(State(), {})
      ensures IsRetained(State(), removed, retained)
    {
      hide Wf, Collecting, IsRetained, Reached;
      WfNeeds(State());
      var pending := SetToSeq(set n | n in nodes && nodes[n].kind.Terminal? && nodes[n].kind.rule !in removed);
      pending := pending + [rootId];
      retained := {};
      CollectStarts(State(), removed, pending);
      while pending != []
        invariant Collecting(State(), removed, retained, pending)
        decreases nodes.Keys - retained, |pending|
      {
        var last := |pending| - 1;
        var id := pending[last];
        CollectStep(State(), removed, retained, pending);
        pending := pending[..last];
        if id !in retained {
          retained := retained + {id};
          pending := pending + Needed(nodes[id]);
        }
      }
      CollectEnds(State(), removed, retained);
    }

    /** Keep the retained nodes and compact the memory tables; no renumbering lookup fails. */
    method RetainNodes(retained: set<NodeId>) returns (alphas: set<AlphaMemoryId>)
      requires MemoriesOk(State())
      modifies this
      ensures old(MemoriesOk(State())) && State() == Removal.RetainNodes(old(State()), retained)
      ensures alphas == UsedAlphas(nodes)
    {
      hide MemoriesOk, SurvivingMemories, UsedMemories, UsedAlphas, Removal.RetainNodes, Compact, Mapping, Removal.Covered, Kept;
      ghost var net := State();
      var kept := KeepNodes(nodes, retained);
      assert kept == Kept(net, retained) by { KeptNodes(net, retained); }
      var used := UsedMemories(kept, |memories|, |negMemories|, |nccMemories|, |existsMemories|);
      UsedBySurvivors(net, retained, kept, used);
      RetainedFields(net, retained, used);
      alphas := UsedAlphas(kept);
      var betaMap, negativeMap, nccMap, existsMap;
      memories, betaMap := CompactMemories(memories, used.memories);
      negMemories, negativeMap := CompactMemories(negMemories, used.negatives);
      nccMemories, nccMap := CompactMemories(nccMemories, used.nccs);
      existsMemories, existsMap := CompactMemories(existsMemories, used.existentials);
      nodes := RemapNodes(kept, used, betaMap, negativeMap, nccMap, existsMap);
      nccEntryWaits := PrunedWaits(nccEntryWaits, retained);
      SameAlphas(net, retained, nodes);
    }

    /** Point readers at their renumbered alpha memories and rebuild the subscriber lists in id order. */
    method RemapAlphaMemories(mapping: seq<Option<AlphaMemoryId>>, ghost keep: seq<bool>)
      requires mapping == Mapping(keep) && AlphasKept(State(), keep) && forall n :: n in nodes ==> n < nextNodeId
      modifies this
      ensures old(AlphasKept(State(), keep)) && State() == RemapAlpha(old(State()), keep)
      ensures ListsReaders(alphaToJoins, nodes, JoinRole, nextNodeId) && ListsReaders(alphaToNegatives, nodes, NegativeRole, nextNodeId)
      ensures ListsReaders(alphaToExists, nodes, ExistsRole, nextNodeId)
    {
      hide SubscribersBelow, RenumberAlpha, ListsReaders;
      ghost var after := RemapAlpha(State(), keep);
      nodes, alphaToJoins, alphaToNegatives, alphaToExists := RemapReaders(nodes, nextNodeId, mapping, keep);
      assert nodes == after.nodes;
      SubscribersListReaders(nodes, JoinRole, nextNodeId);
      SubscribersListReaders(nodes, NegativeRole, nextNodeId);
      SubscribersListReaders(nodes, ExistsRole, nextNodeId);
    }

    // ----- priming an installation -----

    /** The edges from an old parent to a child allocated since `first`. */
    method InstallationFrontier(first: NodeId) returns (edges: seq<(NodeId, NodeId)>)
      ensures edges == FrontierFrom(State(), first, first)
    {
      edges := [];
      var raw := first;
      ghost var net := State();
      while raw < nextNodeId
        invariant first <= raw && net == State()
        invariant edges + FrontierFrom(net, first, raw) == FrontierFrom(net, first, first)
        decreases nextNodeId - raw
      {
        if raw in nodes && !nodes[raw].kind.Root? && nodes[raw].parent < first {
          edges := edges + [(nodes[raw].parent, raw)];
        }
        raw := raw + 1;
      }
    }
  }

  // ----- renumbering -----

  /** Which table entries a retained graph uses. */
  function UsedMemories(nodes: map<NodeId, BetaNode>, betas: nat, negatives: nat, nccs: nat, existentials: nat): Surviving {
    Surviving(
      Flags(set n | n in nodes && nodes[n].Inner() :: nodes[n].memory, betas),
      Flags(set n | n in nodes && nodes[n].kind.Negative? :: nodes[n].kind.negMemory, negatives),
      Flags(set n | n in nodes && (nodes[n].kind.Ncc? || nodes[n].kind.NccPartner?) :: nodes[n].kind.nccMemory, nccs),
      Flags(set n | n in nodes && nodes[n].kind.Exists? :: nodes[n].kind.existsMemory, existentials))
  }

  predicate Remappable(node: BetaNode, betas: seq<Option<nat>>, negatives: seq<Option<nat>>, nccs: seq<Option<nat>>, existentials: seq<Option<nat>>) {
    && (node.Inner() ==> node.memory < |betas| && betas[node.memory].Some?)
    && (node.kind.Negative? ==> node.kind.negMemory < |negatives| && negatives[node.kind.negMemory].Some?)
    && (node.kind.Ncc? || node.kind.NccPartner? ==> node.kind.nccMemory < |nccs| && nccs[node.kind.nccMemory].Some?)
    && (node.kind.Exists? ==> node.kind.existsMemory < |existentials| && existentials[node.kind.existsMemory].Some?)
  }

  /** Follow the recorded new ids. */
  function RemappedNode(node: BetaNode, betas: seq<Option<nat>>, negatives: seq<Option<nat>>, nccs: seq<Option<nat>>, existentials: seq<Option<nat>>): BetaNode
    requires Remappable(node, betas, negatives, nccs, existentials)
  {
    node.(
      memory := if node.Inner() then betas[node.memory].value else node.memory,
      kind := match node.kind
        case Negative(alpha, tests, sequence, m) => Negative(alpha, tests, sequence, negatives[m].value)
        case Ncc(partner, m) => Ncc(partner, nccs[m].value)
        case NccPartner(ncc, m) => NccPartner(ncc, nccs[m].value)
        case Exists(alpha, tests, sequence, m) => Exists(alpha, tests, sequence, existentials[m].value)
        case _ => node.kind)
  }

  function KeepNodes(nodes: map<NodeId, BetaNode>, retained: set<NodeId>): map<NodeId, BetaNode> {
    map n | n in nodes && n in retained :: nodes[n].(children := FilterChildren(nodes[n].children, retained))
  }

  lemma KeptNodes(net: Net, retained: set<NodeId>)
    ensures KeepNodes(net.nodes, retained) == Kept(net, retained)
  {
  }

  lemma UsedBySurvivors(net: Net, retained: set<NodeId>, kept: map<NodeId, BetaNode>, used: Surviving)
    requires kept == Kept(net, retained)
    requires used == UsedMemories(kept, |net.memories|, |net.negMemories|, |net.nccMemories|, |net.existsMemories|)
    ensures used == SurvivingMemories(net, retained)
  {
    assert forall n :: n in kept ==> kept[n].kind == net.nodes[n].kind && kept[n].memory == net.nodes[n].memory;
    assert (set n | n in kept && kept[n].Inner() :: kept[n].memory)
        == (set n | n in net.nodes && n in retained && net.nodes[n].Inner() :: net.nodes[n].memory);
    assert (set n | n in kept && kept[n].kind.Negative? :: kept[n].kind.negMemory)
        == (set n | n in net.nodes && n in retained && net.nodes[n].kind.Negative? :: net.nodes[n].kind.negMemory);
    assert (set n | n in kept && (kept[n].kind.Ncc? || kept[n].kind.NccPartner?) :: kept[n].kind.nccMemory)
        == (set n | n in net.nodes && n in retained && (net.nodes[n].kind.Ncc? || net.nodes[n].kind.NccPartner?) :: net.nodes[n].kind.nccMemory);
    assert (set n | n in kept && kept[n].kind.Exists? :: kept[n].kind.existsMemory)
        == (set n | n in net.nodes && n in retained && net.nodes[n].kind.Exists? :: net.nodes[n].kind.existsMemory);
  }

  /** The retained graph, field by field. */
  lemma RetainedFields(net: Net, retained: set<NodeId>, keep: Surviving)
    requires MemoriesOk(net) && keep == SurvivingMemories(net, retained)
    ensures forall n :: n in Kept(net, retained) ==> Removal.Covered(Kept(net, retained)[n], keep)
    ensures var kept := Kept(net, retained);
      Removal.RetainNodes(net, retained) == net.(
        nodes := map n | n in kept :: RenumberNode(kept[n], keep),
        memories := Renumbered(Compact(net.memories, keep.memories)),
        negMemories := Renumbered(Compact(net.negMemories, keep.negatives)),
        nccMemories := Renumbered(Compact(net.nccMemories, keep.nccs)),
        existsMemories := Renumbered(Compact(net.existsMemories, keep.existentials)),
        waits := PrunedWaits(net.waits, retained))
    ensures |keep.memories| == |net.memories| && |keep.negatives| == |net.negMemories|
    ensures |keep.nccs| == |net.nccMemories| && |keep.existentials| == |net.existsMemories|
  {
    RetainedCovered(net, retained);
  }

  /** Follow the renumbering in every node; every unwrap succeeds. */
  method RemapNodes(kept: map<NodeId, BetaNode>, keep: Surviving, betas: seq<Option<nat>>, negatives: seq<Option<nat>>,
                    nccs: seq<Option<nat>>, existentials: seq<Option<nat>>) returns (nodes: map<NodeId, BetaNode>)
    requires forall n :: n in kept ==> Removal.Covered(kept[n], keep)
    requires betas == Mapping(keep.memories) && negatives == Mapping(keep.negatives)
    requires nccs == Mapping(keep.nccs) && existentials == Mapping(keep.existentials)
    ensures nodes == map n | n in kept :: RenumberNode(kept[n], keep)
  {
    forall n | n in kept
      ensures Remappable(kept[n], betas, negatives, nccs, existentials)
      ensures RemappedNode(kept[n], betas, negatives, nccs, existentials) == RenumberNode(kept[n], keep)
    {
      assert Removal.Covered(kept[n], keep);
    }
    nodes := map n | n in kept :: RemappedNode(kept[n], betas, negatives, nccs, existentials);
  }

  function RenumberedUpTo(nodes: map<NodeId, BetaNode>, keep: seq<bool>, id: NodeId): map<NodeId, BetaNode>
    requires forall n :: n in nodes && nodes[n].ReadsAlpha() ==> nodes[n].kind.alpha < |keep| && keep[nodes[n].kind.alpha]
  {
    map n | n in nodes :: if n < id then RenumberAlpha(nodes[n], keep) else nodes[n]
  }

  /** Renumber the alpha memory of every reader and list the readers of each memory, oldest first. */
  method RemapReaders(nodes: map<NodeId, BetaNode>, next: NodeId, mapping: seq<Option<AlphaMemoryId>>, ghost keep: seq<bool>)
    returns (remapped: map<NodeId, BetaNode>, joins: Subscribers, negatives: Subscribers, existentials: Subscribers)
    requires mapping == Mapping(keep) && forall n :: n in nodes ==> n < next
    requires forall n :: n in nodes && nodes[n].ReadsAlpha() ==> nodes[n].kind.alpha < |keep| && keep[nodes[n].kind.alpha]
    ensures remapped == map n | n in nodes :: RenumberAlpha(nodes[n], keep)
    ensures joins == SubscribersBelow(remapped, JoinRole, next)
    ensures negatives == SubscribersBelow(remapped, NegativeRole, next)
    ensures existentials == SubscribersBelow(remapped, ExistsRole, next)
  {
    hide SubscribersBelow;
    ghost var renumbered := map n | n in nodes :: RenumberAlpha(nodes[n], keep);
    SubscribersStart(renumbered);
    remapped, joins, negatives, existentials := nodes, map[], map[], map[];
    assert remapped == RenumberedUpTo(nodes, keep, 0);
    for id := 0 to next
      invariant remapped == RenumberedUpTo(nodes, keep, id)
      invariant joins == SubscribersBelow(renumbered, JoinRole, id)
      invariant negatives == SubscribersBelow(renumbered, NegativeRole, id)
      invariant existentials == SubscribersBelow(renumbered, ExistsRole, id)
    {
      RenumberStep(nodes, keep, id);
      SubscribersStep(renumbered, id);
      if id in remapped && remapped[id].ReadsAlpha() {
        var node := remapped[id];
        var alpha := mapping[node.kind.alpha].value;
        remapped := remapped[id := node.(kind := node.kind.(alpha := alpha))];
        match node.kind {
          case Join(_, _, _, _) => joins := Subscribe(joins, alpha, id);
          case Negative(_, _, _, _) => negatives := Subscribe(negatives, alpha, id);
          case Exists(_, _, _, _) => existentials := Subscribe(existentials, alpha, id);
        }
      }
    }
    assert remapped == renumbered;
  }

  lemma SubscribersStart(nodes: map<NodeId, BetaNode>)
    ensures forall role :: SubscribersBelow(nodes, role, 0) == map[]
  {
  }

  lemma SubscribersStep(nodes: map<NodeId, BetaNode>, id: NodeId)
    ensures forall role :: (SubscribersBelow(nodes, role, id + 1) ==
      if id in nodes && Plays(nodes[id], role) then Subscribe(SubscribersBelow(nodes, role, id), nodes[id].kind.alpha, id)
      else SubscribersBelow(nodes, role, id))
  {
  }

  lemma RenumberStep(nodes: map<NodeId, BetaNode>, keep: seq<bool>, id: NodeId)
    requires forall n :: n in nodes && nodes[n].ReadsAlpha() ==> nodes[n].kind.alpha < |keep| && keep[nodes[n].kind.alpha]
    ensures RenumberedUpTo(nodes, keep, id + 1) ==
            if id in nodes then RenumberedUpTo(nodes, keep, id)[id := RenumberAlpha(nodes[id], keep)] else RenumberedUpTo(nodes, keep, id)
  {
  }

  lemma SameAlphas(net: Net, retained: set<NodeId>, nodes: map<NodeId, BetaNode>)
    requires MemoriesOk(net) && nodes == Removal.RetainNodes(net, retained).nodes
    ensures UsedAlphas(nodes) == UsedAlphas(Kept(net, retained))
  {
    RetainedCovered(net, retained);
    var kept := Kept(net, retained);
    assert nodes.Keys == kept.Keys;
    forall n | n in kept
      ensures nodes[n].ReadsAlpha() == kept[n].ReadsAlpha() && (kept[n].ReadsAlpha() ==> nodes[n].kind.alpha == kept[n].kind.alpha)
    {
    }
    forall a ensures a in UsedAlphas(nodes) <==> a in UsedAlphas(kept) {
      if n :| n in nodes && nodes[n].ReadsAlpha() && nodes[n].kind.alpha == a { assert kept[n].kind.alpha == a; }
      if n :| n in kept && kept[n].ReadsAlpha() && kept[n].kind.alpha == a { assert nodes[n].kind.alpha == a; }
    }
  }

  // ----- searching downwards -----

  lemma WfIsOlder(net: Net)
    requires Wf(net, {})
    ensures Older(net.nodes)
  {
    TreeIsOlder(net);
  }

  method Position(s: seq<NodeId>, low: NodeId, high: NodeId) returns (found: Option<nat>)
    ensures found.Some? ==> found.value < |s| && forall default_ :: 0 <= default_ <= |s| ==> FirstInRange(s, low, high, default_) == found.value
    ensures found.None? ==> forall default_ :: 0 <= default_ <= |s| ==> FirstInRange(s, low, high, default_) == default_
  {
    for i := 0 to |s|
      invariant forall k :: 0 <= k < i ==> !(low < s[k] <= high)
    {
      if low < s[i] <= high { return Some(i); }
    }
    found := None;
  }

  ghost predicate Antichain(nodes: map<NodeId, BetaNode>, pending: seq<NodeId>) {
    forall i, j :: 0 <= i < |pending| && 0 <= j < |pending| && i != j ==> !OnPath(nodes, pending[i], pending[j])
  }

  ghost function Reached(nodes: map<NodeId, BetaNode>, pending: seq<NodeId>): set<NodeId> {
    set x | x in nodes && exists y :: y in pending && OnPath(nodes, y, x)
  }

  function NewerThan(s: seq<NodeId>, n: NodeId): seq<NodeId> {
    if s == [] then [] else (if s[0] > n then [s[0]] else []) + NewerThan(s[1..], n)
  }

  lemma {:induction false} NewerThanAll(s: seq<NodeId>, n: NodeId)
    requires forall c :: c in s ==> c > n
    ensures NewerThan(s, n) == s
  {
    if s != [] {
      assert s[0] in s && forall c :: c in s[1..] ==> c in s;
      NewerThanAll(s[1..], n);
    }
  }

  lemma SearchStarts(nodes: map<NodeId, BetaNode>, ncc: NodeId)
    ensures Antichain(nodes, [ncc]) && (ncc in nodes ==> OnPath(nodes, ncc, ncc))
    ensures forall p :: p in nodes && FeedsThrough(nodes, ncc, p) ==> p in Reached(nodes, [ncc])
  {
    forall p | p in nodes && FeedsThrough(nodes, ncc, p) ensures p in Reached(nodes, [ncc]) { assert ncc in [ncc]; }
  }

  /** A descendant of `n` is below one of its children. */
  lemma {:induction false} OnPathThroughChild(net: Net, n: NodeId, x: NodeId) returns (c: NodeId)
    requires TreeOk(net) && ChildrenListed(net) && OnPath(net.nodes, n, x) && n != x
    ensures n in net.nodes && net.nodes[n].Inner() && c in net.nodes[n].children && OnPath(net.nodes, c, x)
    decreases x
  {
    var up := net.nodes[x].parent;
    assert HasOlderParent(net.nodes, x) && Listed(net.nodes, x);
    if up == n { c := x; } else { c := OnPathThroughChild(net, n, up); }
  }

  /** A child is on a path exactly when its parent is above it on that path. */
  lemma ChildOnPath(net: Net, n: NodeId, c: NodeId, x: NodeId)
    requires TreeOk(net) && ChildrenNamed(net) && n in net.nodes && net.nodes[n].Inner() && c in net.nodes[n].children
    ensures c in net.nodes && n < c && net.nodes[c].parent == n && OnPath(net.nodes, n, c)
    ensures OnPath(net.nodes, c, x) ==> OnPath(net.nodes, n, x) && x != n
    ensures OnPath(net.nodes, x, c) ==> x == c || OnPath(net.nodes, x, n)
  {
    assert IsChild(net.nodes, n, c) && HasOlderParent(net.nodes, c);
    assert OnPath(net.nodes, n, n);
    if OnPath(net.nodes, c, x) {
      OnPathTransitive(net.nodes, n, c, x);
      OnPathDown(net.nodes, c, x);
    }
  }

  lemma SearchStep(net: Net, ncc: NodeId, pending: seq<NodeId>, more: seq<NodeId>)
    requires Wf(net, {}) && pending != [] && Antichain(net.nodes, pending)
    requires forall y :: y in pending && y in net.nodes ==> OnPath(net.nodes, ncc, y)
    requires var n := pending[|pending| - 1];
      more == if n in net.nodes && net.nodes[n].Inner() then NewerThan(net.nodes[n].children, ncc) else []
    ensures var n, after := pending[|pending| - 1], pending[..|pending| - 1] + more;
      && Antichain(net.nodes, after) && (forall y :: y in after && y in net.nodes ==> OnPath(net.nodes, ncc, y))
      && Reached(net.nodes, after) == Reached(net.nodes, pending) - {n}
      && (n in net.nodes ==> n in Reached(net.nodes, pending)) && (n !in net.nodes ==> more == [])
  {
    var n, rest := pending[|pending| - 1], pending[..|pending| - 1];
    assert pending == rest + [n];
    if n in net.nodes {
      if net.nodes[n].Inner() {
        forall c | c in net.nodes[n].children ensures c > ncc {
          ChildOnPath(net, n, c, c);
          OnPathDown(net.nodes, ncc, n);
        }
        NewerThanAll(net.nodes[n].children, ncc);
      }
      SearchAntichain(net, pending, more);
      forall y | y in rest + more ensures y in net.nodes ==> OnPath(net.nodes, ncc, y) {
        if y in more {
          ChildOnPath(net, n, y, y);
          OnPathTransitive(net.nodes, ncc, n, y);
        }
      }
    }
    SearchCovers(net, pending, more);
  }

  lemma SearchAntichain(net: Net, pending: seq<NodeId>, more: seq<NodeId>)
    requires Wf(net, {}) && pending != [] && Antichain(net.nodes, pending)
    requires var n := pending[|pending| - 1]; n in net.nodes && more == if net.nodes[n].Inner() then net.nodes[n].children else []
    ensures Antichain(net.nodes, pending[..|pending| - 1] + more)
  {
    var n, rest := pending[|pending| - 1], pending[..|pending| - 1];
    var after := rest + more;
    forall i, j | 0 <= i < |after| && 0 <= j < |after| && i != j ensures !OnPath(net.nodes, after[i], after[j]) {
      if i < |rest| && j < |rest| {
        assert after[i] == pending[i] && after[j] == pending[j];
      } else if i < |rest| {
        assert !OnPath(net.nodes, pending[i], n) && !OnPath(net.nodes, n, pending[i]);
        ChildOnPath(net, n, after[j], pending[i]);
      } else if j < |rest| {
        assert !OnPath(net.nodes, n, pending[j]);
        ChildOnPath(net, n, after[i], pending[j]);
      } else {
        ChildOnPath(net, n, after[j], after[i]);
        ChildOnPath(net, n, after[i], n);
        assert NoDuplicates(net.nodes[n].children);
      }
    }
  }

  lemma SearchCovers(net: Net, pending: seq<NodeId>, more: seq<NodeId>)
    requires Wf(net, {}) && pending != [] && Antichain(net.nodes, pending)
    requires var n := pending[|pending| - 1]; more == if n in net.nodes && net.nodes[n].Inner() then net.nodes[n].children else []
    ensures var n, after := pending[|pending| - 1], pending[..|pending| - 1] + more;
      && Reached(net.nodes, after) == Reached(net.nodes, pending) - {n} && (n in net.nodes ==> n in Reached(net.nodes, pending))
  {
    var n, rest := pending[|pending| - 1], pending[..|pending| - 1];
    var after := rest + more;
    assert pending == rest + [n];
    if n in net.nodes { assert OnPath(net.nodes, n, n); }
    forall x | x in net.nodes ensures x in Reached(net.nodes, after) <==> x in Reached(net.nodes, pending) && x != n {
      if y :| y in rest && OnPath(net.nodes, y, x) {
        assert y in pending && y in after;
        var i :| 0 <= i < |rest| && rest[i] == y;
        assert pending[i] == y && !OnPath(net.nodes, pending[i], pending[|rest|]);
      } else if OnPath(net.nodes, n, x) {
        if x != n {
          var c := OnPathThroughChild(net, n, x);
          assert c in after;
        } else {
          assert forall c :: c in more ==> !OnPath(net.nodes, c, n) by {
            forall c | c in more ensures !OnPath(net.nodes, c, n) { ChildOnPath(net, n, c, n); }
          }
        }
      } else {
        forall c | c in more ensures !OnPath(net.nodes, c, x) { ChildOnPath(net, n, c, x); }
      }
    }
  }

  lemma RebuiltAt(net: Net)
    ensures forall n :: n in RebuiltWaits(net) <==> n in net.nodes && WaitOf(net, n).Some?
    ensures forall n :: n in RebuiltWaits(net) ==> WaitOf(net, n) == Some(RebuiltWaits(net)[n])
  {
  }

  lemma WaitOfNcc(net: Net, n: NodeId)
    requires n in net.nodes
    ensures WaitOf(net, n) == if net.nodes[n].kind.Ncc? then EntryWait(net, n, Feeds(net.nodes, n)) else None
  {
  }

  // ----- collecting what survives -----

  lemma WfNeeds(net: Net)
    requires Wf(net, {})
    ensures net.root in net.nodes && net.nodes[net.root].kind.Root?
    ensures forall n :: n in net.nodes ==>
      (net.nodes[n].kind.Root? || net.nodes[n].parent in net.nodes) && (net.nodes[n].kind.Ncc? ==> net.nodes[n].kind.partner in net.nodes)
  {
    forall n | n in net.nodes
      ensures (net.nodes[n].kind.Root? || net.nodes[n].parent in net.nodes) && (net.nodes[n].kind.Ncc? ==> net.nodes[n].kind.partner in net.nodes)
    {
      if !net.nodes[n].kind.Root? { assert HasOlderParent(net.nodes, n); }
      if net.nodes[n].kind.Ncc? { assert Paired(net.nodes, n); }
    }
  }

  /** The nodes a retained node asks for. */
  function Needed(node: BetaNode): seq<NodeId> {
    if node.kind.Root? then [] else if node.kind.Ncc? then [node.parent, node.kind.partner] else [node.parent]
  }

  /** The worklist state: everything requested is retained or pending, and nothing else is. */
  ghost predicate Collecting(net: Net, removed: set<RuleId>, retained: set<NodeId>, pending: seq<NodeId>) {
    && retained <= net.nodes.Keys && (forall n :: n in pending ==> n in net.nodes)
    && (forall n :: n in net.nodes && Seed(net, removed, n) ==> n in retained || n in pending)
    && (forall n, m :: n in retained && m in Needed(net.nodes[n]) ==> m in retained || m in pending)
    && (forall s: set<NodeId> :: ClosedSet(net.nodes, s) && HoldsSeeds(net, removed, s) ==>
          retained <= s && forall n :: n in pending ==> n in s)
  }

  lemma CollectStarts(net: Net, removed: set<RuleId>, pending: seq<NodeId>)
    requires net.root in net.nodes
    requires forall n :: n in pending <==>
               n == net.root || (n in net.nodes && net.nodes[n].kind.Terminal? && net.nodes[n].kind.rule !in removed)
    ensures Collecting(net, removed, {}, pending)
  {
    forall n | n in pending ensures Seed(net, removed, n) {}
  }

  lemma CollectStep(net: Net, removed: set<RuleId>, retained: set<NodeId>, pending: seq<NodeId>)
    requires Collecting(net, removed, retained, pending) && pending != []
    requires forall n :: n in net.nodes ==>
      (net.nodes[n].kind.Root? || net.nodes[n].parent in net.nodes) && (net.nodes[n].kind.Ncc? ==> net.nodes[n].kind.partner in net.nodes)
    ensures var id, rest := pending[|pending| - 1], pending[..|pending| - 1];
      && id in net.nodes
      && (id in retained ==> Collecting(net, removed, retained, rest))
      && (id !in retained ==> Collecting(net, removed, retained + {id}, rest + Needed(net.nodes[id])))
  {
    var id, rest := pending[|pending| - 1], pending[..|pending| - 1];
    assert pending == rest + [id];
    assert id in pending;
    CollectLeast(net, removed, retained, pending);
    hide ClosedSet, HoldsSeeds, Seed;
    if id !in retained {
      forall n, m | n in retained + {id} && m in Needed(net.nodes[n]) ensures m in retained + {id} || m in rest + Needed(net.nodes[id]) {
        if n in retained { assert m in retained || m in pending; }
      }
    }
  }

  /** Whatever closed set holds the seeds holds the popped node and what it asks for. */
  lemma CollectLeast(net: Net, removed: set<RuleId>, retained: set<NodeId>, pending: seq<NodeId>)
    requires Collecting(net, removed, retained, pending) && pending != []
    ensures forall s: set<NodeId> :: ClosedSet(net.nodes, s) && HoldsSeeds(net, removed, s) ==>
      pending[|pending| - 1] in s && forall m :: m in Needed(net.nodes[pending[|pending| - 1]]) ==> m in s
  {
    var id := pending[|pending| - 1];
    assert id in pending;
    forall s: set<NodeId> | ClosedSet(net.nodes, s) && HoldsSeeds(net, removed, s)
      ensures id in s && forall m :: m in Needed(net.nodes[id]) ==> m in s
    {
      assert NeedsIn(net.nodes, id, s);
    }
  }

  lemma CollectEnds(net: Net, removed: set<RuleId>, retained: set<NodeId>)
    requires Collecting(net, removed, retained, [])
    ensures IsRetained(net, removed, retained)
  {
    forall n | n in retained ensures NeedsIn(net.nodes, n, retained) {
      assert forall m :: m in Needed(net.nodes[n]) ==> m in retained;
      if !net.nodes[n].kind.Root? { assert net.nodes[n].parent in Needed(net.nodes[n]); }
      if net.nodes[n].kind.Ncc? { assert net.nodes[n].kind.partner in Needed(net.nodes[n]); }
    }
  }

  method SetToSeq(s: set<NodeId>) returns (r: seq<NodeId>)
    ensures forall n :: n in r <==> n in s
  {
    r := [];
    var rest := s;
    while rest != {}
      invariant rest <= s && forall n :: n in r <==> n in s && n !in rest
    {
      var n :| n in rest;
      rest := rest - {n};
      r := r + [n];
    }
  }
}
