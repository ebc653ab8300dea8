/** The shape every reachable beta graph has, and why each construction step keeps it. */
module WellFormed {
  import opened Syntax
  import opened Compaction
  import opened Sequences
  import opened Network

  /** Ids are below the counter, only the root is a root, and parents are older inner nodes. */
  ghost predicate TreeOk(net: Net) {
    && net.root in net.nodes && net.nodes[net.root].kind.Root?
    && forall n :: n in net.nodes ==>
        && n < net.next
        && (net.nodes[n].kind.Root? <==> n == net.root)
        && (n != net.root ==> HasOlderParent(net.nodes, n))
  }

  ghost predicate HasOlderParent(nodes: map<NodeId, BetaNode>, n: NodeId)
    requires n in nodes && !nodes[n].kind.Root?
  {
    nodes[n].parent in nodes && nodes[n].parent < n && nodes[nodes[n].parent].Inner()
  }

  /** A node's children are exactly the nodes that name it as parent, once each. */
  ghost predicate ChildrenOk(net: Net) {
    ChildrenDistinct(net) && ChildrenNamed(net) && ChildrenListed(net)
  }

  ghost predicate ChildrenDistinct(net: Net) {
    forall p :: p in net.nodes && net.nodes[p].Inner() ==> NoDuplicates(net.nodes[p].children)
  }

  ghost predicate ChildrenNamed(net: Net) {
    forall p, c :: p in net.nodes && net.nodes[p].Inner() && c in net.nodes[p].children ==> IsChild(net.nodes, p, c)
  }

  ghost predicate ChildrenListed(net: Net) {
    forall c :: c in net.nodes && !net.nodes[c].kind.Root? ==> Listed(net.nodes, c)
  }

  ghost predicate IsChild(nodes: map<NodeId, BetaNode>, p: NodeId, c: NodeId) {
    c in nodes && !nodes[c].kind.Root? && nodes[c].parent == p
  }

  ghost predicate Listed(nodes: map<NodeId, BetaNode>, c: NodeId)
    requires c in nodes && !nodes[c].kind.Root?
  {
    nodes[c].parent in nodes && nodes[nodes[c].parent].Inner() ==> c in nodes[nodes[c].parent].children
  }

  /** Every NCC outside `open` and every partner point at each other and share one memory. */
  ghost predicate PairsOk(net: Net, open: set<NodeId>) {
    && (forall n :: n in net.nodes && net.nodes[n].kind.Ncc? && n !in open ==> Paired(net.nodes, n))
    && (forall p :: p in net.nodes && net.nodes[p].kind.NccPartner? ==> PartnerOf(net.nodes, p))
    && (forall n :: n in open ==> n in net.nodes && net.nodes[n].kind.Ncc? && net.nodes[n].kind.partner == net.root)
  }

  ghost predicate Paired(nodes: map<NodeId, BetaNode>, n: NodeId)
    requires n in nodes && nodes[n].kind.Ncc?
  {
    var p := nodes[n].kind.partner;
    n < p && p in nodes && nodes[p].kind.NccPartner? && nodes[p].kind.nccNode == n && nodes[p].kind.nccMemory == nodes[n].kind.nccMemory
  }

  ghost predicate PartnerOf(nodes: map<NodeId, BetaNode>, p: NodeId)
    requires p in nodes && nodes[p].kind.NccPartner?
  {
    var n := nodes[p].kind.nccNode;
    n in nodes && nodes[n].kind.Ncc? && nodes[n].kind.partner == p
  }

  ghost predicate IdsAreIndices<T(!new)>(s: seq<Memory<T>>) {
    forall i :: 0 <= i < |s| ==> s[i].id == i
  }

  /** Node-owned memory ids exist, and each table is indexed by its members' ids. */
  ghost predicate MemoriesOk(net: Net) {
    && IdsAreIndices(net.memories) && IdsAreIndices(net.negMemories)
    && IdsAreIndices(net.nccMemories) && IdsAreIndices(net.existsMemories)
    && forall n :: n in net.nodes ==> OwnsMemories(net, net.nodes[n])
  }

  ghost predicate OwnsMemories(net: Net, node: BetaNode) {
    && (node.Inner() ==> node.memory < |net.memories|)
    && (node.kind.Negative? ==> node.kind.negMemory < |net.negMemories|)
    && (node.kind.Ncc? || node.kind.NccPartner? ==> node.kind.nccMemory < |net.nccMemories|)
    && (node.kind.Exists? ==> node.kind.existsMemory < |net.existsMemories|)
  }

  ghost predicate Wf(net: Net, open: set<NodeId>) {
    TreeOk(net) && ChildrenOk(net) && PairsOk(net, open) && MemoriesOk(net)
  }

  /** `b` grew out of `a`: old nodes keep everything but their child lists, new ids are fresh. */
  ghost predicate Extends(a: Net, b: Net) {
    && a.root == b.root && a.next <= b.next
    && (forall n :: n in a.nodes ==> n in b.nodes && b.nodes[n].Core() == a.nodes[n].Core())
    && (forall n :: n in b.nodes && n !in a.nodes ==> a.next <= n < b.next)
  }

  lemma ExtendsTransitive(a: Net, b: Net, c: Net)
    requires Extends(a, b) && Extends(b, c)
    ensures Extends(a, c)
  {
  }

  /** Where `AddNode` may attach a node of this kind. */
  ghost predicate Attachable(net: Net, kind: Kind, parent: NodeId, memory: nat) {
    && !kind.Root? && parent in net.nodes && net.nodes[parent].Inner()
    && OwnsMemories(net, BetaNode(kind, parent, memory, []))
  }

  /** What `AddNode` does to the node table. */
  ghost predicate GrownBy(a: Net, b: Net, kind: Kind, parent: NodeId, memory: nat) {
    && b.next == a.next + 1
    && b.nodes.Keys == a.nodes.Keys + {a.next}
    && b.nodes[a.next] == BetaNode(kind, parent, memory, [])
  }

  lemma AddNodeShape(net: Net, kind: Kind, parent: NodeId, memory: nat)
    requires TreeOk(net) && !kind.Root? && parent in net.nodes && net.nodes[parent].Inner()
    ensures var after := AddNode(net, kind, parent, memory);
      && GrownBy(net, after, kind, parent, memory) && Extends(net, after)
      && (forall n :: n in net.nodes && n != parent ==> after.nodes[n] == net.nodes[n])
      && after.nodes[parent] == net.nodes[parent].(children := net.nodes[parent].children + [net.next])
  {
    assert net.next !in net.nodes;
  }

  lemma AddNodeTree(net: Net, kind: Kind, parent: NodeId, memory: nat)
    requires TreeOk(net) && !kind.Root? && parent in net.nodes && net.nodes[parent].Inner()
    ensures TreeOk(AddNode(net, kind, parent, memory))
  {
    AddNodeShape(net, kind, parent, memory);
    var after := AddNode(net, kind, parent, memory);
    forall n | n in after.nodes && n != net.root ensures !after.nodes[n].kind.Root? && HasOlderParent(after.nodes, n) {
      if n != net.next { assert HasOlderParent(net.nodes, n); }
    }
  }

  lemma AddNodeChildren(net: Net, kind: Kind, parent: NodeId, memory: nat)
    requires TreeOk(net) && ChildrenOk(net) && !kind.Root? && parent in net.nodes && net.nodes[parent].Inner()
    ensures ChildrenOk(AddNode(net, kind, parent, memory))
  {
    AddNodeShape(net, kind, parent, memory);
    AddNodeDistinct(net, kind, parent, memory);
    AddNodeNamed(net, kind, parent, memory);
    AddNodeListed(net, kind, parent, memory);
  }

  lemma AddNodeDistinct(net: Net, kind: Kind, parent: NodeId, memory: nat)
    requires TreeOk(net) && ChildrenOk(net) && !kind.Root? && parent in net.nodes && net.nodes[parent].Inner()
    ensures ChildrenDistinct(AddNode(net, kind, parent, memory))
  {
    AddNodeShape(net, kind, parent, memory);
    assert net.next !in net.nodes;
    hide TreeOk, ChildrenListed, AddNode;
    var after := AddNode(net, kind, parent, memory);
    assert net.next in net.nodes[parent].children ==> IsChild(net.nodes, parent, net.next);
    forall p | p in after.nodes && after.nodes[p].Inner() ensures NoDuplicates(after.nodes[p].children) {
      if p == parent { DistinctSnoc(net.nodes[parent].children, net.next); }
    }
  }

  lemma AddNodeNamed(net: Net, kind: Kind, parent: NodeId, memory: nat)
    requires TreeOk(net) && ChildrenNamed(net) && !kind.Root? && parent in net.nodes && net.nodes[parent].Inner()
    ensures ChildrenNamed(AddNode(net, kind, parent, memory))
  {
    AddNodeShape(net, kind, parent, memory);
    var after := AddNode(net, kind, parent, memory);
    forall p, c | p in after.nodes && after.nodes[p].Inner() && c in after.nodes[p].children
      ensures IsChild(after.nodes, p, c)
    {
      if c != net.next { assert c in net.nodes[p].children; assert IsChild(net.nodes, p, c); }
    }
  }

  lemma AddNodeListed(net: Net, kind: Kind, parent: NodeId, memory: nat)
    requires TreeOk(net) && ChildrenListed(net) && !kind.Root? && parent in net.nodes && net.nodes[parent].Inner()
    ensures ChildrenListed(AddNode(net, kind, parent, memory))
  {
    AddNodeShape(net, kind, parent, memory);
    var after := AddNode(net, kind, parent, memory);
    forall c | c in after.nodes && !after.nodes[c].kind.Root? ensures Listed(after.nodes, c) {
      if c != net.next { assert Listed(net.nodes, c); }
    }
  }

  lemma AddNodeMemories(net: Net, kind: Kind, parent: NodeId, memory: nat)
    requires TreeOk(net) && MemoriesOk(net) && Attachable(net, kind, parent, memory)
    ensures MemoriesOk(AddNode(net, kind, parent, memory))
  {
    AddNodeShape(net, kind, parent, memory);
    var after := AddNode(net, kind, parent, memory);
    forall n | n in after.nodes ensures OwnsMemories(after, after.nodes[n]) {
      if n != net.next { assert OwnsMemories(net, net.nodes[n]); }
    }
  }

  lemma AddNodePairs(net: Net, kind: Kind, parent: NodeId, memory: nat, open: set<NodeId>)
    requires TreeOk(net) && PairsOk(net, open) && Attachable(net, kind, parent, memory)
    requires !kind.NccPartner? && (kind.Ncc? ==> kind.partner == net.root)
    ensures PairsOk(AddNode(net, kind, parent, memory), if kind.Ncc? then open + {net.next} else open)
  {
    AddNodeShape(net, kind, parent, memory);
    var after := AddNode(net, kind, parent, memory);
    forall n | n in after.nodes && after.nodes[n].kind.Ncc? && n !in open && n != net.next
      ensures Paired(after.nodes, n)
    {
      assert Paired(net.nodes, n);
    }
    forall p | p in after.nodes && after.nodes[p].kind.NccPartner? ensures PartnerOf(after.nodes, p) {
      assert PartnerOf(net.nodes, p);
    }
  }

  /** Attaching a node that is neither a partner nor (unless opened) an NCC keeps the shape. */
  lemma AddNodeWf(net: Net, kind: Kind, parent: NodeId, memory: nat, open: set<NodeId>)
    requires Wf(net, open) && Attachable(net, kind, parent, memory)
    requires !kind.NccPartner? && (kind.Ncc? ==> kind.partner == net.root)
    ensures var after := AddNode(net, kind, parent, memory);
      && Extends(net, after) && GrownBy(net, after, kind, parent, memory)
      && Wf(after, if kind.Ncc? then open + {net.next} else open)
  {
    AddNodeShape(net, kind, parent, memory);
    AddNodeTree(net, kind, parent, memory);
    AddNodeChildren(net, kind, parent, memory);
    AddNodeMemories(net, kind, parent, memory);
    AddNodePairs(net, kind, parent, memory, open);
  }

  /** More room in the memory tables and other subscriber lists change nothing about the shape. */
  ghost predicate SameNodes(a: Net, b: Net) {
    a.nodes == b.nodes && a.root == b.root && a.next == b.next
  }

  lemma SameNodesWf(a: Net, b: Net, open: set<NodeId>)
    requires Wf(a, open) && SameNodes(a, b) && MemoriesOk(b)
    ensures Wf(b, open)
  {
    forall n | n in b.nodes ensures n < b.next && (b.nodes[n].kind.Root? <==> n == b.root)
                                 && (n != b.root ==> HasOlderParent(b.nodes, n)) {
      assert n in a.nodes;
    }
  }

  lemma RoomierMemories(a: Net, b: Net)
    requires MemoriesOk(a) && a.nodes == b.nodes
    requires |a.memories| <= |b.memories| && |a.negMemories| <= |b.negMemories|
    requires |a.nccMemories| <= |b.nccMemories| && |a.existsMemories| <= |b.existsMemories|
    requires IdsAreIndices(b.memories) && IdsAreIndices(b.negMemories)
    requires IdsAreIndices(b.nccMemories) && IdsAreIndices(b.existsMemories)
    ensures MemoriesOk(b)
  {
    forall n | n in b.nodes ensures OwnsMemories(b, b.nodes[n]) { assert OwnsMemories(a, a.nodes[n]); }
  }

  lemma AddJoinWf(net: Net, open: set<NodeId>, parent: NodeId, alpha: AlphaMemoryId, tests: seq<JoinTest>,
                  bindings: seq<(SlotIndex, VarId)>, sequence: Option<SequencePlan>)
    requires Wf(net, open) && parent in net.nodes && net.nodes[parent].Inner()
    ensures var after := AddJoin(net, parent, alpha, tests, bindings, sequence);
      && Wf(after, open) && Extends(net, after)
      && GrownBy(net, after, Join(alpha, tests, sequence, bindings), parent, |net.memories|)
  {
    var roomy := PushMemory(net);
    RoomierMemories(net, roomy);
    SameNodesWf(net, roomy, open);
    var kind := Join(alpha, tests, sequence, bindings);
    AddNodeWf(roomy, kind, parent, |net.memories|, open);
    var after := AddJoin(net, parent, alpha, tests, bindings, sequence);
    RoomierMemories(AddNode(roomy, kind, parent, |net.memories|), after);
    SameNodesWf(AddNode(roomy, kind, parent, |net.memories|), after, open);
  }

  lemma AddPredicateWf(net: Net, open: set<NodeId>, parent: NodeId, rule: RuleId, index: nat)
    requires Wf(net, open) && parent in net.nodes && net.nodes[parent].Inner()
    ensures var after := AddPredicate(net, parent, rule, index);
      && Wf(after, open) && Extends(net, after)
      && GrownBy(net, after, Predicate(rule, index), parent, |net.memories|)
  {
    var roomy := PushMemory(net);
    RoomierMemories(net, roomy);
    SameNodesWf(net, roomy, open);
    AddNodeWf(roomy, Predicate(rule, index), parent, |net.memories|, open);
  }

  lemma AddTerminalWf(net: Net, open: set<NodeId>, parent: NodeId, rule: RuleId, salience: int, complexity: nat)
    requires Wf(net, open) && parent in net.nodes && net.nodes[parent].Inner()
    ensures var after := AddTerminal(net, parent, rule, salience, complexity);
      && Wf(after, open) && Extends(net, after)
      && GrownBy(net, after, Terminal(rule, salience, complexity % 0x800), parent, 0)
  {
    AddNodeWf(net, Terminal(rule, salience, complexity % 0x800), parent, 0, open);
  }

  lemma AddNegativeWf(net: Net, open: set<NodeId>, parent: NodeId, alpha: AlphaMemoryId, tests: seq<JoinTest>,
                      sequence: Option<SequencePlan>)
    requires Wf(net, open) && parent in net.nodes && net.nodes[parent].Inner()
    ensures var after := AddNegative(net, parent, alpha, tests, sequence);
      && Wf(after, open) && Extends(net, after)
      && GrownBy(net, after, Negative(alpha, tests, sequence, |net.negMemories|), parent, |net.memories|)
  {
    var roomy := PushMemory(net).(negMemories := net.negMemories + [Memory(|net.negMemories|, map[])]);
    RoomierMemories(net, roomy);
    SameNodesWf(net, roomy, open);
    var kind := Negative(alpha, tests, sequence, |net.negMemories|);
    AddNodeWf(roomy, kind, parent, |net.memories|, open);
    var after := AddNegative(net, parent, alpha, tests, sequence);
    RoomierMemories(AddNode(roomy, kind, parent, |net.memories|), after);
    SameNodesWf(AddNode(roomy, kind, parent, |net.memories|), after, open);
  }

  lemma AddExistsWf(net: Net, open: set<NodeId>, parent: NodeId, alpha: AlphaMemoryId, tests: seq<JoinTest>,
                    sequence: Option<SequencePlan>)
    requires Wf(net, open) && parent in net.nodes && net.nodes[parent].Inner()
    ensures var after := AddExists(net, parent, alpha, tests, sequence);
      && Wf(after, open) && Extends(net, after)
      && GrownBy(net, after, Exists(alpha, tests, sequence, |net.existsMemories|), parent, |net.memories|)
  {
    var roomy := PushMemory(net).(existsMemories := net.existsMemories + [Memory(|net.existsMemories|, map[])]);
    RoomierMemories(net, roomy);
    SameNodesWf(net, roomy, open);
    var kind := Exists(alpha, tests, sequence, |net.existsMemories|);
    AddNodeWf(roomy, kind, parent, |net.memories|, open);
    var after := AddExists(net, parent, alpha, tests, sequence);
    RoomierMemories(AddNode(roomy, kind, parent, |net.memories|), after);
    SameNodesWf(AddNode(roomy, kind, parent, |net.memories|), after, open);
  }

  /** Opening an NCC: its memory and its node, with the root as placeholder partner. */
  function OpenNcc(net: Net, parent: NodeId): Net {
    AddNcc(AllocateNccMemory(net), parent, net.root, |net.nccMemories|)
  }

  lemma OpenNccWf(net: Net, open: set<NodeId>, parent: NodeId)
    requires Wf(net, open) && parent in net.nodes && net.nodes[parent].Inner()
    ensures var after := OpenNcc(net, parent);
      && Wf(after, open + {net.next}) && Extends(net, after)
      && GrownBy(net, after, Ncc(net.root, |net.nccMemories|), parent, |net.memories|)
  {
    var roomy := PushMemory(EnableRanks(AllocateNccMemory(net), parent));
    RoomierMemories(net, roomy);
    SameNodesWf(net, roomy, open);
    AddNodeWf(roomy, Ncc(net.root, |net.nccMemories|), parent, |net.memories|, open);
  }

  /** Closing an NCC: the partner at the bottom of its subnetwork, then the back pointer. */
  function CloseNcc(net: Net, ncc: NodeId, bottom: NodeId, nccMemory: nat): Net {
    SetNccPartner(AddNccPartner(net, bottom, ncc, nccMemory), ncc, net.next)
  }

  /** `b` is `a` with one new partner under `bottom` and `ncc` pointing at it. */
  ghost predicate ClosedBy(a: Net, b: Net, ncc: NodeId, bottom: NodeId)
    requires ncc in a.nodes && a.nodes[ncc].kind.Ncc?
  {
    && GrownBy(a, b, NccPartner(ncc, a.nodes[ncc].kind.nccMemory), bottom, 0)
    && b.root == a.root
    && b.nodes[ncc].Core() == a.nodes[ncc].Core().(kind := Ncc(a.next, a.nodes[ncc].kind.nccMemory))
    && (forall n :: n in a.nodes && n != ncc ==> b.nodes[n].Core() == a.nodes[n].Core())
  }

  lemma CloseNccWf(net: Net, open: set<NodeId>, ncc: NodeId, bottom: NodeId)
    requires Wf(net, open) && ncc in open && bottom in net.nodes && net.nodes[bottom].Inner()
    ensures net.nodes[ncc].kind.Ncc?
    ensures var after := CloseNcc(net, ncc, bottom, net.nodes[ncc].kind.nccMemory);
      Wf(after, open - {ncc}) && ClosedBy(net, after, ncc, bottom)
  {
    var kind := NccPartner(ncc, net.nodes[ncc].kind.nccMemory);
    ClosedShape(net, ncc, bottom);
    AddNodeTree(net, kind, bottom, 0);
    AddNodeChildren(net, kind, bottom, 0);
    assert MemoriesOk(AddNode(net, kind, bottom, 0)) by {
      assert OwnsMemories(net, net.nodes[ncc]);
      AddNodeMemories(net, kind, bottom, 0);
    }
    RepointWf(AddNode(net, kind, bottom, 0), ncc, net.next);
    ClosedPairs(net, CloseNcc(net, ncc, bottom, kind.nccMemory), open, ncc, bottom);
  }

  lemma ClosedShape(net: Net, ncc: NodeId, bottom: NodeId)
    requires TreeOk(net) && ncc in net.nodes && net.nodes[ncc].kind.Ncc?
    requires bottom in net.nodes && net.nodes[bottom].Inner()
    ensures ClosedBy(net, CloseNcc(net, ncc, bottom, net.nodes[ncc].kind.nccMemory), ncc, bottom)
    ensures var grown := AddNode(net, NccPartner(ncc, net.nodes[ncc].kind.nccMemory), bottom, 0);
      ncc in grown.nodes && grown.nodes[ncc].kind.Ncc?
  {
    AddNodeShape(net, NccPartner(ncc, net.nodes[ncc].kind.nccMemory), bottom, 0);
  }

  lemma RepointWf(grown: Net, ncc: NodeId, partner: NodeId)
    requires TreeOk(grown) && ChildrenOk(grown) && MemoriesOk(grown)
    requires ncc in grown.nodes && grown.nodes[ncc].kind.Ncc?
    ensures var after := SetNccPartner(grown, ncc, partner);
      TreeOk(after) && ChildrenOk(after) && MemoriesOk(after)
  {
    var after := SetNccPartner(grown, ncc, partner);
    RepointLinks(grown, ncc, partner);
    SameLinksTree(grown, after);
    SameLinksChildren(grown, after);
    RepointMemories(grown, ncc, partner);
  }

  lemma RepointLinks(grown: Net, ncc: NodeId, partner: NodeId)
    ensures SameLinks(grown, SetNccPartner(grown, ncc, partner))
  {
  }

  lemma RepointMemories(grown: Net, ncc: NodeId, partner: NodeId)
    requires MemoriesOk(grown)
    ensures MemoriesOk(SetNccPartner(grown, ncc, partner))
  {
    var after := SetNccPartner(grown, ncc, partner);
    forall n | n in after.nodes ensures OwnsMemories(after, after.nodes[n]) {
      assert OwnsMemories(grown, grown.nodes[n]);
    }
  }

  lemma ClosedPairs(net: Net, after: Net, open: set<NodeId>, ncc: NodeId, bottom: NodeId)
    requires TreeOk(net) && PairsOk(net, open) && ncc in open && ClosedBy(net, after, ncc, bottom)
    ensures PairsOk(after, open - {ncc})
  {
    forall n | n in after.nodes && after.nodes[n].kind.Ncc? && n !in open - {ncc} ensures Paired(after.nodes, n) {
      if n != ncc { assert Paired(net.nodes, n) && after.nodes[n].Core() == net.nodes[n].Core(); }
    }
    forall p | p in after.nodes && after.nodes[p].kind.NccPartner? ensures PartnerOf(after.nodes, p) {
      if p != net.next { assert PartnerOf(net.nodes, p) && after.nodes[p].Core() == net.nodes[p].Core(); }
    }
    forall n | n in open - {ncc} ensures n in after.nodes && after.nodes[n].kind.Ncc? && after.nodes[n].kind.partner == after.root {
      assert after.nodes[n].Core() == net.nodes[n].Core();
    }
  }

  /** The same ids with the same parents and the same children up to order. */
  ghost predicate SameLinks(a: Net, b: Net) {
    && a.root == b.root && a.next == b.next && a.nodes.Keys == b.nodes.Keys
    && forall n :: n in a.nodes ==> SameNodeLinks(a.nodes[n], b.nodes[n])
  }

  ghost predicate SameNodeLinks(a: BetaNode, b: BetaNode) {
    && a.parent == b.parent && (a.kind.Root? <==> b.kind.Root?) && (a.Inner() <==> b.Inner())
    && (forall c :: c in a.children <==> c in b.children)
    && (NoDuplicates(a.children) ==> NoDuplicates(b.children))
  }

  lemma SameLinksTree(a: Net, b: Net)
    requires TreeOk(a) && SameLinks(a, b)
    ensures TreeOk(b)
  {
    assert SameNodeLinks(a.nodes[a.root], b.nodes[a.root]);
    forall n | n in b.nodes ensures n < b.next && (b.nodes[n].kind.Root? <==> n == b.root)
                                 && (n != b.root ==> HasOlderParent(b.nodes, n)) {
      assert SameNodeLinks(a.nodes[n], b.nodes[n]);
      if n != b.root {
        assert HasOlderParent(a.nodes, n);
        assert SameNodeLinks(a.nodes[a.nodes[n].parent], b.nodes[a.nodes[n].parent]);
      }
    }
  }

  lemma SameLinksChildren(a: Net, b: Net)
    requires ChildrenOk(a) && SameLinks(a, b)
    ensures ChildrenOk(b)
  {
    forall p | p in b.nodes && b.nodes[p].Inner() ensures NoDuplicates(b.nodes[p].children) {
      assert SameNodeLinks(a.nodes[p], b.nodes[p]);
    }
    forall p, c | p in b.nodes && b.nodes[p].Inner() && c in b.nodes[p].children ensures IsChild(b.nodes, p, c) {
      assert SameNodeLinks(a.nodes[p], b.nodes[p]);
      assert c in a.nodes[p].children && IsChild(a.nodes, p, c);
      assert SameNodeLinks(a.nodes[c], b.nodes[c]);
    }
    forall c | c in b.nodes && !b.nodes[c].kind.Root? ensures Listed(b.nodes, c) {
      assert SameNodeLinks(a.nodes[c], b.nodes[c]);
      assert Listed(a.nodes, c);
      var p := b.nodes[c].parent;
      if p in b.nodes { assert SameNodeLinks(a.nodes[p], b.nodes[p]); }
    }
  }
}
