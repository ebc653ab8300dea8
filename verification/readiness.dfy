/** What nodes expect of their parent's memory: an index for every variable they select by, and ranks below an NCC. */
module Readiness {
  import opened Syntax
  import opened Compaction
  import opened Network
  import opened WellFormed
  import opened Relink
  import opened Compile
  import opened Removal
  import opened RemovalMeaning

  function ContentsOf(net: Net, n: NodeId): BetaContents {
    if n in net.nodes && net.nodes[n].memory < |net.memories| then net.memories[net.nodes[n].memory].contents else NO_CONTENTS
  }

  predicate Indexes(c: BetaContents, wanted: seq<(SlotIndex, VarId)>) {
    forall k :: 0 <= k < |wanted| ==> wanted[k].1 in c.indexedVars
  }

  /** What a node of this kind expects of its parent's memory. */
  predicate Served(kind: Kind, c: BetaContents, underRoot: bool) {
    && (kind.Join? || kind.Negative? || kind.Exists? ==> underRoot || Indexes(c, IndexableTests(kind.tests, kind.sequence)))
    && (kind.Ncc? ==> c.ranked)
  }

  predicate NodeReady(net: Net, n: NodeId)
    requires n in net.nodes
  {
    net.nodes[n].kind.Root? || Served(net.nodes[n].kind, ContentsOf(net, net.nodes[n].parent), net.nodes[n].parent == net.root)
  }

  /** Every equality selector below a non-root node is indexed in that node's memory, and every NCC's parent ranks. */
  ghost predicate Ready(net: Net) {
    forall n :: n in net.nodes ==> NodeReady(net, n)
  }

  /** Configurations only grow. */
  ghost predicate Grown(a: Net, b: Net) {
    a.root == b.root && forall n :: n in a.nodes && a.nodes[n].Inner() ==> Covers(ContentsOf(b, n), ContentsOf(a, n))
  }

  predicate Covers(b: BetaContents, a: BetaContents) {
    (forall v :: v in a.indexedVars ==> v in b.indexedVars) && (a.ranked ==> b.ranked)
  }

  lemma {:induction false} WithVarsIndexes(c: BetaContents, wanted: seq<(SlotIndex, VarId)>)
    ensures Covers(WithVars(c, wanted), c) && Indexes(WithVars(c, wanted), wanted)
    decreases wanted
  {
    if wanted != [] {
      var v := wanted[0].1;
      WithVarsIndexes(if v in c.indexedVars then c else c.(indexedVars := c.indexedVars + [v]), wanted[1..]);
      assert forall k :: 1 <= k < |wanted| ==> wanted[k] == wanted[1..][k - 1];
    }
  }

  lemma RequestVarsReady(net: Net, parent: NodeId, wanted: seq<(SlotIndex, VarId)>)
    requires MemoriesOk(net) && TreeOk(net) && Ready(net) && parent in net.nodes && net.nodes[parent].Inner()
    ensures var after := RequestVars(net, parent, wanted);
      Ready(after) && (parent == net.root || Indexes(ContentsOf(after, parent), wanted))
  {
    assert OwnsMemories(net, net.nodes[parent]);
    var after := RequestVars(net, parent, wanted);
    WithVarsIndexes(ContentsOf(net, parent), wanted);
    assert Grown(net, after);
    StaysReady(net, after);
  }

  lemma EnableRanksReady(net: Net, parent: NodeId)
    requires MemoriesOk(net) && TreeOk(net) && Ready(net) && parent in net.nodes && net.nodes[parent].Inner()
    ensures var after := EnableRanks(net, parent); Ready(after) && ContentsOf(after, parent).ranked
  {
    assert OwnsMemories(net, net.nodes[parent]);
    StaysReady(net, EnableRanks(net, parent));
  }

  /** With the same nodes and grown configurations everything stays ready. */
  lemma StaysReady(a: Net, b: Net)
    requires Ready(a) && TreeOk(a) && a.nodes == b.nodes && Grown(a, b)
    ensures Ready(b)
  {
    forall n | n in b.nodes ensures NodeReady(b, n) {
      assert NodeReady(a, n);
      if n != a.root { assert HasOlderParent(a.nodes, n); }
    }
  }

  /** One more node, whose parent is configured for it. */
  lemma AddedReady(a: Net, b: Net, kind: Kind, parent: NodeId, memory: nat)
    requires Ready(a) && MemoriesOk(a) && TreeOk(a) && Extends(a, b) && GrownBy(a, b, kind, parent, memory) && !kind.Root?
    requires a.memories <= b.memories && parent in a.nodes && a.nodes[parent].Inner()
    requires Served(kind, ContentsOf(a, parent), parent == a.root)
    ensures Ready(b)
  {
    forall n | n in b.nodes ensures NodeReady(b, n) {
      if n == a.next {
        SameContentsOf(a, b, parent);
      } else {
        assert NodeReady(a, n) && b.nodes[n].Core() == a.nodes[n].Core();
        if n != a.root {
          assert HasOlderParent(a.nodes, n);
          SameContentsOf(a, b, a.nodes[n].parent);
        }
      }
    }
  }

  lemma SameContentsOf(a: Net, b: Net, p: NodeId)
    requires MemoriesOk(a) && p in a.nodes && a.nodes[p].Inner() && a.memories <= b.memories
    requires p in b.nodes && b.nodes[p].Core() == a.nodes[p].Core()
    ensures ContentsOf(b, p) == ContentsOf(a, p)
  {
    assert OwnsMemories(a, a.nodes[p]);
    assert b.nodes[p].Core().memory == a.nodes[p].Core().memory;
  }

  /** Closing and relinking an NCC adds a partner and touches no expectation. */
  lemma ClosedReady(a: Net, closed: Net, finished: Net, ncc: NodeId, bottom: NodeId)
    requires Ready(a) && MemoriesOk(a) && TreeOk(a) && ncc in a.nodes && a.nodes[ncc].kind.Ncc?
    requires ClosedBy(a, closed, ncc, bottom) && Rearranged(closed, finished) && finished.memories == a.memories && finished.root == a.root
    requires bottom in a.nodes && a.nodes[bottom].Inner() && a.next !in a.nodes
    ensures Ready(finished)
  {
    PartnerReady(a, closed, finished, ncc, bottom);
    hide Rearranged, ClosedBy, NodeReady, TreeOk, MemoriesOk;
    forall n | n in finished.nodes ensures NodeReady(finished, n) {
      if n != a.next { FinishedNodeReady(a, closed, finished, ncc, bottom, n); }
    }
  }

  lemma PartnerReady(a: Net, closed: Net, finished: Net, ncc: NodeId, bottom: NodeId)
    requires ncc in a.nodes && a.nodes[ncc].kind.Ncc? && ClosedBy(a, closed, ncc, bottom) && Rearranged(closed, finished)
    ensures a.next in finished.nodes && NodeReady(finished, a.next)
    ensures forall n :: n in finished.nodes ==> n == a.next || n in a.nodes
  {
    assert finished.nodes[a.next].Core() == closed.nodes[a.next].Core();
  }

  lemma FinishedNodeReady(a: Net, closed: Net, finished: Net, ncc: NodeId, bottom: NodeId, n: NodeId)
    requires Ready(a) && TreeOk(a) && ncc in a.nodes && a.nodes[ncc].kind.Ncc? && n in a.nodes && n != a.next
    requires ClosedBy(a, closed, ncc, bottom) && Rearranged(closed, finished) && finished.memories == a.memories && finished.root == a.root
    ensures n in finished.nodes && NodeReady(finished, n)
  {
    assert NodeReady(a, n) && (n != a.root ==> HasOlderParent(a.nodes, n)) && (n == a.root ==> a.nodes[n].kind.Root?);
    assert n in finished.nodes && finished.nodes[n].Core() == closed.nodes[n].Core();
    assert closed.nodes[n].Core() == if n == ncc then a.nodes[n].Core().(kind := Ncc(a.next, a.nodes[n].kind.nccMemory)) else a.nodes[n].Core();
    hide Ready, TreeOk;
    if n != a.root {
      FinishedContents(a, closed, finished, ncc, bottom, a.nodes[n].parent);
      hide ClosedBy, Rearranged, ContentsOf;
    }
  }

  lemma FinishedContents(a: Net, closed: Net, finished: Net, ncc: NodeId, bottom: NodeId, p: NodeId)
    requires ncc in a.nodes && a.nodes[ncc].kind.Ncc? && ClosedBy(a, closed, ncc, bottom) && Rearranged(closed, finished)
    requires finished.memories == a.memories && p in a.nodes && p != a.next
    ensures ContentsOf(finished, p) == ContentsOf(a, p)
  {
    assert finished.nodes[p].Core() == closed.nodes[p].Core();
    assert finished.nodes[p].memory == finished.nodes[p].Core().memory && closed.nodes[p].memory == closed.nodes[p].Core().memory;
    assert a.nodes[p].memory == a.nodes[p].Core().memory;
  }

  // ----- over compilation -----

  lemma PatternReady(e: Engine, open: set<NodeId>, cx: Context, parent: NodeId, p: Pattern, bound: set<Symbol>, up: Term)
    requires Registered(p, cx.ids) && Built(e, e, open, parent, up) && Ready(e.beta)
    ensures Ready(CompilePattern(e, cx, parent, p, bound).0.beta)
  {
    var (ea, alpha) := ReadyPattern(e, cx, parent, p, bound);
    var tests := JoinTests(p, cx.ids, bound);
    ReadyPatternOk(e, open, cx, parent, p, bound);
    RequestVarsReady(e.beta, parent, IndexableTests(tests, p.sequence));
    assert ea.beta == RequestVars(e.beta, parent, IndexableTests(tests, p.sequence));
    ReaderReady(ea, open, parent, alpha, tests, p.sequence, Extractions(p.variableSlots, cx.ids, bound));
  }

  lemma ReaderReady(e: Engine, open: set<NodeId>, parent: NodeId, alpha: AlphaMemoryId, tests: seq<JoinTest>, sequence: Option<SequencePlan>,
                    bindings: seq<(SlotIndex, VarId)>)
    requires EngineWf(e, open) && Ready(e.beta) && alpha < |e.paths| && parent in e.beta.nodes && e.beta.nodes[parent].Inner()
    requires parent == e.beta.root || Indexes(ContentsOf(e.beta, parent), IndexableTests(tests, sequence))
    ensures Ready(AddNegative(e.beta, parent, alpha, tests, sequence)) && Ready(AddExists(e.beta, parent, alpha, tests, sequence))
    ensures Ready(EnsureJoin(e, JoinKey(parent, alpha, tests, bindings, sequence)).0.beta)
  {
    var net := e.beta;
    AddNegativeWf(net, open, parent, alpha, tests, sequence);
    AddExistsWf(net, open, parent, alpha, tests, sequence);
    AddJoinWf(net, open, parent, alpha, tests, bindings, sequence);
    hide Wf, Ready, Extends, GrownBy, AlphaIdsOk, AlphaCacheOk, JoinCacheOk;
    WfParts(net, open);
    AddedReady(net, AddNegative(net, parent, alpha, tests, sequence), Negative(alpha, tests, sequence, |net.negMemories|), parent, |net.memories|);
    AddedReady(net, AddExists(net, parent, alpha, tests, sequence), Exists(alpha, tests, sequence, |net.existsMemories|), parent, |net.memories|);
    AddedReady(net, AddJoin(net, parent, alpha, tests, bindings, sequence), Join(alpha, tests, sequence, bindings), parent, |net.memories|);
  }

  lemma WfParts(net: Net, open: set<NodeId>)
    requires Wf(net, open)
    ensures TreeOk(net) && MemoriesOk(net) && net.next !in net.nodes
  {
  }

  lemma {:induction false} OneReady(e: Engine, open: set<NodeId>, cx: Context, parent: NodeId, c: Condition, bound: set<Symbol>,
                                    nested: bool, up: Term)
    requires RegisteredIn(c, cx.ids) && Built(e, e, open, parent, up) && Ready(e.beta)
    ensures Ready(CompileOne(e, cx, parent, c, bound, nested).0.beta)
    decreases c
  {
    match c
    case PatternCE(p) => PatternReady(e, open, cx, parent, p, bound, up);
    case PredicateCE(index) =>
      AddPredicateWf(e.beta, open, parent, cx.rule, index);
      AddedReady(e.beta, AddPredicate(e.beta, parent, cx.rule, index), Predicate(cx.rule, index), parent, |e.beta.memories|);
    case NccCE(subs) =>
      var begun := e.(beta := OpenNcc(e.beta, parent));
      OpenedReady(e, open, parent, up);
      OpenedOk(e, open, parent, up);
      SeqReady(begun, open + {e.beta.next}, cx, parent, subs, bound, true, up);
      CompileSeqOk(begun, open + {e.beta.next}, cx, parent, subs, bound, true, up);
      var (e1, bottom) := CompileSeq(begun, cx, parent, subs, bound, true);
      NccClosedReady(e, begun, e1, open, parent, bottom, nested, TermOf(cx, subs, up, bound));
  }

  lemma OpenedReady(e: Engine, open: set<NodeId>, parent: NodeId, up: Term)
    requires Built(e, e, open, parent, up) && Ready(e.beta)
    ensures Ready(OpenNcc(e.beta, parent))
  {
    var roomy := AllocateNccMemory(e.beta);
    RoomierMemories(e.beta, roomy);
    SameNodesWf(e.beta, roomy, open);
    StaysReady(e.beta, roomy);
    EnableRanksReady(roomy, parent);
    var ranked := EnableRanks(roomy, parent);
    RequestVarsReconfigures(roomy, parent, []);
    ReconfiguredWf(roomy, ranked, open);
    AddRankedNcc(ranked, open, parent, |e.beta.nccMemories|);
  }

  lemma AddRankedNcc(net: Net, open: set<NodeId>, parent: NodeId, nccMemory: nat)
    requires Wf(net, open) && Ready(net) && parent in net.nodes && net.nodes[parent].Inner() && ContentsOf(net, parent).ranked
    requires nccMemory < |net.nccMemories|
    ensures Ready(AddNode(PushMemory(net), Ncc(net.root, nccMemory), parent, |net.memories|))
  {
    var roomy := PushMemory(net);
    RoomierMemories(net, roomy);
    SameNodesWf(net, roomy, open);
    AddNodeWf(roomy, Ncc(net.root, nccMemory), parent, |net.memories|, open);
    AddedReady(net, AddNode(roomy, Ncc(net.root, nccMemory), parent, |net.memories|), Ncc(net.root, nccMemory), parent, |net.memories|);
  }

  lemma NccClosedReady(e: Engine, begun: Engine, e1: Engine, open: set<NodeId>, parent: NodeId, bottom: NodeId, nested: bool, sub: Term)
    requires e.beta.next !in open && e.beta.next in begun.beta.nodes && begun.beta.root == e.beta.root
    requires begun.beta.nodes[e.beta.next] == BetaNode(Ncc(e.beta.root, |e.beta.nccMemories|), parent, |e.beta.memories|, [])
    requires Built(begun, e1, open + {e.beta.next}, bottom, sub) && Ready(e1.beta)
    ensures Ready(FinishNcc(CloseNcc(e1.beta, e.beta.next, bottom, |e.beta.nccMemories|), e.beta.next, nested))
  {
    ClosedStages(e, begun, e1, open, parent, bottom, nested, sub);
    var closed := CloseNcc(e1.beta, e.beta.next, bottom, |e.beta.nccMemories|);
    FinishKeepsMemories(e1.beta, e.beta.next, bottom, |e.beta.nccMemories|, nested);
    ClosedReady(e1.beta, closed, FinishNcc(closed, e.beta.next, nested), e.beta.next, bottom);
  }

  lemma FinishKeepsMemories(net: Net, ncc: NodeId, bottom: NodeId, memory: nat, nested: bool)
    ensures var after := FinishNcc(CloseNcc(net, ncc, bottom, memory), ncc, nested); after.memories == net.memories && after.root == net.root
  {
  }

  lemma {:induction false} SeqReady(e: Engine, open: set<NodeId>, cx: Context, parent: NodeId, conditions: seq<Condition>, bound: set<Symbol>,
                                    nested: bool, up: Term)
    requires AllRegistered(conditions, cx.ids) && Built(e, e, open, parent, up) && Ready(e.beta)
    ensures Ready(CompileSeq(e, cx, parent, conditions, bound, nested).0.beta)
    decreases conditions
  {
    if conditions != [] {
      var (e1, n) := CompileOne(e, cx, parent, conditions[0], bound, nested);
      OneReady(e, open, cx, parent, conditions[0], bound, nested, up);
      CompileOneOk(e, open, cx, parent, conditions[0], bound, nested, up);
      SeqReady(e1, open, cx, n, conditions[1..], BoundBy(conditions[0], bound), nested, TermOfOne(cx, conditions[0], up, bound));
    }
  }

  /** Installing a rule leaves every parent configured for every child. */
  lemma CompilationKeepsReady(e: Engine, cx: Context, conditions: seq<Condition>, salience: int, complexity: nat)
    requires AllRegistered(conditions, cx.ids) && EngineWf(e, {}) && Ready(e.beta)
    ensures Ready(CompileRule(e, cx, conditions, salience, complexity).0.beta)
  {
    CompileSeqOk(e, {}, cx, e.beta.root, conditions, {}, false, Start);
    SeqReady(e, {}, cx, e.beta.root, conditions, {}, false, Start);
    var (e1, n) := CompileSeq(e, cx, e.beta.root, conditions, {}, false);
    AddTerminalWf(e1.beta, {}, n, cx.rule, salience, complexity);
    AddedReady(e1.beta, AddTerminal(e1.beta, n, cx.rule, salience, complexity), Terminal(cx.rule, salience, complexity % 0x800), n, 0);
  }

  /** So does removal, which moves memories without changing their configuration. */
  lemma RemovalKeepsReady(e: Engine, removed: set<RuleId>, s: set<NodeId>, f: Engine)
    requires EngineWf(e, {}) && IsRetained(e.beta, removed, s) && RemovedTo(e, s, f) && Ready(e.beta)
    ensures Ready(f.beta)
  {
    RemovedSurvives(e, removed, s, f);
    hide RemovedTo;
    forall n | n in f.beta.nodes ensures NodeReady(f.beta, n) {
      assert SameNode(e, f, s, n) && NodeReady(e.beta, n) && NeedsIn(e.beta.nodes, n, s);
      if n != e.beta.root { assert HasOlderParent(e.beta.nodes, n); }
      SurvivorReady(e, s, f, n);
    }
  }

  lemma SurvivorReady(e: Engine, s: set<NodeId>, f: Engine, n: NodeId)
    requires Survived(e, s, f) && n in s && NodeReady(e.beta, n) && NeedsIn(e.beta.nodes, n, s)
    requires !e.beta.nodes[n].kind.Root? ==> HasOlderParent(e.beta.nodes, n)
    ensures NodeReady(f.beta, n)
  {
    assert SameNode(e, f, s, n);
    if !e.beta.nodes[n].kind.Root? {
      assert SameNode(e, f, s, e.beta.nodes[n].parent);
      hide Survived;
    }
  }
}
