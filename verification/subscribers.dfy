/** The reverse indices from alpha memories to the nodes reading them, over compilation and removal. */
module Subscriptions {
  import opened Syntax
  import opened Sequences
  import opened Network
  import opened WellFormed
  import opened Relink
  import opened Compile
  import opened Removal

  /** Ids are below the counter, and each alpha memory's lists hold exactly its readers, oldest first. */
  ghost predicate Tidy(net: Net) {
    && (forall n :: n in net.nodes ==> n < net.next)
    && ListsReaders(net.joins, net.nodes, JoinRole, net.next)
    && ListsReaders(net.negatives, net.nodes, NegativeRole, net.next)
    && ListsReaders(net.existentials, net.nodes, ExistsRole, net.next)
  }

  /** Nodes below `bound` are the same readers in both graphs. */
  ghost predicate SameReaders(a: map<NodeId, BetaNode>, b: map<NodeId, BetaNode>, bound: NodeId) {
    forall n :: n < bound ==> (n in a <==> n in b) && (n in a ==> SameReader(a[n].kind, b[n].kind))
  }

  predicate SameReader(a: Kind, b: Kind) {
    && a.Join? == b.Join? && a.Negative? == b.Negative? && a.Exists? == b.Exists?
    && (a.Join? ==> a.alpha == b.alpha) && (a.Negative? ==> a.alpha == b.alpha) && (a.Exists? ==> a.alpha == b.alpha)
  }

  lemma ListsCongruent(s: Subscribers, a: map<NodeId, BetaNode>, b: map<NodeId, BetaNode>, role: Role, bound: NodeId)
    requires SameReaders(a, b, bound) && ListsReaders(s, a, role, bound)
    ensures ListsReaders(s, b, role, bound)
  {
    forall alpha ensures ListsAt(s, b, role, bound, alpha) { assert ListsAt(s, a, role, bound, alpha); }
  }

  /** A graph with the same readers and the same lists is as tidy. */
  lemma SameReadersTidy(a: Net, b: Net)
    requires Tidy(a) && a.nodes.Keys == b.nodes.Keys && a.next == b.next && SameReaders(a.nodes, b.nodes, a.next)
    requires b.joins == a.joins && b.negatives == a.negatives && b.existentials == a.existentials
    ensures Tidy(b)
  {
    ListsCongruent(a.joins, a.nodes, b.nodes, JoinRole, a.next);
    ListsCongruent(a.negatives, a.nodes, b.nodes, NegativeRole, a.next);
    ListsCongruent(a.existentials, a.nodes, b.nodes, ExistsRole, a.next);
  }

  lemma AddNodeReaders(net: Net, kind: Kind, parent: NodeId, memory: nat)
    requires forall n :: n in net.nodes ==> n < net.next
    ensures var after := AddNode(net, kind, parent, memory);
      && after.next == net.next + 1 && after.nodes.Keys == net.nodes.Keys + {net.next} && after.nodes[net.next].kind == kind
      && SameReaders(net.nodes, after.nodes, net.next)
  {
  }

  /** Each list grows by the new node exactly when the node plays that role. */
  lemma AddedNodeTidy(net: Net, after: Net, kind: Kind)
    requires Tidy(net) && after.next == net.next + 1 && after.nodes.Keys == net.nodes.Keys + {net.next}
    requires after.nodes[net.next].kind == kind && SameReaders(net.nodes, after.nodes, net.next)
    requires after.joins == if kind.Join? then Subscribe(net.joins, kind.alpha, net.next) else net.joins
    requires after.negatives == if kind.Negative? then Subscribe(net.negatives, kind.alpha, net.next) else net.negatives
    requires after.existentials == if kind.Exists? then Subscribe(net.existentials, kind.alpha, net.next) else net.existentials
    ensures Tidy(after)
  {
    ListsCongruent(net.joins, net.nodes, after.nodes, JoinRole, net.next);
    ListsCongruent(net.negatives, net.nodes, after.nodes, NegativeRole, net.next);
    ListsCongruent(net.existentials, net.nodes, after.nodes, ExistsRole, net.next);
    SubscribeLists(net.joins, after.nodes, JoinRole, net.next);
    SubscribeLists(net.negatives, after.nodes, NegativeRole, net.next);
    SubscribeLists(net.existentials, after.nodes, ExistsRole, net.next);
  }

  lemma JoinTidy(net: Net, key: JoinKey)
    requires Tidy(net)
    ensures Tidy(AddJoin(net, key.parent, key.alpha, key.tests, key.bindings, key.sequence))
  {
    var kind := Join(key.alpha, key.tests, key.sequence, key.bindings);
    AddNodeReaders(PushMemory(net), kind, key.parent, |net.memories|);
    AddedNodeTidy(net, AddJoin(net, key.parent, key.alpha, key.tests, key.bindings, key.sequence), kind);
  }

  lemma NegativeTidy(net: Net, parent: NodeId, alpha: AlphaMemoryId, tests: seq<JoinTest>, sequence: Option<SequencePlan>)
    requires Tidy(net)
    ensures Tidy(AddNegative(net, parent, alpha, tests, sequence))
  {
    var kind := Negative(alpha, tests, sequence, |net.negMemories|);
    AddNodeReaders(PushMemory(net), kind, parent, |net.memories|);
    AddedNodeTidy(net, AddNegative(net, parent, alpha, tests, sequence), kind);
  }

  lemma ExistsTidy(net: Net, parent: NodeId, alpha: AlphaMemoryId, tests: seq<JoinTest>, sequence: Option<SequencePlan>)
    requires Tidy(net)
    ensures Tidy(AddExists(net, parent, alpha, tests, sequence))
  {
    var kind := Exists(alpha, tests, sequence, |net.existsMemories|);
    AddNodeReaders(PushMemory(net), kind, parent, |net.memories|);
    AddedNodeTidy(net, AddExists(net, parent, alpha, tests, sequence), kind);
  }

  lemma PlainTidy(net: Net, roomy: Net, kind: Kind, parent: NodeId, memory: nat)
    requires Tidy(net) && !kind.Join? && !kind.Negative? && !kind.Exists?
    requires roomy.nodes == net.nodes && roomy.next == net.next
    requires roomy.joins == net.joins && roomy.negatives == net.negatives && roomy.existentials == net.existentials
    ensures Tidy(AddNode(roomy, kind, parent, memory))
  {
    AddNodeReaders(roomy, kind, parent, memory);
    AddedNodeTidy(net, AddNode(roomy, kind, parent, memory), kind);
  }

  lemma FinishTidy(net: Net, ncc: NodeId, bottom: NodeId, memory: nat, nested: bool)
    requires Tidy(net)
    ensures Tidy(FinishNcc(CloseNcc(net, ncc, bottom, memory), ncc, nested))
  {
    PlainTidy(net, net, NccPartner(ncc, memory), bottom, 0);
    var grown := AddNccPartner(net, bottom, ncc, memory);
    SameReadersTidy(grown, SetNccPartner(grown, ncc, net.next));
    LinkTidy(SetNccPartner(grown, ncc, net.next), ncc, nested);
  }

  lemma LinkTidy(net: Net, ncc: NodeId, nested: bool)
    requires Tidy(net)
    ensures Tidy(FinishNcc(net, ncc, nested))
  {
    LinkReaders(net, ncc);
    hide Tidy, LinkNcc;
    SameReadersTidy(net, LinkNcc(net, ncc));
    SameReadersTidy(LinkNcc(net, ncc), FinishNcc(net, ncc, nested));
  }

  lemma LinkReaders(net: Net, ncc: NodeId)
    ensures var linked := LinkNcc(net, ncc);
      && linked.nodes.Keys == net.nodes.Keys && linked.next == net.next && SameReaders(net.nodes, linked.nodes, net.next)
      && SameReaders(linked.nodes, linked.nodes, net.next)
      && linked.joins == net.joins && linked.negatives == net.negatives && linked.existentials == net.existentials
  {
  }

  lemma {:induction false} CompileOneTidy(e: Engine, cx: Context, parent: NodeId, c: Condition, bound: set<Symbol>, nested: bool)
    requires RegisteredIn(c, cx.ids) && Tidy(e.beta)
    ensures Tidy(CompileOne(e, cx, parent, c, bound, nested).0.beta)
    decreases c
  {
    match c
    case PatternCE(p) => PatternTidy(e, cx, parent, p, bound);
    case PredicateCE(index) => PlainTidy(e.beta, PushMemory(e.beta), Predicate(cx.rule, index), parent, |e.beta.memories|);
    case NccCE(subs) =>
      PlainTidy(e.beta, PushMemory(EnableRanks(AllocateNccMemory(e.beta), parent)), Ncc(e.beta.root, |e.beta.nccMemories|), parent, |e.beta.memories|);
      var begun := e.(beta := OpenNcc(e.beta, parent));
      CompileSeqTidy(begun, cx, parent, subs, bound, true);
      var (e1, bottom) := CompileSeq(begun, cx, parent, subs, bound, true);
      FinishTidy(e1.beta, e.beta.next, bottom, |e.beta.nccMemories|, nested);
  }

  lemma PatternTidy(e: Engine, cx: Context, parent: NodeId, p: Pattern, bound: set<Symbol>)
    requires Registered(p, cx.ids) && Tidy(e.beta)
    ensures Tidy(CompilePattern(e, cx, parent, p, bound).0.beta)
  {
    var (ea, alpha) := ReadyPattern(e, cx, parent, p, bound);
    var tests := JoinTests(p, cx.ids, bound);
    SameReadersTidy(e.beta, ea.beta);
    hide Tidy, ReadyPattern, AddNegative, AddExists, AddJoin, JoinTests, Extractions;
    NegativeTidy(ea.beta, parent, alpha, tests, p.sequence);
    ExistsTidy(ea.beta, parent, alpha, tests, p.sequence);
    JoinTidy(ea.beta, JoinKey(parent, alpha, tests, Extractions(p.variableSlots, cx.ids, bound), p.sequence));
  }

  lemma {:induction false} CompileSeqTidy(e: Engine, cx: Context, parent: NodeId, conditions: seq<Condition>, bound: set<Symbol>, nested: bool)
    requires AllRegistered(conditions, cx.ids) && Tidy(e.beta)
    ensures Tidy(CompileSeq(e, cx, parent, conditions, bound, nested).0.beta)
    decreases conditions
  {
    if conditions != [] {
      CompileOneTidy(e, cx, parent, conditions[0], bound, nested);
      var (e1, n) := CompileOne(e, cx, parent, conditions[0], bound, nested);
      CompileSeqTidy(e1, cx, n, conditions[1..], BoundBy(conditions[0], bound), nested);
    }
  }

  /** Installing a rule keeps every subscriber list exact. */
  lemma CompilationKeepsSubscribers(e: Engine, cx: Context, conditions: seq<Condition>, salience: int, complexity: nat)
    requires AllRegistered(conditions, cx.ids) && Tidy(e.beta)
    ensures Tidy(CompileRule(e, cx, conditions, salience, complexity).0.beta)
  {
    CompileSeqTidy(e, cx, e.beta.root, conditions, {}, false);
    var (e1, n) := CompileSeq(e, cx, e.beta.root, conditions, {}, false);
    PlainTidy(e1.beta, e1.beta, Terminal(cx.rule, salience, complexity % 0x800), n, 0);
  }

  /** So does retiring rules, which rebuilds the lists. */
  lemma RemovalKeepsSubscribers(e: Engine, s: set<NodeId>, f: Engine)
    requires MemoriesOk(e.beta) && AlphaIdsOk(e) && AlphaCacheOk(e) && RemovedTo(e, s, f) && Tidy(e.beta)
    ensures Tidy(f.beta)
  {
    AlphasAreKept(e, s);
    SubscribersListReaders(f.beta.nodes, JoinRole, f.beta.next);
    SubscribersListReaders(f.beta.nodes, NegativeRole, f.beta.next);
    SubscribersListReaders(f.beta.nodes, ExistsRole, f.beta.next);
  }
}
