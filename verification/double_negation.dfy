/** Which conjunctions are pure double negations, and where the compiler leaves their NCC. */
module DoubleNegation {
  import opened Syntax
  import opened Sequences
  import opened Network
  import opened WellFormed
  import opened Relink
  import opened Compile
  import opened Waits
  import opened Planning
  import opened Visiting

  /** The result of a condition hangs directly below the parent it was compiled under, and is an NCC exactly
      for a conjunction. */
  ghost predicate CompiledBelow(net: Net, parent: NodeId, c: Condition, n: NodeId) {
    && n in net.nodes && !net.nodes[n].kind.Root? && net.nodes[n].parent == parent && parent < n
    && (net.nodes[n].kind.Ncc? <==> c.NccCE?)
  }

  lemma OneBelow(e: Engine, open: set<NodeId>, cx: Context, parent: NodeId, c: Condition, bound: set<Symbol>, nested: bool, up: Term)
    requires RegisteredIn(c, cx.ids) && Built(e, e, open, parent, up)
    ensures var (e1, n) := CompileOne(e, cx, parent, c, bound, nested); CompiledBelow(e1.beta, parent, c, n)
  {
    match c
    case PatternCE(p) => PatternBelow(e, open, cx, parent, p, bound);
    case PredicateCE(index) => AddPredicateWf(e.beta, open, parent, cx.rule, index);
    case NccCE(subs) => NccBelow(e, open, cx, parent, subs, bound, nested, up);
  }

  lemma PatternBelow(e: Engine, open: set<NodeId>, cx: Context, parent: NodeId, p: Pattern, bound: set<Symbol>)
    requires Registered(p, cx.ids) && EngineWf(e, open) && parent in e.beta.nodes && e.beta.nodes[parent].Inner()
    ensures var (e1, n) := CompilePattern(e, cx, parent, p, bound); CompiledBelow(e1.beta, parent, PatternCE(p), n)
  {
    var (ea, alpha) := ReadyPattern(e, cx, parent, p, bound);
    ReadyPatternOk(e, open, cx, parent, p, bound);
    var tests := JoinTests(p, cx.ids, bound);
    if p.negated {
      AddNegativeWf(ea.beta, open, parent, alpha, tests, p.sequence);
    } else if p.exists_ {
      AddExistsWf(ea.beta, open, parent, alpha, tests, p.sequence);
    } else {
      JoinBelow(ea, open, JoinKey(parent, alpha, tests, Extractions(p.variableSlots, cx.ids, bound), p.sequence));
    }
  }

  lemma JoinBelow(e: Engine, open: set<NodeId>, key: JoinKey)
    requires EngineWf(e, open) && key.alpha < |e.paths| && key.parent in e.beta.nodes && e.beta.nodes[key.parent].Inner()
    ensures var (e1, n) := EnsureJoin(e, key);
      n in e1.beta.nodes && e1.beta.nodes[n].kind.Join? && e1.beta.nodes[n].parent == key.parent && key.parent < n
  {
    EnsureJoinOk(e, open, key);
    var (e1, n) := EnsureJoin(e, key);
    assert HasOlderParent(e1.beta.nodes, n);
  }

  /** The stages of a conjunction, with everything the graph promises on the way. */
  ghost predicate Conjunction(e: Engine, open: set<NodeId>, parent: NodeId, e1: Engine, bottom: NodeId, closed: Net, after: Net) {
    && EngineWf(e1, open + {e.beta.next}) && e.beta.next in e1.beta.nodes && e1.beta.nodes[e.beta.next].kind.Ncc?
    && e1.beta.nodes[e.beta.next].parent == parent && parent < e.beta.next && parent in e1.beta.nodes
    && bottom in e1.beta.nodes && bottom < e1.beta.next
    && Wf(closed, open) && ClosedBy(e1.beta, closed, e.beta.next, bottom) && Rearranged(closed, after) && Wf(after, open)
    && after.nodes == LinkNcc(closed, e.beta.next).nodes
    && closed.next == e1.beta.next + 1 && after.next == closed.next && closed.root == e.beta.root
  }

  lemma NccStaged(e: Engine, open: set<NodeId>, cx: Context, parent: NodeId, subs: seq<Condition>, bound: set<Symbol>, nested: bool, up: Term)
    requires AllRegistered(subs, cx.ids) && Built(e, e, open, parent, up)
    ensures var (e1, bottom) := CompileSeq(e.(beta := OpenNcc(e.beta, parent)), cx, parent, subs, bound, true);
      Conjunction(e, open, parent, e1, bottom, CloseNcc(e1.beta, e.beta.next, bottom, |e.beta.nccMemories|),
                  CompileOne(e, cx, parent, NccCE(subs), bound, nested).0.beta)
  {
    var begun := e.(beta := OpenNcc(e.beta, parent));
    OpenedOk(e, open, parent, up);
    CompileSeqOk(begun, open + {e.beta.next}, cx, parent, subs, bound, true, up);
    var (e1, bottom) := CompileSeq(begun, cx, parent, subs, bound, true);
    NccUnfolds(e, cx, parent, subs, bound, nested);
    StagesHold(e, begun, e1, open, parent, bottom, nested, TermOf(cx, subs, up, bound));
  }

  lemma StagesHold(e: Engine, begun: Engine, e1: Engine, open: set<NodeId>, parent: NodeId, bottom: NodeId, nested: bool, sub: Term)
    requires e.beta.next !in open && e.beta.next in begun.beta.nodes && begun.beta.root == e.beta.root && parent in begun.beta.nodes
    requires begun.beta.nodes[e.beta.next] == BetaNode(Ncc(e.beta.root, |e.beta.nccMemories|), parent, |e.beta.memories|, [])
    requires parent < e.beta.next && Built(begun, e1, open + {e.beta.next}, bottom, sub)
    ensures var closed := CloseNcc(e1.beta, e.beta.next, bottom, |e.beta.nccMemories|);
      Conjunction(e, open, parent, e1, bottom, closed, FinishNcc(closed, e.beta.next, nested))
  {
    var ncc := e.beta.next;
    ClosedStages(e, begun, e1, open, parent, bottom, nested, sub);
    var closed := CloseNcc(e1.beta, ncc, bottom, |e.beta.nccMemories|);
    CloseNccWf(e1.beta, open + {ncc}, ncc, bottom);
    assert open + {ncc} - {ncc} == open;
    FinishKeepsLinks(closed, ncc, nested);
    FinishKeepsCounter(e1.beta, ncc, bottom, |e.beta.nccMemories|, nested);
  }

  lemma FinishKeepsCounter(net: Net, ncc: NodeId, bottom: NodeId, memory: nat, nested: bool)
    ensures var closed := CloseNcc(net, ncc, bottom, memory);
      closed.next == net.next + 1 && closed.root == net.root && FinishNcc(closed, ncc, nested).next == closed.next
  {
  }

  /** The finished NCC and its partner, told by their cores. */
  lemma FinishedPair(e: Engine, open: set<NodeId>, parent: NodeId, e1: Engine, bottom: NodeId, closed: Net, after: Net)
    requires Conjunction(e, open, parent, e1, bottom, closed, after)
    ensures var ncc, partner := e.beta.next, e1.beta.next;
      && ncc in closed.nodes && closed.nodes[ncc].kind.Ncc? && closed.nodes[ncc].kind.partner == partner && closed.nodes[ncc].parent == parent
      && partner in closed.nodes && closed.nodes[partner].kind.NccPartner? && closed.nodes[partner].parent == bottom
      && ncc in after.nodes && after.nodes[ncc].kind == closed.nodes[ncc].kind && after.nodes[ncc].parent == parent
  {
    var ncc, partner := e.beta.next, e1.beta.next;
    assert closed.nodes[ncc].kind == closed.nodes[ncc].Core().kind && closed.nodes[ncc].parent == closed.nodes[ncc].Core().parent;
    assert e1.beta.nodes[ncc].parent == e1.beta.nodes[ncc].Core().parent;
    assert after.nodes[ncc].Core() == closed.nodes[ncc].Core();
    assert after.nodes[ncc].kind == after.nodes[ncc].Core().kind && after.nodes[ncc].parent == after.nodes[ncc].Core().parent;
  }

  lemma NccBelow(e: Engine, open: set<NodeId>, cx: Context, parent: NodeId, subs: seq<Condition>, bound: set<Symbol>, nested: bool, up: Term)
    requires AllRegistered(subs, cx.ids) && Built(e, e, open, parent, up)
    ensures var (e1, n) := CompileOne(e, cx, parent, NccCE(subs), bound, nested); CompiledBelow(e1.beta, parent, NccCE(subs), n)
  {
    var (e1, bottom) := CompileSeq(e.(beta := OpenNcc(e.beta, parent)), cx, parent, subs, bound, true);
    NccStaged(e, open, cx, parent, subs, bound, nested, up);
    FinishedPair(e, open, parent, e1, bottom, CloseNcc(e1.beta, e.beta.next, bottom, |e.beta.nccMemories|),
                 CompileOne(e, cx, parent, NccCE(subs), bound, nested).0.beta);
  }

  /** Where the last condition of a list hangs: directly below `parent` when it is the only one, deeper otherwise. */
  ghost predicate BottomOf(net: Net, parent: NodeId, conditions: seq<Condition>, bottom: NodeId) {
    if conditions == [] then bottom == parent
    else
      && bottom in net.nodes && !net.nodes[bottom].kind.Root? && net.nodes[bottom].parent < bottom
      && (net.nodes[bottom].kind.Ncc? <==> conditions[|conditions| - 1].NccCE?)
      && if |conditions| == 1 then net.nodes[bottom].parent == parent else parent < net.nodes[bottom].parent
  }

  lemma BottomStep(net: Net, parent: NodeId, n: NodeId, conditions: seq<Condition>, bottom: NodeId)
    requires conditions != [] && parent < n && BottomOf(net, n, conditions[1..], bottom)
    requires |conditions| == 1 ==> CompiledBelow(net, parent, conditions[0], n)
    ensures BottomOf(net, parent, conditions, bottom)
  {
  }

  lemma {:induction false} SeqBelow(e: Engine, open: set<NodeId>, cx: Context, parent: NodeId, conditions: seq<Condition>, bound: set<Symbol>,
                                    nested: bool, up: Term)
    requires AllRegistered(conditions, cx.ids) && Built(e, e, open, parent, up)
    ensures var (e1, bottom) := CompileSeq(e, cx, parent, conditions, bound, nested); BottomOf(e1.beta, parent, conditions, bottom)
    decreases |conditions|
  {
    if conditions != [] {
      hide Built, BottomOf, CompileOne;
      var (e1, n) := CompileOne(e, cx, parent, conditions[0], bound, nested);
      var (e2, bottom) := CompileSeq(e1, cx, n, conditions[1..], BoundBy(conditions[0], bound), nested);
      OneBelow(e, open, cx, parent, conditions[0], bound, nested, up);
      CompileOneOk(e, open, cx, parent, conditions[0], bound, nested, up);
      BuiltAgain(e, e1, open, n, TermOfOne(cx, conditions[0], up, bound));
      SeqBelow(e1, open, cx, n, conditions[1..], BoundBy(conditions[0], bound), nested, TermOfOne(cx, conditions[0], up, bound));
      BottomStep(e2.beta, parent, n, conditions, bottom);
    }
  }

  // ----- which conjunctions are pure -----

  predicate SingleConjunction(subs: seq<Condition>) { |subs| == 1 && subs[0].NccCE? }

  /** The bottom of a closed subnetwork, seen from the partner below it. */
  ghost predicate BottomSeen(closed: Net, parent: NodeId, subs: seq<Condition>, bottom: NodeId, ncc: NodeId, partner: NodeId) {
    && ncc in closed.nodes && closed.nodes[ncc].kind.Ncc? && closed.nodes[ncc].kind.partner == partner && closed.nodes[ncc].parent == parent
    && partner in closed.nodes && closed.nodes[partner].kind.NccPartner? && closed.nodes[partner].parent == bottom && bottom < partner
    && BottomOf(closed, parent, subs, bottom)
  }

  /** What the shape of the subnetwork says about the closed NCC. */
  lemma SeenIsPure(closed: Net, parent: NodeId, subs: seq<Condition>, bottom: NodeId, ncc: NodeId, partner: NodeId)
    requires BottomSeen(closed, parent, subs, bottom, ncc, partner)
    ensures PureDoubleNegation(closed, ncc) <==> SingleConjunction(subs)
  {
    if subs == [] {
      assert EntryBelow(closed.nodes, partner, parent) == Some(partner);
    } else if |subs| == 1 {
      assert EntryBelow(closed.nodes, bottom, parent) == Some(bottom);
      assert EntryBelow(closed.nodes, partner, parent) == Some(bottom);
    } else {
      EntryHangsBelow(closed.nodes, partner, parent);
    }
  }

  lemma ClosedIsPure(e: Engine, open: set<NodeId>, parent: NodeId, subs: seq<Condition>, e1: Engine, bottom: NodeId, closed: Net, after: Net)
    requires Conjunction(e, open, parent, e1, bottom, closed, after) && BottomOf(e1.beta, parent, subs, bottom)
    ensures PureDoubleNegation(closed, e.beta.next) <==> SingleConjunction(subs)
  {
    FinishedPair(e, open, parent, e1, bottom, closed, after);
    BottomCore(e, open, parent, e1, bottom, closed, after);
    hide Conjunction, PureDoubleNegation;
    SeenIsPure(closed, parent, subs, bottom, e.beta.next, e1.beta.next);
  }

  /** The bottom of the subnetwork keeps its place when the NCC is closed. */
  lemma BottomCore(e: Engine, open: set<NodeId>, parent: NodeId, e1: Engine, bottom: NodeId, closed: Net, after: Net)
    requires Conjunction(e, open, parent, e1, bottom, closed, after)
    ensures bottom in closed.nodes && closed.nodes[bottom].parent == e1.beta.nodes[bottom].parent
    ensures (closed.nodes[bottom].kind.Ncc? <==> e1.beta.nodes[bottom].kind.Ncc?)
    ensures (closed.nodes[bottom].kind.Root? <==> e1.beta.nodes[bottom].kind.Root?) && bottom < e1.beta.next
  {
    assert closed.nodes[bottom].parent == closed.nodes[bottom].Core().parent && closed.nodes[bottom].kind == closed.nodes[bottom].Core().kind;
    assert e1.beta.nodes[bottom].parent == e1.beta.nodes[bottom].Core().parent;
    assert e1.beta.nodes[bottom].kind == e1.beta.nodes[bottom].Core().kind;
  }

  lemma {:induction false} EntryHangsBelow(nodes: map<NodeId, BetaNode>, n: NodeId, top: NodeId)
    ensures EntryBelow(nodes, n, top).Some? ==>
      EntryBelow(nodes, n, top).value in nodes && nodes[EntryBelow(nodes, n, top).value].parent == top
    decreases n
  {
    if n in nodes && !nodes[n].kind.Root? && nodes[n].parent != top && nodes[n].parent < n { EntryHangsBelow(nodes, nodes[n].parent, top); }
  }

  /** Relinking does not change whether an NCC is a pure double negation. */
  lemma PurityStays(a: Net, b: Net, open: set<NodeId>, ncc: NodeId)
    requires Wf(a, open) && Rearranged(a, b) && ncc in a.nodes && a.nodes[ncc].kind.Ncc? && a.nodes[ncc].kind.partner in a.nodes
    ensures PureDoubleNegation(a, ncc) <==> PureDoubleNegation(b, ncc)
  {
    TreeIsOlder(a);
    forall m | m in a.nodes ensures m in b.nodes && SameRole(a.nodes[m], b.nodes[m]) {
      assert b.nodes[m].Core() == a.nodes[m].Core();
      assert b.nodes[m].kind == b.nodes[m].Core().kind && a.nodes[m].kind == a.nodes[m].Core().kind;
      assert b.nodes[m].parent == b.nodes[m].Core().parent && a.nodes[m].parent == a.nodes[m].Core().parent;
    }
    assert b.nodes[ncc].Core().kind == a.nodes[ncc].Core().kind;
    EntryWaitStable(a, b, ncc, false);
    assert PureDoubleNegation(a, ncc) <==> EntryWait(a, ncc, false).Some?;
    assert PureDoubleNegation(b, ncc) <==> EntryWait(b, ncc, false).Some?;
  }

  /** A compiled conjunction is a pure double negation exactly when its only condition is a conjunction. */
  lemma PureMeansSingleConjunction(e: Engine, open: set<NodeId>, cx: Context, parent: NodeId, subs: seq<Condition>, bound: set<Symbol>,
                                   nested: bool, up: Term)
    requires AllRegistered(subs, cx.ids) && Built(e, e, open, parent, up)
    ensures var after := CompileOne(e, cx, parent, NccCE(subs), bound, nested).0.beta;
      PureDoubleNegation(after, e.beta.next) <==> SingleConjunction(subs)
  {
    var begun := e.(beta := OpenNcc(e.beta, parent));
    var (e1, bottom) := CompileSeq(begun, cx, parent, subs, bound, true);
    var after := CompileOne(e, cx, parent, NccCE(subs), bound, nested).0.beta;
    var closed := CloseNcc(e1.beta, e.beta.next, bottom, |e.beta.nccMemories|);
    NccStaged(e, open, cx, parent, subs, bound, nested, up);
    OpenedOk(e, open, parent, up);
    SeqBelow(begun, open + {e.beta.next}, cx, parent, subs, bound, true, up);
    ClosedIsPure(e, open, parent, subs, e1, bottom, closed, after);
    FinishedPair(e, open, parent, e1, bottom, closed, after);
    PurityStays(closed, after, open, e.beta.next);
  }

  // ----- where it stands -----

  /** In the children of `parent`, `ncc` comes before everything its own subnetwork added: with children visited
      from the last to the first, it is visited after all of them. */
  ghost predicate BeforeOwnChildren(after: Net, parent: NodeId, ncc: NodeId) {
    parent in after.nodes && ncc in after.nodes[parent].children && BeforeRange(after.nodes[parent].children, ncc, after.next)
  }

  ghost predicate BeforeRange(children: seq<NodeId>, ncc: NodeId, next: NodeId) {
    forall i, j :: 0 <= i < |children| && 0 <= j < |children| && children[i] == ncc && ncc < children[j] < next ==> i < j
  }

  lemma LinkedPure(closed: Net, open: set<NodeId>, ncc: NodeId, parent: NodeId)
    requires Wf(closed, open) && ncc in closed.nodes && closed.nodes[ncc].kind.Ncc? && closed.nodes[ncc].parent == parent
    requires parent != closed.root && PureDoubleNegation(closed, ncc)
    requires closed.next == closed.nodes[ncc].kind.partner + 1
    ensures BeforeOwnChildren(LinkNcc(closed, ncc), parent, ncc)
  {
    assert HasOlderParent(closed.nodes, ncc) && Listed(closed.nodes, ncc);
    var children, partner := closed.nodes[parent].children, closed.nodes[ncc].kind.partner;
    assert LinkNcc(closed, ncc).nodes[parent].children == RelinkedChildren(children, ncc, partner, true);
    LinkedBeforeRange(children, ncc, partner);
    RelinkIsReordering(children, ncc, partner, true);
  }

  /** Under a non-root parent the NCC of `not (and (not (and ...)))`, which is also how an existential conjunction
      is compiled, is visited after every child of that parent its own subnetwork created. */
  lemma PureIsVisitedLast(e: Engine, open: set<NodeId>, cx: Context, parent: NodeId, subs: seq<Condition>, bound: set<Symbol>,
                          nested: bool, up: Term)
    requires AllRegistered(subs, cx.ids) && Built(e, e, open, parent, up) && parent != e.beta.root && SingleConjunction(subs)
    ensures var after := CompileOne(e, cx, parent, NccCE(subs), bound, nested).0.beta;
      BeforeOwnChildren(after, parent, e.beta.next)
  {
    var begun := e.(beta := OpenNcc(e.beta, parent));
    var (e1, bottom) := CompileSeq(begun, cx, parent, subs, bound, true);
    var after := CompileOne(e, cx, parent, NccCE(subs), bound, nested).0.beta;
    var closed := CloseNcc(e1.beta, e.beta.next, bottom, |e.beta.nccMemories|);
    NccStaged(e, open, cx, parent, subs, bound, nested, up);
    PureMeansSingleConjunction(e, open, cx, parent, subs, bound, nested, up);
    hide CompileOne, CompileSeq, Built, PureDoubleNegation, Conjunction, BeforeOwnChildren;
    LinkedLast(e, open, parent, e1, bottom, closed, after);
  }

  lemma LinkedLast(e: Engine, open: set<NodeId>, parent: NodeId, e1: Engine, bottom: NodeId, closed: Net, after: Net)
    requires Conjunction(e, open, parent, e1, bottom, closed, after) && PureDoubleNegation(after, e.beta.next) && parent != e.beta.root
    ensures BeforeOwnChildren(after, parent, e.beta.next)
  {
    hide PureDoubleNegation, Wf, EngineWf;
    FinishedPair(e, open, parent, e1, bottom, closed, after);
    PurityStays(closed, after, open, e.beta.next);
    LinkedPure(closed, open, e.beta.next, parent);
    assert after.next == LinkNcc(closed, e.beta.next).next;
  }

  // ----- exactly where it stands -----

  /** The NCC is the second-last child, so exactly one sibling is visited before it; alone it is the only child. */
  ghost predicate VisitedSecond(after: Net, parent: NodeId, ncc: NodeId) {
    && parent in after.nodes && after.nodes[parent].children != []
    && (var children := after.nodes[parent].children;
        if |children| == 1 then children[0] == ncc else children[|children| - 2] == ncc)
  }

  /** The next child after the NCC, visited just before it, is one its own subnetwork created. */
  ghost predicate JustBeforeOwn(after: Net, parent: NodeId, ncc: NodeId) {
    && parent in after.nodes
    && exists i :: 0 <= i < |after.nodes[parent].children| - 1 && after.nodes[parent].children[i] == ncc
                   && OwnChild(after, ncc, after.nodes[parent].children[i + 1])
  }

  predicate OwnChild(after: Net, ncc: NodeId, c: NodeId) { ncc < c < after.next }

  ghost predicate HasOwnChild(after: Net, parent: NodeId, ncc: NodeId) {
    parent in after.nodes && exists c :: c in after.nodes[parent].children && OwnChild(after, ncc, c)
  }

  lemma LinkedSecond(children: seq<NodeId>, ncc: NodeId, partner: NodeId)
    requires NoDuplicates(children) && ncc in children
    ensures var linked := RelinkedChildren(children, ncc, partner, false);
      linked != [] && if |linked| == 1 then linked[0] == ncc else linked[|linked| - 2] == ncc
  {
    var others := Without(children, ncc);
    WithoutDistinct(children, ncc);
    WithoutMembers(children, ncc);
    var second := if |others| == 0 then 0 else |others| - 1;
    InsertedAt(others, second, ncc, second);
  }

  lemma InsertedBetween(others: seq<NodeId>, slot: nat, x: NodeId)
    requires slot < |others|
    ensures var linked := InsertAt(others, slot, x); |linked| == |others| + 1 && linked[slot] == x && linked[slot + 1] == others[slot]
  {
  }

  /** Where a pure double negation lands: at the first child in its id range. */
  lemma LinkedAtRange(children: seq<NodeId>, ncc: NodeId, partner: NodeId, c: NodeId)
    requires c in children && ncc < c <= partner
    ensures var linked := RelinkedChildren(children, ncc, partner, true);
      exists i :: 0 <= i < |linked| - 1 && linked[i] == ncc && ncc < linked[i + 1] <= partner
  {
    var others := Without(children, ncc);
    WithoutMembers(children, ncc);
    var second := if |others| == 0 then 0 else |others| - 1;
    var slot := FirstInRange(others, ncc, partner, second);
    var k :| 0 <= k < |others| && others[k] == c;
    InsertedBetween(others, slot, ncc);
    var linked := RelinkedChildren(children, ncc, partner, true);
    assert linked == InsertAt(others, slot, ncc);
    assert linked[slot] == ncc && ncc < linked[slot + 1] <= partner;
  }

  /** Or second, when there is none. */
  lemma LinkedOutsideRange(children: seq<NodeId>, ncc: NodeId, partner: NodeId)
    requires forall c :: c in children ==> !(ncc < c <= partner)
    ensures RelinkedChildren(children, ncc, partner, true) == RelinkedChildren(children, ncc, partner, false)
  {
    var others := Without(children, ncc);
    WithoutMembers(children, ncc);
    forall k | 0 <= k < |others| ensures !(ncc < others[k] <= partner) { assert others[k] in others; }
  }

  /** Below any parent but the root, a conjunction that is no pure double negation is linked second in visit order. */
  lemma OthersAreVisitedSecond(e: Engine, open: set<NodeId>, cx: Context, parent: NodeId, subs: seq<Condition>, bound: set<Symbol>,
                               nested: bool, up: Term)
    requires AllRegistered(subs, cx.ids) && Built(e, e, open, parent, up) && parent != e.beta.root && !SingleConjunction(subs)
    ensures VisitedSecond(CompileOne(e, cx, parent, NccCE(subs), bound, nested).0.beta, parent, e.beta.next)
  {
    var begun := e.(beta := OpenNcc(e.beta, parent));
    var (e1, bottom) := CompileSeq(begun, cx, parent, subs, bound, true);
    var after := CompileOne(e, cx, parent, NccCE(subs), bound, nested).0.beta;
    var closed := CloseNcc(e1.beta, e.beta.next, bottom, |e.beta.nccMemories|);
    NccStaged(e, open, cx, parent, subs, bound, nested, up);
    PureMeansSingleConjunction(e, open, cx, parent, subs, bound, nested, up);
    hide CompileOne, CompileSeq, Built, PureDoubleNegation, Conjunction, VisitedSecond;
    PlacedSecond(e, open, parent, e1, bottom, closed, after);
  }

  lemma PlacedSecond(e: Engine, open: set<NodeId>, parent: NodeId, e1: Engine, bottom: NodeId, closed: Net, after: Net)
    requires Conjunction(e, open, parent, e1, bottom, closed, after) && !PureDoubleNegation(after, e.beta.next) && parent != e.beta.root
    ensures VisitedSecond(after, parent, e.beta.next)
  {
    hide PureDoubleNegation, EngineWf;
    var ncc := e.beta.next;
    FinishedPair(e, open, parent, e1, bottom, closed, after);
    PurityStays(closed, after, open, ncc);
    assert HasOlderParent(closed.nodes, ncc) && Listed(closed.nodes, ncc);
    LinkedSecond(closed.nodes[parent].children, ncc, closed.nodes[ncc].kind.partner);
  }

  /** A pure double negation stands just before one of its own children, or second when it has none, as when the entry
      of its nested conjunction is shared with an older rule. */
  lemma PureStandsAtItsOwn(e: Engine, open: set<NodeId>, cx: Context, parent: NodeId, subs: seq<Condition>, bound: set<Symbol>,
                           nested: bool, up: Term)
    requires AllRegistered(subs, cx.ids) && Built(e, e, open, parent, up) && parent != e.beta.root && SingleConjunction(subs)
    ensures var after := CompileOne(e, cx, parent, NccCE(subs), bound, nested).0.beta;
      if HasOwnChild(after, parent, e.beta.next) then JustBeforeOwn(after, parent, e.beta.next)
      else VisitedSecond(after, parent, e.beta.next)
  {
    var begun := e.(beta := OpenNcc(e.beta, parent));
    var (e1, bottom) := CompileSeq(begun, cx, parent, subs, bound, true);
    var after := CompileOne(e, cx, parent, NccCE(subs), bound, nested).0.beta;
    var closed := CloseNcc(e1.beta, e.beta.next, bottom, |e.beta.nccMemories|);
    NccStaged(e, open, cx, parent, subs, bound, nested, up);
    PureMeansSingleConjunction(e, open, cx, parent, subs, bound, nested, up);
    hide CompileOne, CompileSeq, Built, PureDoubleNegation, Conjunction, VisitedSecond, JustBeforeOwn, HasOwnChild;
    PlacedAtOwn(e, open, parent, e1, bottom, closed, after);
  }

  lemma PlacedAtOwn(e: Engine, open: set<NodeId>, parent: NodeId, e1: Engine, bottom: NodeId, closed: Net, after: Net)
    requires Conjunction(e, open, parent, e1, bottom, closed, after) && PureDoubleNegation(after, e.beta.next) && parent != e.beta.root
    ensures if HasOwnChild(after, parent, e.beta.next) then JustBeforeOwn(after, parent, e.beta.next)
            else VisitedSecond(after, parent, e.beta.next)
  {
    hide PureDoubleNegation, EngineWf;
    var ncc, partner := e.beta.next, e1.beta.next;
    FinishedPair(e, open, parent, e1, bottom, closed, after);
    PurityStays(closed, after, open, ncc);
    assert HasOlderParent(closed.nodes, ncc) && Listed(closed.nodes, ncc);
    var children := closed.nodes[parent].children;
    assert after.nodes[parent].children == RelinkedChildren(children, ncc, partner, true);
    hide Conjunction, FirstInRange;
    RelinkIsReordering(children, ncc, partner, true);
    if c :| c in children && OwnChild(after, ncc, c) {
      LinkedAtRange(children, ncc, partner, c);
    } else {
      LinkedOutsideRange(children, ncc, partner);
      LinkedSecond(children, ncc, partner);
    }
  }

  /** The ids between an NCC and its partner are exactly the nodes built for its subnetwork. */
  lemma SubnetworkIds(e: Engine, open: set<NodeId>, cx: Context, parent: NodeId, subs: seq<Condition>, bound: set<Symbol>, nested: bool, up: Term)
    requires AllRegistered(subs, cx.ids) && Built(e, e, open, parent, up)
    ensures var ncc := e.beta.next;
      var after := CompileOne(e, cx, parent, NccCE(subs), bound, nested).0.beta;
      && after.next > ncc + 1 && ncc in after.nodes && after.nodes[ncc].kind.Ncc? && after.nodes[ncc].kind.partner == after.next - 1
      && (forall n :: ncc < n <= after.next - 1 <==> n in after.nodes && n !in e.beta.nodes && n != ncc)
  {
    var begun := e.(beta := OpenNcc(e.beta, parent));
    OpenDemand(e.beta, parent);
    Demand(begun, cx, parent, subs, bound, true);
    var (e1, bottom) := CompileSeq(begun, cx, parent, subs, bound, true);
    CloseDemand(e1.beta, e.beta.next, bottom, |e.beta.nccMemories|, nested);
    NccUnfolds(e, cx, parent, subs, bound, nested);
    NccStaged(e, open, cx, parent, subs, bound, nested, up);
    FinishedPair(e, open, parent, e1, bottom, CloseNcc(e1.beta, e.beta.next, bottom, |e.beta.nccMemories|),
                 CompileOne(e, cx, parent, NccCE(subs), bound, nested).0.beta);
  }
}
