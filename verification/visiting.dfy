/** Where a completed NCC stands among its parent's children. Children are visited newest first,
    so the last child is visited first. */
module Visiting {
  import opened Syntax
  import opened Sequences
  import opened Network
  import opened WellFormed
  import opened Relink
  import opened Compile
  import opened Waits
  import opened Planning

  /** Compiling below `parent` leaves the child lists of everything older than `parent` alone. */
  ghost predicate OlderChildrenKept(a: Net, b: Net, parent: NodeId) {
    forall x :: x in a.nodes && x < parent ==> x in b.nodes && b.nodes[x].children == a.nodes[x].children
  }

  lemma {:induction false} OlderKeptOne(e: Engine, open: set<NodeId>, cx: Context, parent: NodeId, c: Condition,
                                        bound: set<Symbol>, nested: bool, up: Term)
    requires RegisteredIn(c, cx.ids) && Built(e, e, open, parent, up)
    ensures var (e1, n) := CompileOne(e, cx, parent, c, bound, nested); OlderChildrenKept(e.beta, e1.beta, parent) && parent < n
    decreases c
  {
    match c
    case PatternCE(p) => OlderKeptPattern(e, open, cx, parent, p, bound);
    case PredicateCE(index) => OlderKeptPredicate(e.beta, parent, cx.rule, index);
    case NccCE(subs) =>
      var begun := e.(beta := OpenNcc(e.beta, parent));
      OpenedOk(e, open, parent, up);
      OlderKept(begun, open + {e.beta.next}, cx, parent, subs, bound, true, up);
      CompileSeqOk(begun, open + {e.beta.next}, cx, parent, subs, bound, true, up);
      var (e1, bottom) := CompileSeq(begun, cx, parent, subs, bound, true);
      assert e1.beta.nodes[e.beta.next].Core() == begun.beta.nodes[e.beta.next].Core();
      OlderKeptNcc(e.beta, begun.beta, e1.beta, parent, bottom, nested);
  }

  lemma OlderKeptNcc(a: Net, begun: Net, grown: Net, parent: NodeId, bottom: NodeId, nested: bool)
    requires parent < a.next && begun == OpenNcc(a, parent)
    requires a.next in grown.nodes && a.next < grown.next && grown.nodes[a.next].parent == parent
    requires bottom < grown.next && parent <= bottom && OlderChildrenKept(begun, grown, parent)
    ensures OlderChildrenKept(a, FinishNcc(CloseNcc(grown, a.next, bottom, |a.nccMemories|), a.next, nested), parent)
  {
    AttachKeepsOlder(a, Ncc(a.root, |a.nccMemories|), parent, |a.memories|);
    assert OlderChildrenKept(a, begun, parent);
    OlderKeptClose(grown, a.next, parent, bottom, |a.nccMemories|, nested);
  }

  lemma AttachKeepsOlder(net: Net, kind: Kind, parent: NodeId, memory: nat)
    requires parent < net.next
    ensures OlderChildrenKept(net, AddNode(net, kind, parent, memory), parent)
  {
  }

  lemma OlderKeptPattern(e: Engine, open: set<NodeId>, cx: Context, parent: NodeId, p: Pattern, bound: set<Symbol>)
    requires Registered(p, cx.ids) && EngineWf(e, open) && parent in e.beta.nodes && e.beta.nodes[parent].Inner()
    ensures var (e1, n) := CompilePattern(e, cx, parent, p, bound); OlderChildrenKept(e.beta, e1.beta, parent) && parent < n
  {
    ReadyPatternOk(e, open, cx, parent, p, bound);
    var (ea, alpha) := ReadyPattern(e, cx, parent, p, bound);
    var tests := JoinTests(p, cx.ids, bound);
    if p.negated {
      OlderKeptNegative(ea.beta, parent, alpha, tests, p.sequence);
    } else if p.exists_ {
      OlderKeptExists(ea.beta, parent, alpha, tests, p.sequence);
    } else {
      OlderKeptJoin(ea, JoinKey(parent, alpha, tests, Extractions(p.variableSlots, cx.ids, bound), p.sequence));
    }
  }

  lemma OlderKeptNegative(net: Net, parent: NodeId, alpha: AlphaMemoryId, tests: seq<JoinTest>, sequence: Option<SequencePlan>)
    requires parent < net.next
    ensures OlderChildrenKept(net, AddNegative(net, parent, alpha, tests, sequence), parent)
  {
    AttachKeepsOlder(PushMemory(net), Negative(alpha, tests, sequence, |net.negMemories|), parent, |net.memories|);
  }

  lemma OlderKeptExists(net: Net, parent: NodeId, alpha: AlphaMemoryId, tests: seq<JoinTest>, sequence: Option<SequencePlan>)
    requires parent < net.next
    ensures OlderChildrenKept(net, AddExists(net, parent, alpha, tests, sequence), parent)
  {
    AttachKeepsOlder(PushMemory(net), Exists(alpha, tests, sequence, |net.existsMemories|), parent, |net.memories|);
  }

  lemma OlderKeptJoin(e: Engine, key: JoinKey)
    requires TreeOk(e.beta) && JoinCacheOk(e) && key.parent < e.beta.next
    ensures var (e1, n) := EnsureJoin(e, key); OlderChildrenKept(e.beta, e1.beta, key.parent) && key.parent < n
  {
    if key in e.joinCache {
      assert CachedJoin(e, key);
      assert HasOlderParent(e.beta.nodes, e.joinCache[key]);
    } else {
      AttachKeepsOlder(PushMemory(e.beta), Join(key.alpha, key.tests, key.sequence, key.bindings), key.parent, |e.beta.memories|);
    }
  }

  lemma OlderKeptPredicate(net: Net, parent: NodeId, rule: RuleId, index: nat)
    requires parent < net.next
    ensures OlderChildrenKept(net, AddPredicate(net, parent, rule, index), parent)
  {
    AttachKeepsOlder(PushMemory(net), Predicate(rule, index), parent, |net.memories|);
  }

  lemma OlderKeptClose(net: Net, ncc: NodeId, parent: NodeId, bottom: NodeId, memory: nat, nested: bool)
    requires ncc in net.nodes && net.nodes[ncc].parent == parent && parent <= bottom && bottom < net.next
    requires ncc < net.next
    ensures OlderChildrenKept(net, FinishNcc(CloseNcc(net, ncc, bottom, memory), ncc, nested), parent)
  {
    var closed := CloseNcc(net, ncc, bottom, memory);
    assert OlderChildrenKept(net, closed, parent);
    assert closed.nodes[ncc].parent == parent;
    assert OlderChildrenKept(closed, LinkNcc(closed, ncc), parent);
  }

  lemma {:induction false} OlderKept(e: Engine, open: set<NodeId>, cx: Context, parent: NodeId, conditions: seq<Condition>,
                                     bound: set<Symbol>, nested: bool, up: Term)
    requires AllRegistered(conditions, cx.ids) && Built(e, e, open, parent, up)
    ensures var (e1, n) := CompileSeq(e, cx, parent, conditions, bound, nested);
      OlderChildrenKept(e.beta, e1.beta, parent) && parent <= n
    decreases conditions
  {
    if conditions != [] {
      var (e1, n) := CompileOne(e, cx, parent, conditions[0], bound, nested);
      CompileOneOk(e, open, cx, parent, conditions[0], bound, nested, up);
      OlderKeptOne(e, open, cx, parent, conditions[0], bound, nested, up);
      OlderKept(e1, open, cx, n, conditions[1..], BoundBy(conditions[0], bound), nested,
                TermOfOne(cx, conditions[0], up, bound));
    }
  }

  // ----- the place of the NCC -----

  /** Linked before the first child in its subnetwork's id range, an NCC stands before every one of them. */
  lemma LinkedBeforeRange(children: seq<NodeId>, ncc: NodeId, partner: NodeId)
    requires NoDuplicates(children) && ncc in children
    ensures var linked := RelinkedChildren(children, ncc, partner, true);
      forall i, j :: 0 <= i < |linked| && 0 <= j < |linked| && linked[i] == ncc && ncc < linked[j] <= partner ==> i < j
  {
    var others := Without(children, ncc);
    WithoutMembers(children, ncc);
    var second := if |others| == 0 then 0 else |others| - 1;
    var slot := FirstInRange(others, ncc, partner, second);
    var linked := RelinkedChildren(children, ncc, partner, true);
    forall i, j | 0 <= i < |linked| && 0 <= j < |linked| && linked[i] == ncc && ncc < linked[j] <= partner ensures i < j {
      InsertedAt(others, slot, ncc, i);
      InsertedAt(others, slot, ncc, j);
    }
  }

  lemma InsertedAt(others: seq<NodeId>, slot: nat, x: NodeId, k: nat)
    requires slot <= |others| && x !in others && k <= |others|
    ensures InsertAt(others, slot, x)[k] == if k < slot then others[k] else if k == slot then x else others[k - 1]
    ensures InsertAt(others, slot, x)[k] == x ==> k == slot
  {
    if k != slot { assert others[if k < slot then k else k - 1] in others; }
  }

  /** Walking up from below `entry` towards its parent stops at `entry`. */
  lemma {:induction false} EntryIsFound(nodes: map<NodeId, BetaNode>, entry: NodeId, q: NodeId, top: NodeId)
    requires entry in nodes && OnPath(nodes, entry, q) && !nodes[entry].kind.Root? && nodes[entry].parent == top && top < entry
    ensures EntryBelow(nodes, q, top) == Some(entry)
    decreases q
  {
    if q != entry {
      OnPathDown(nodes, entry, nodes[q].parent);
      EntryIsFound(nodes, entry, nodes[q].parent, top);
    }
  }

  /** `n` is a fresh child of `parent`, appended to its children. */
  ghost predicate FreshChild(a: Net, b: Net, parent: NodeId, n: NodeId) {
    && n == a.next && n in b.nodes && parent in a.nodes && parent in b.nodes && parent < n
    && b.nodes[n].parent == parent && !b.nodes[n].kind.Ncc? && !b.nodes[n].kind.Root?
    && b.nodes[parent].children == a.nodes[parent].children + [n]
  }

  /** The parent gained the NCC and then its entry, as the two newest children. */
  ghost predicate EntryThenNcc(a: Net, after: Net, parent: NodeId) {
    && parent in a.nodes && parent in after.nodes
    && after.nodes[parent].children == a.nodes[parent].children + [a.next, a.next + 1]
  }

  lemma AttachFresh(net: Net, kind: Kind, parent: NodeId, memory: nat)
    requires parent in net.nodes && net.nodes[parent].Inner() && parent < net.next && !kind.Ncc? && !kind.Root?
    ensures FreshChild(net, AddNode(net, kind, parent, memory), parent, net.next)
  {
  }

  lemma FreshPattern(e: Engine, open: set<NodeId>, cx: Context, parent: NodeId, p: Pattern, bound: set<Symbol>)
    requires Registered(p, cx.ids) && EngineWf(e, open) && parent in e.beta.nodes && e.beta.nodes[parent].Inner()
    requires CompilePattern(e, cx, parent, p, bound).1 == e.beta.next
    ensures FreshChild(e.beta, CompilePattern(e, cx, parent, p, bound).0.beta, parent, e.beta.next)
  {
    var (ea, alpha) := ReadyPattern(e, cx, parent, p, bound);
    ReadyPatternOk(e, open, cx, parent, p, bound);
    var tests := JoinTests(p, cx.ids, bound);
    if p.negated {
      AttachFresh(PushMemory(ea.beta), Negative(alpha, tests, p.sequence, |ea.beta.negMemories|), parent, |ea.beta.memories|);
    } else if p.exists_ {
      AttachFresh(PushMemory(ea.beta), Exists(alpha, tests, p.sequence, |ea.beta.existsMemories|), parent, |ea.beta.memories|);
    } else {
      FreshJoin(ea, JoinKey(parent, alpha, tests, Extractions(p.variableSlots, cx.ids, bound), p.sequence));
    }
  }

  lemma FreshJoin(e: Engine, key: JoinKey)
    requires TreeOk(e.beta) && JoinCacheOk(e) && key.parent in e.beta.nodes && e.beta.nodes[key.parent].Inner()
    requires EnsureJoin(e, key).1 == e.beta.next
    ensures FreshChild(e.beta, EnsureJoin(e, key).0.beta, key.parent, e.beta.next)
  {
    assert key in e.joinCache ==> CachedJoin(e, key);
    AttachFresh(PushMemory(e.beta), Join(key.alpha, key.tests, key.sequence, key.bindings), key.parent, |e.beta.memories|);
  }

  /** The subnetwork below a freshly built entry never touches the parent's children again. */
  lemma FreshSubnetwork(e: Engine, open: set<NodeId>, cx: Context, parent: NodeId, subs: seq<Condition>, bound: set<Symbol>, up: Term)
    requires AllRegistered(subs, cx.ids) && Built(e, e, open, parent, up) && WaitsKnown(e.beta)
    requires subs != [] && !subs[0].NccCE? && CompileOne(e, cx, parent, subs[0], bound, true).1 == e.beta.next
    ensures var (e1, bottom) := CompileSeq(e, cx, parent, subs, bound, true);
      && Built(e, e1, open, bottom, TermOf(cx, subs, up, bound))
      && FreshChild(e.beta, e1.beta, parent, e.beta.next)
      && OnPath(e1.beta.nodes, e.beta.next, bottom) && e.beta.next <= bottom
  {
    var entry, c, bound1 := e.beta.next, subs[0], BoundBy(subs[0], bound);
    var (first, n) := CompileOne(e, cx, parent, c, bound, true);
    CompileOneOk(e, open, cx, parent, c, bound, true, up);
    OneStep(e, open, cx, parent, c, bound, true, up);
    KnownAfter(e.beta, first.beta, parent, entry, true);
    assert FreshChild(e.beta, first.beta, parent, entry) by {
      if c.PatternCE? { FreshPattern(e, open, cx, parent, c.pattern, bound); }
      else { AttachFresh(PushMemory(e.beta), Predicate(cx.rule, c.index), parent, |e.beta.memories|); }
    }
    RestBelowEntry(first, open, cx, entry, subs[1..], bound1, TermOfOne(cx, c, up, bound), parent);
    CompileSeqOk(e, open, cx, parent, subs, bound, true, up);
  }

  lemma RestBelowEntry(first: Engine, open: set<NodeId>, cx: Context, entry: NodeId, rest: seq<Condition>, bound: set<Symbol>,
                       t: Term, parent: NodeId)
    requires AllRegistered(rest, cx.ids) && Built(first, first, open, entry, t) && WaitsKnown(first.beta)
    requires parent in first.beta.nodes && parent < entry
    ensures var (e1, bottom) := CompileSeq(first, cx, entry, rest, bound, true);
      && parent in e1.beta.nodes && e1.beta.nodes[parent].children == first.beta.nodes[parent].children
      && entry in e1.beta.nodes && e1.beta.nodes[entry].Core() == first.beta.nodes[entry].Core()
      && OnPath(e1.beta.nodes, entry, bottom) && entry <= bottom
  {
    CompileSeqOk(first, open, cx, entry, rest, bound, true, t);
    SeqStep(first, open, cx, entry, rest, bound, true, t);
    OlderKept(first, open, cx, entry, rest, bound, true, t);
  }

  /** Under a non-root parent, an NCC whose subnetwork begins with a freshly built pattern or predicate node
      ends up just before that node, which is the newest child: the entry is visited first, the NCC next. */
  lemma FreshEntryVisitedJustBeforeNcc(e: Engine, open: set<NodeId>, cx: Context, parent: NodeId, subs: seq<Condition>,
                                       bound: set<Symbol>, nested: bool, up: Term)
    requires AllRegistered(subs, cx.ids) && Built(e, e, open, parent, up) && WaitsKnown(e.beta)
    requires parent != e.beta.root && subs != [] && !subs[0].NccCE?
    requires CompileOne(e.(beta := OpenNcc(e.beta, parent)), cx, parent, subs[0], bound, true).1 == e.beta.next + 1
    ensures var after := CompileOne(e, cx, parent, NccCE(subs), bound, nested).0.beta;
      EntryThenNcc(e.beta, after, parent)
  {
    NccUnfolds(e, cx, parent, subs, bound, nested);
    FreshEntryClosed(e, open, cx, parent, subs, bound, nested, up);
  }

  lemma NccUnfolds(e: Engine, cx: Context, parent: NodeId, subs: seq<Condition>, bound: set<Symbol>, nested: bool)
    requires AllRegistered(subs, cx.ids)
    ensures var (e1, bottom) := CompileSeq(e.(beta := OpenNcc(e.beta, parent)), cx, parent, subs, bound, true);
      CompileOne(e, cx, parent, NccCE(subs), bound, nested).0.beta ==
        FinishNcc(CloseNcc(e1.beta, e.beta.next, bottom, |e.beta.nccMemories|), e.beta.next, nested)
  {
  }

  lemma FreshEntryClosed(e: Engine, open: set<NodeId>, cx: Context, parent: NodeId, subs: seq<Condition>,
                         bound: set<Symbol>, nested: bool, up: Term)
    requires AllRegistered(subs, cx.ids) && Built(e, e, open, parent, up) && WaitsKnown(e.beta)
    requires parent != e.beta.root && subs != [] && !subs[0].NccCE?
    requires CompileOne(e.(beta := OpenNcc(e.beta, parent)), cx, parent, subs[0], bound, true).1 == e.beta.next + 1
    ensures var (e1, bottom) := CompileSeq(e.(beta := OpenNcc(e.beta, parent)), cx, parent, subs, bound, true);
      var after := FinishNcc(CloseNcc(e1.beta, e.beta.next, bottom, |e.beta.nccMemories|), e.beta.next, nested);
      EntryThenNcc(e.beta, after, parent)
  {
    var begun := e.(beta := OpenNcc(e.beta, parent));
    FreshGrowth(e, begun, open, cx, parent, subs, bound, up);
    var (e1, bottom) := CompileSeq(begun, cx, parent, subs, bound, true);
    FreshEntryFinished(e.beta, begun.beta, e1.beta, open, parent, bottom, nested);
  }

  /** What the graph looks like just before an NCC with a fresh entry is closed. */
  ghost predicate ReadyToClose(a: Net, begun: Net, grown: Net, open: set<NodeId>, parent: NodeId, bottom: NodeId) {
    && Wf(grown, open + {a.next})
    && GrownBy(a, begun, Ncc(a.root, |a.nccMemories|), parent, |a.memories|)
    && Extends(a, begun) && Extends(begun, grown) && FreshChild(begun, grown, parent, a.next + 1)
    && parent in a.nodes && begun.nodes[parent].children == a.nodes[parent].children + [a.next]
    && OnPath(grown.nodes, a.next + 1, bottom) && a.next + 1 <= bottom
    && bottom in grown.nodes && grown.nodes[bottom].Inner()
  }

  lemma FreshGrowth(e: Engine, begun: Engine, open: set<NodeId>, cx: Context, parent: NodeId, subs: seq<Condition>,
                    bound: set<Symbol>, up: Term)
    requires AllRegistered(subs, cx.ids) && Built(e, e, open, parent, up) && WaitsKnown(e.beta)
    requires subs != [] && !subs[0].NccCE? && begun == e.(beta := OpenNcc(e.beta, parent))
    requires CompileOne(begun, cx, parent, subs[0], bound, true).1 == e.beta.next + 1
    ensures var (e1, bottom) := CompileSeq(begun, cx, parent, subs, bound, true);
      ReadyToClose(e.beta, begun.beta, e1.beta, open, parent, bottom)
  {
    OpenedOk(e, open, parent, up);
    AddedNccChild(e.beta, parent);
    FreshSubnetwork(begun, open + {e.beta.next}, cx, parent, subs, bound, up);
  }

  lemma FreshEntryFinished(a: Net, begun: Net, grown: Net, open: set<NodeId>, parent: NodeId, bottom: NodeId, nested: bool)
    requires Wf(a, open) && parent in a.nodes && a.nodes[parent].Inner() && parent != a.root
    requires ReadyToClose(a, begun, grown, open, parent, bottom)
    ensures var after := FinishNcc(CloseNcc(grown, a.next, bottom, |a.nccMemories|), a.next, nested);
      EntryThenNcc(a, after, parent)
  {
    NoChildBeforeAllocation(a, parent);
    assert begun.nodes[parent].Core() == a.nodes[parent].Core();
    EntryBeforeNcc(a, begun, grown, open, parent, bottom);
    FinishKeepsLinks(CloseNcc(grown, a.next, bottom, |a.nccMemories|), a.next, nested);
  }

  lemma NoChildBeforeAllocation(net: Net, parent: NodeId)
    requires TreeOk(net) && ChildrenOk(net) && parent in net.nodes && net.nodes[parent].Inner()
    ensures net.next !in net.nodes[parent].children
  {
    assert net.next in net.nodes[parent].children ==> IsChild(net.nodes, parent, net.next);
  }

  lemma FinishKeepsLinks(net: Net, ncc: NodeId, nested: bool)
    ensures FinishNcc(net, ncc, nested).nodes == LinkNcc(net, ncc).nodes
  {
  }

  lemma AddedNccChild(net: Net, parent: NodeId)
    requires parent in net.nodes && net.nodes[parent].Inner() && parent < net.next
    ensures OpenNcc(net, parent).nodes[parent].children == net.nodes[parent].children + [net.next]
  {
  }

  lemma EntryBeforeNcc(a: Net, begun: Net, grown: Net, open: set<NodeId>, parent: NodeId, bottom: NodeId)
    requires TreeOk(a) && Wf(grown, open + {a.next}) && a.next !in open && parent in a.nodes && parent != a.root
    requires GrownBy(a, begun, Ncc(a.root, |a.nccMemories|), parent, |a.memories|) && a.next !in a.nodes[parent].children
    requires Extends(a, begun) && Extends(begun, grown) && FreshChild(begun, grown, parent, a.next + 1)
    requires begun.nodes[parent].children == a.nodes[parent].children + [a.next] && begun.nodes[parent].Inner()
    requires OnPath(grown.nodes, a.next + 1, bottom) && a.next + 1 <= bottom
    requires bottom in grown.nodes && grown.nodes[bottom].Inner()
    ensures var after := LinkNcc(CloseNcc(grown, a.next, bottom, |a.nccMemories|), a.next);
      EntryThenNcc(a, after, parent)
  {
    var ncc, entry := a.next, a.next + 1;
    assert grown.nodes[ncc].Core() == begun.nodes[ncc].Core();
    assert grown.nodes[ncc].parent == parent && grown.nodes[ncc].kind == Ncc(a.root, |a.nccMemories|) by {
      assert grown.nodes[ncc].Core().kind == begun.nodes[ncc].Core().kind;
    }
    ClosedShape(grown, ncc, bottom);
    var closed := CloseNcc(grown, ncc, bottom, |a.nccMemories|);
    ClosedKeepsOlder(grown, ncc, bottom, |a.nccMemories|, parent);
    ClosedEntry(grown, closed, ncc, entry, bottom, parent);
    ParentIsLinkable(a, begun, grown, closed, ncc, parent, bottom);
    LinkAtEnd(closed, ncc, entry, a.nodes[parent].children, parent);
  }

  lemma ParentIsLinkable(a: Net, begun: Net, grown: Net, closed: Net, ncc: NodeId, parent: NodeId, bottom: NodeId)
    requires TreeOk(a) && parent in a.nodes && parent != a.root && parent != ncc && ncc in grown.nodes && grown.nodes[ncc].kind.Ncc?
    requires Extends(a, begun) && Extends(begun, grown) && ClosedBy(grown, closed, ncc, bottom)
    requires begun.nodes[parent].Inner()
    ensures parent in closed.nodes && parent != closed.root && closed.nodes[parent].Inner() && !closed.nodes[parent].kind.Root?
  {
    assert begun.nodes[parent].Core() == a.nodes[parent].Core();
    assert grown.nodes[parent].Core() == begun.nodes[parent].Core();
    assert closed.nodes[parent].Core() == grown.nodes[parent].Core();
  }

  lemma ClosedKeepsOlder(net: Net, ncc: NodeId, bottom: NodeId, memory: nat, x: NodeId)
    requires x in net.nodes && x != bottom && x < net.next && x != ncc
    ensures x in CloseNcc(net, ncc, bottom, memory).nodes
    ensures CloseNcc(net, ncc, bottom, memory).nodes[x].children == net.nodes[x].children
  {
  }

  lemma ClosedEntry(grown: Net, closed: Net, ncc: NodeId, entry: NodeId, bottom: NodeId, parent: NodeId)
    requires TreeOk(grown) && ncc in grown.nodes && grown.nodes[ncc].kind.Ncc? && ClosedBy(grown, closed, ncc, bottom)
    requires grown.nodes[ncc].parent == parent && entry in grown.nodes && entry != ncc && parent < entry
    requires grown.nodes[entry].parent == parent && !grown.nodes[entry].kind.Ncc? && !grown.nodes[entry].kind.Root?
    requires OnPath(grown.nodes, entry, bottom) && bottom < grown.next
    ensures closed.nodes[ncc].kind.Ncc? && closed.nodes[ncc].parent == parent && !PureDoubleNegation(closed, ncc)
  {
    assert closed.nodes[ncc].kind == closed.nodes[ncc].Core().kind && closed.nodes[ncc].parent == closed.nodes[ncc].Core().parent;
    assert closed.nodes[entry].Core() == grown.nodes[entry].Core();
    TreeIsOlder(grown);
    forall m | m in grown.nodes ensures m in closed.nodes && SameRole(grown.nodes[m], closed.nodes[m]) {
      if m == ncc { assert closed.nodes[m].Core().parent == grown.nodes[m].Core().parent; }
      else { assert closed.nodes[m].Core() == grown.nodes[m].Core(); }
    }
    OnPathStable(grown.nodes, closed.nodes, entry, bottom);
    assert OnPath(closed.nodes, entry, grown.next);
    EntryIsFound(closed.nodes, entry, grown.next, parent);
  }

  lemma LinkAtEnd(net: Net, ncc: NodeId, entry: NodeId, prior: seq<NodeId>, p: NodeId)
    requires ncc in net.nodes && net.nodes[ncc].kind.Ncc? && !PureDoubleNegation(net, ncc) && net.nodes[ncc].parent == p
    requires p in net.nodes && p != net.root && net.nodes[p].Inner() && !net.nodes[p].kind.Root?
    requires net.nodes[p].children == prior + [ncc] + [entry] && ncc !in prior && ncc != entry
    ensures p in LinkNcc(net, ncc).nodes && LinkNcc(net, ncc).nodes[p].children == prior + [ncc, entry]
  {
    assert prior + [ncc] + [entry] == prior + [ncc, entry];
    WithoutMiddle(prior, ncc, entry);
    assert (prior + [entry])[..|prior|] == prior && (prior + [entry])[|prior|..] == [entry];
    assert RelinkedChildren(prior + [ncc, entry], ncc, net.nodes[ncc].kind.partner, false) == prior + [ncc, entry];
  }

  lemma {:induction false} WithoutMiddle(prior: seq<NodeId>, x: NodeId, y: NodeId)
    requires x !in prior && x != y
    ensures Without(prior + [x, y], x) == prior + [y]
  {
    if prior == [] {
      assert prior + [x, y] == [x, y] && prior + [y] == [y];
      assert [x, y][1..] == [y] && [y][1..] == [];
      assert Without([y], x) == [y];
    } else {
      assert (prior + [x, y])[1..] == prior[1..] + [x, y];
      WithoutMiddle(prior[1..], x, y);
    }
  }
}
