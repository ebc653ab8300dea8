/** What later work never changes: the relative order in which the surviving children of a node are visited. */
module VisitOrder {
  import opened Syntax
  import opened Sequences
  import opened Network
  import opened WellFormed
  import opened Relink
  import opened Compile
  import opened Planning
  import opened Removal
  import opened RemovalMeaning
  import opened Runs

  /** The ids below `bound`. */
  function Ids(bound: NodeId): (ids: set<NodeId>)
    ensures forall n: NodeId :: n in ids <==> n < bound
  {
    if bound == 0 then {} else Ids(bound - 1) + {bound - 1}
  }

  /** Some occurrence of `y` comes after some occurrence of `x`. */
  predicate Before(s: seq<NodeId>, x: NodeId, y: NodeId) {
    s != [] && ((s[0] == x && y in s[1..]) || Before(s[1..], x, y))
  }

  lemma {:induction false} BeforeFiltered(s: seq<NodeId>, keep: set<NodeId>, x: NodeId, y: NodeId)
    requires x in keep && y in keep
    ensures Before(FilterChildren(s, keep), x, y) <==> Before(s, x, y)
  {
    if s != [] {
      var rest := FilterChildren(s[1..], keep);
      BeforeFiltered(s[1..], keep, x, y);
      FilterMembers(s[1..], keep);
      assert s[0] in keep ==> FilterChildren(s, keep) == [s[0]] + rest && ([s[0]] + rest)[1..] == rest;
      assert s[0] !in keep ==> FilterChildren(s, keep) == rest;
    }
  }

  lemma {:induction false} FilterConcat(s: seq<NodeId>, t: seq<NodeId>, keep: set<NodeId>)
    ensures FilterChildren(s + t, keep) == FilterChildren(s, keep) + FilterChildren(t, keep)
  {
    if s == [] {
      assert s + t == t;
    } else {
      assert (s + t)[0] == s[0] && (s + t)[1..] == s[1..] + t;
      FilterConcat(s[1..], t, keep);
      var head, first, second := if s[0] in keep then [s[0]] else [], FilterChildren(s[1..], keep), FilterChildren(t, keep);
      assert head + (first + second) == head + first + second;
    }
  }

  lemma {:induction false} FilterWithout(s: seq<NodeId>, x: NodeId, keep: set<NodeId>)
    requires x !in keep
    ensures FilterChildren(Without(s, x), keep) == FilterChildren(s, keep)
  {
    if s != [] {
      FilterWithout(s[1..], x, keep);
      var rest := Without(s[1..], x);
      assert ([s[0]] + rest)[1..] == rest;
      assert Without(s, x) == if s[0] == x then rest else [s[0]] + rest;
    }
  }

  lemma FilterInserted(s: seq<NodeId>, i: nat, x: NodeId, keep: set<NodeId>)
    requires i <= |s| && x !in keep
    ensures FilterChildren(InsertAt(s, i, x), keep) == FilterChildren(s, keep)
  {
    var before, after := s[..i], s[i..];
    assert s == before + after && InsertAt(s, i, x) == before + ([x] + after);
    assert ([x] + after)[1..] == after;
    FilterConcat(before, after, keep);
    FilterConcat(before, [x] + after, keep);
  }

  /** Nodes older than `bound` keep their children older than `bound`, in the same order. */
  ghost predicate OrderKept(a: Net, b: Net, bound: NodeId) {
    && bound <= a.next <= b.next
    && forall p :: p in a.nodes && p < bound ==> ChildrenKept(a, b, bound, p)
  }

  ghost predicate ChildrenKept(a: Net, b: Net, bound: NodeId, p: NodeId)
    requires p in a.nodes
  {
    p in b.nodes && FilterChildren(b.nodes[p].children, Ids(bound)) == FilterChildren(a.nodes[p].children, Ids(bound))
  }

  lemma OrderKeptTransitive(a: Net, b: Net, c: Net, bound: NodeId)
    requires OrderKept(a, b, bound) && OrderKept(b, c, bound)
    ensures OrderKept(a, c, bound)
  {
    forall p | p in a.nodes && p < bound ensures ChildrenKept(a, c, bound, p) {
      assert ChildrenKept(a, b, bound, p) && ChildrenKept(b, c, bound, p);
    }
  }

  lemma SameNodesOrder(a: Net, b: Net, bound: NodeId)
    requires bound <= a.next <= b.next && b.nodes == a.nodes
    ensures OrderKept(a, b, bound)
  {
  }

  lemma AddNodeOrder(net: Net, kind: Kind, parent: NodeId, memory: nat, bound: NodeId)
    requires bound <= net.next
    ensures OrderKept(net, AddNode(net, kind, parent, memory), bound)
  {
    var after := AddNode(net, kind, parent, memory);
    forall p | p in net.nodes && p < bound ensures ChildrenKept(net, after, bound, p) {
      FilterConcat(net.nodes[p].children, [net.next], Ids(bound));
      assert FilterChildren([net.next], Ids(bound)) == [];
      assert net.nodes[p].children + [] == net.nodes[p].children;
    }
  }

  /** Relinking moves nothing but the NCC itself. */
  lemma LinkNccOrder(net: Net, ncc: NodeId, bound: NodeId)
    requires bound <= ncc && bound <= net.next
    ensures OrderKept(net, LinkNcc(net, ncc), bound)
  {
    var after := LinkNcc(net, ncc);
    forall p | p in net.nodes && p < bound ensures ChildrenKept(net, after, bound, p) {
      if after.nodes[p] != net.nodes[p] {
        RelinkedFilter(net.nodes[p].children, ncc, net.nodes[ncc].kind.partner, PureDoubleNegation(net, ncc), Ids(bound));
      }
    }
  }

  lemma RelinkedFilter(children: seq<NodeId>, ncc: NodeId, partner: NodeId, pure: bool, keep: set<NodeId>)
    requires ncc !in keep
    ensures FilterChildren(RelinkedChildren(children, ncc, partner, pure), keep) == FilterChildren(children, keep)
  {
    var others := Without(children, ncc);
    var second := if |others| == 0 then 0 else |others| - 1;
    FilterInserted(others, if pure then FirstInRange(others, ncc, partner, second) else second, ncc, keep);
    FilterWithout(children, ncc, keep);
  }

  lemma OpenNccOrder(net: Net, parent: NodeId, bound: NodeId)
    requires bound <= net.next
    ensures OrderKept(net, OpenNcc(net, parent), bound)
  {
    var ready := PushMemory(EnableRanks(AllocateNccMemory(net), parent));
    SameNodesOrder(net, ready, bound);
    AddNodeOrder(ready, Ncc(net.root, |net.nccMemories|), parent, |net.memories|, bound);
    OrderKeptTransitive(net, ready, OpenNcc(net, parent), bound);
  }

  lemma PartnerSetOrder(net: Net, ncc: NodeId, partner: NodeId, bound: NodeId)
    requires bound <= net.next
    ensures OrderKept(net, SetNccPartner(net, ncc, partner), bound)
  {
  }

  lemma RegisteredOrder(net: Net, ncc: NodeId, nested: bool, bound: NodeId)
    requires bound <= net.next
    ensures OrderKept(net, RegisterWait(net, ncc, nested), bound)
  {
  }

  lemma CloseNccOrder(net: Net, ncc: NodeId, bottom: NodeId, memory: nat, nested: bool, bound: NodeId)
    requires bound <= ncc && bound <= net.next
    ensures OrderKept(net, FinishNcc(CloseNcc(net, ncc, bottom, memory), ncc, nested), bound)
  {
    var grown := AddNccPartner(net, bottom, ncc, memory);
    var closed := CloseNcc(net, ncc, bottom, memory);
    var linked := LinkNcc(closed, ncc);
    AddNodeOrder(net, NccPartner(ncc, memory), bottom, 0, bound);
    PartnerSetOrder(grown, ncc, net.next, bound);
    hide CloseNcc, LinkNcc, RegisterWait, AddNccPartner, OrderKept;
    LinkNccOrder(closed, ncc, bound);
    assert linked.next == closed.next;
    RegisteredOrder(linked, ncc, nested, bound);
    OrderKeptTransitive(net, grown, closed, bound);
    OrderKeptTransitive(net, closed, linked, bound);
    OrderKeptTransitive(net, linked, RegisterWait(linked, ncc, nested), bound);
  }

  /** A step that adds one node, whatever else it records. */
  lemma PushedOrder(net: Net, after: Net, kind: Kind, parent: NodeId, bound: NodeId)
    requires bound <= net.next
    requires after.next == net.next + 1 && after.nodes == AddNode(PushMemory(net), kind, parent, |net.memories|).nodes
    ensures OrderKept(net, after, bound)
  {
    AddNodeOrder(PushMemory(net), kind, parent, |net.memories|, bound);
    assert forall p :: p in net.nodes && p < bound ==> ChildrenKept(PushMemory(net), after, bound, p);
  }

  lemma PatternOrder(e: Engine, cx: Context, parent: NodeId, p: Pattern, bound: set<Symbol>, first: NodeId)
    requires Registered(p, cx.ids) && first <= e.beta.next
    ensures OrderKept(e.beta, CompilePattern(e, cx, parent, p, bound).0.beta, first)
  {
    var (ea, alpha) := ReadyPattern(e, cx, parent, p, bound);
    SameNodesOrder(e.beta, ea.beta, first);
    ReadiedOrder(ea, cx, parent, p, alpha, bound, first);
    hide OrderKept, AddNegative, AddExists, EnsureJoin;
    OrderKeptTransitive(e.beta, ea.beta, CompilePattern(e, cx, parent, p, bound).0.beta, first);
  }

  lemma ReadiedOrder(ea: Engine, cx: Context, parent: NodeId, p: Pattern, alpha: AlphaMemoryId, bound: set<Symbol>, first: NodeId)
    requires Registered(p, cx.ids) && first <= ea.beta.next
    ensures var tests := JoinTests(p, cx.ids, bound);
      OrderKept(ea.beta,
        if p.negated then AddNegative(ea.beta, parent, alpha, tests, p.sequence)
        else if p.exists_ then AddExists(ea.beta, parent, alpha, tests, p.sequence)
        else EnsureJoin(ea, JoinKey(parent, alpha, tests, Extractions(p.variableSlots, cx.ids, bound), p.sequence)).0.beta, first)
  {
    var net, tests, bindings := ea.beta, JoinTests(p, cx.ids, bound), Extractions(p.variableSlots, cx.ids, bound);
    hide AddNode, OrderKept;
    if p.negated {
      PushedOrder(net, AddNegative(net, parent, alpha, tests, p.sequence), Negative(alpha, tests, p.sequence, |net.negMemories|), parent, first);
    } else if p.exists_ {
      PushedOrder(net, AddExists(net, parent, alpha, tests, p.sequence), Exists(alpha, tests, p.sequence, |net.existsMemories|), parent, first);
    } else if JoinKey(parent, alpha, tests, bindings, p.sequence) in ea.joinCache {
      SameNodesOrder(net, net, first);
    } else {
      PushedOrder(net, AddJoin(net, parent, alpha, tests, bindings, p.sequence), Join(alpha, tests, p.sequence, bindings), parent, first);
    }
  }

  lemma {:induction false} OneOrder(e: Engine, cx: Context, parent: NodeId, c: Condition, bound: set<Symbol>, nested: bool, first: NodeId)
    requires RegisteredIn(c, cx.ids) && first <= e.beta.next
    ensures OrderKept(e.beta, CompileOne(e, cx, parent, c, bound, nested).0.beta, first)
    decreases c
  {
    match c
    case PatternCE(p) => PatternOrder(e, cx, parent, p, bound, first);
    case PredicateCE(index) =>
      SameNodesOrder(e.beta, PushMemory(e.beta), first);
      AddNodeOrder(PushMemory(e.beta), Predicate(cx.rule, index), parent, |e.beta.memories|, first);
      OrderKeptTransitive(e.beta, PushMemory(e.beta), AddPredicate(e.beta, parent, cx.rule, index), first);
    case NccCE(subs) =>
      var begun := e.(beta := OpenNcc(e.beta, parent));
      OpenNccOrder(e.beta, parent, first);
      SeqOrder(begun, cx, parent, subs, bound, true, first);
      var (e1, bottom) := CompileSeq(begun, cx, parent, subs, bound, true);
      var after := FinishNcc(CloseNcc(e1.beta, e.beta.next, bottom, |e.beta.nccMemories|), e.beta.next, nested);
      CloseNccOrder(e1.beta, e.beta.next, bottom, |e.beta.nccMemories|, nested, first);
      OrderKeptTransitive(e.beta, begun.beta, e1.beta, first);
      OrderKeptTransitive(e.beta, e1.beta, after, first);
  }

  lemma {:induction false} SeqOrder(e: Engine, cx: Context, parent: NodeId, conditions: seq<Condition>, bound: set<Symbol>, nested: bool,
                                    first: NodeId)
    requires AllRegistered(conditions, cx.ids) && first <= e.beta.next
    ensures OrderKept(e.beta, CompileSeq(e, cx, parent, conditions, bound, nested).0.beta, first)
    decreases conditions
  {
    if conditions == [] {
      SameNodesOrder(e.beta, e.beta, first);
    } else {
      var (e1, n) := CompileOne(e, cx, parent, conditions[0], bound, nested);
      OneOrder(e, cx, parent, conditions[0], bound, nested, first);
      SeqOrder(e1, cx, n, conditions[1..], BoundBy(conditions[0], bound), nested, first);
      OrderKeptTransitive(e.beta, e1.beta, CompileSeq(e, cx, parent, conditions, bound, nested).0.beta, first);
    }
  }

  /** Compiling a rule keeps every older node's older children in their order. */
  lemma CompilationKeepsOrder(e: Engine, cx: Context, conditions: seq<Condition>, salience: int, complexity: nat)
    requires AllRegistered(conditions, cx.ids)
    ensures OrderKept(e.beta, CompileRule(e, cx, conditions, salience, complexity).0.beta, e.beta.next)
  {
    var (e1, n) := CompileSeq(e, cx, e.beta.root, conditions, {}, false);
    SeqOrder(e, cx, e.beta.root, conditions, {}, false, e.beta.next);
    AddNodeOrder(e1.beta, Terminal(cx.rule, salience, complexity % 0x800), n, 0, e.beta.next);
    OrderKeptTransitive(e.beta, e1.beta, CompileRule(e, cx, conditions, salience, complexity).0.beta, e.beta.next);
  }

  // ----- over whole histories -----

  /** `p` has `x` before `y` among its children. */
  predicate OrderedAt(net: Net, p: NodeId, x: NodeId, y: NodeId) {
    p in net.nodes && Before(net.nodes[p].children, x, y)
  }

  /** A step neither loses the counter nor brings an old id back, and orders surviving children as before. */
  ghost predicate StepOrders(a: Net, b: Net, p: NodeId, x: NodeId, y: NodeId) {
    && a.next <= b.next
    && (forall n :: n in b.nodes && n < a.next ==> n in a.nodes)
    && (p in a.nodes && p in b.nodes && x in a.nodes && x in b.nodes && y in a.nodes && y in b.nodes ==>
          (OrderedAt(b, p, x, y) <==> OrderedAt(a, p, x, y)))
  }

  lemma StepKeepsOrder(e: Engine, a: Action, f: Engine, p: NodeId, x: NodeId, y: NodeId)
    requires EngineWf(e, {}) && Step(e, a, f)
    ensures StepOrders(e.beta, f.beta, p, x, y)
  {
    hide EngineWf, CompileRule;
    match a
    case Install(r) => InstallKeepsOrder(e, r, p, x, y);
    case Retire(removed, retained) => RetireKeepsOrder(e, removed, retained, f, p, x, y);
    case DropIndex => SameNodesStepOrders(e.beta, f.beta, p, x, y);
    case RebuildIndex => SameNodesStepOrders(e.beta, f.beta, p, x, y);
  }

  lemma SameNodesStepOrders(a: Net, b: Net, p: NodeId, x: NodeId, y: NodeId)
    requires b.nodes == a.nodes && b.next == a.next
    ensures StepOrders(a, b, p, x, y)
  {
  }

  lemma InstallKeepsOrder(e: Engine, r: Rule, p: NodeId, x: NodeId, y: NodeId)
    requires EngineWf(e, {}) && AllRegistered(r.conditions, r.cx.ids)
    ensures StepOrders(e.beta, Compiled(e, r).0.beta, p, x, y)
  {
    CompilationKeepsOrder(e, r.cx, r.conditions, r.salience, r.complexity);
    InstallationStaysWithinPlan(e, r.cx, r.conditions, r.salience, r.complexity);
    OlderIds(e);
    hide EngineWf, CompileRule;
    GrowthKeepsOrder(e.beta, Compiled(e, r).0.beta, p, x, y);
  }

  lemma GrowthKeepsOrder(a: Net, b: Net, p: NodeId, x: NodeId, y: NodeId)
    requires OrderKept(a, b, a.next) && (forall n :: n in a.nodes ==> n < a.next)
    requires forall n :: n in b.nodes && n < a.next ==> n in a.nodes
    ensures StepOrders(a, b, p, x, y)
  {
    if p in a.nodes && x in a.nodes && y in a.nodes {
      assert ChildrenKept(a, b, a.next, p);
      BeforeFiltered(a.nodes[p].children, Ids(a.next), x, y);
      BeforeFiltered(b.nodes[p].children, Ids(a.next), x, y);
    }
  }

  lemma OlderIds(e: Engine)
    requires EngineWf(e, {})
    ensures forall n :: n in e.beta.nodes ==> n < e.beta.next
  {
  }

  lemma RetireKeepsOrder(e: Engine, removed: set<RuleId>, retained: set<NodeId>, f: Engine, p: NodeId, x: NodeId, y: NodeId)
    requires EngineWf(e, {}) && Step(e, Retire(removed, retained), f)
    ensures StepOrders(e.beta, f.beta, p, x, y)
  {
    RemovedSurvives(e, removed, retained, f);
    if p in f.beta.nodes && x in f.beta.nodes && y in f.beta.nodes {
      assert SameNode(e, f, retained, p);
      BeforeFiltered(e.beta.nodes[p].children, retained, x, y);
    }
  }

  lemma RunStepOrders(engines: seq<Engine>, actions: seq<Action>, k: nat, p: NodeId, x: NodeId, y: NodeId)
    requires Run(engines, actions) && k < |actions|
    ensures StepOrders(engines[k].beta, engines[k + 1].beta, p, x, y)
  {
    RunIsSound(engines, actions, k);
    hide EngineWf;
    assert Step(engines[k], actions[k], engines[k + 1]);
    StepKeepsOrder(engines[k], actions[k], engines[k + 1], p, x, y);
  }

  lemma {:induction false} CounterNeverFalls(engines: seq<Engine>, actions: seq<Action>, i: nat, j: nat)
    requires Run(engines, actions) && i <= j <= |actions|
    ensures engines[i].beta.next <= engines[j].beta.next
    decreases j
  {
    if i < j {
      RunStepOrders(engines, actions, j - 1, 0, 0, 0);
      CounterNeverFalls(engines, actions, i, j - 1);
    }
  }

  lemma RunIdsAreOld(engines: seq<Engine>, actions: seq<Action>, i: nat, j: nat, n: NodeId)
    requires Run(engines, actions) && i <= j <= |actions| && n in engines[i].beta.nodes
    ensures n < engines[j].beta.next
  {
    RunIsSound(engines, actions, i);
    OlderIds(engines[i]);
    CounterNeverFalls(engines, actions, i, j);
  }

  predicate Present(net: Net, p: NodeId, x: NodeId, y: NodeId) { p in net.nodes && x in net.nodes && y in net.nodes }

  /** `p` has `x` before `y` among its children in one net exactly when it does in the other. */
  predicate SameOrder(a: Net, b: Net, p: NodeId, x: NodeId, y: NodeId) {
    OrderedAt(a, p, x, y) <==> OrderedAt(b, p, x, y)
  }

  lemma SurvivorStep(a: Net, b: Net, p: NodeId, x: NodeId, y: NodeId)
    requires StepOrders(a, b, p, x, y) && p < a.next && x < a.next && y < a.next && Present(b, p, x, y)
    ensures Present(a, p, x, y) && SameOrder(a, b, p, x, y)
  {
  }

  lemma SameOrderTransitive(a: Net, b: Net, c: Net, p: NodeId, x: NodeId, y: NodeId)
    requires SameOrder(a, b, p, x, y) && SameOrder(b, c, p, x, y)
    ensures SameOrder(a, c, p, x, y)
  {
  }

  lemma RunSurvivorStep(engines: seq<Engine>, actions: seq<Action>, i: nat, j: nat, p: NodeId, x: NodeId, y: NodeId)
    requires Run(engines, actions) && i <= j < |actions|
    requires Present(engines[i].beta, p, x, y) && Present(engines[j + 1].beta, p, x, y)
    ensures Present(engines[j].beta, p, x, y) && SameOrder(engines[j].beta, engines[j + 1].beta, p, x, y)
  {
    RunIdsAreOld(engines, actions, i, j, p);
    RunIdsAreOld(engines, actions, i, j, x);
    RunIdsAreOld(engines, actions, i, j, y);
    RunStepOrders(engines, actions, j, p, x, y);
    hide StepOrders, OrderedAt, SameOrder;
    SurvivorStep(engines[j].beta, engines[j + 1].beta, p, x, y);
  }

  /** Whatever is installed or retired in between: of two children of a node, both still there, the one that
      was visited first still is. */
  lemma {:induction false} SurvivorsKeepTheirOrder(engines: seq<Engine>, actions: seq<Action>, i: nat, j: nat, p: NodeId, x: NodeId, y: NodeId)
    requires Run(engines, actions) && i <= j <= |actions|
    requires Present(engines[i].beta, p, x, y) && Present(engines[j].beta, p, x, y)
    ensures SameOrder(engines[i].beta, engines[j].beta, p, x, y)
    decreases j
  {
    if i < j {
      hide Run, Present, SameOrder;
      RunSurvivorStep(engines, actions, i, j - 1, p, x, y);
      SurvivorsKeepTheirOrder(engines, actions, i, j - 1, p, x, y);
      SameOrderTransitive(engines[i].beta, engines[j - 1].beta, engines[j].beta, p, x, y);
    }
  }
}
