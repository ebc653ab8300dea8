/** How many ids an installation takes, and which edges of the grown graph it must prime. */
module Planning {
  import opened Syntax
  import opened Sequences
  import opened Network
  import opened WellFormed
  import opened Relink
  import opened Compile
  import opened Waits

  // ----- node demand -----

  /** The planned upper bound on new beta nodes, terminal included. */
  function MaximumNewBetaNodes(conditions: seq<Condition>): nat {
    1 + NodeDemand(conditions)
  }

  function NodeDemand(conditions: seq<Condition>): nat {
    if conditions == [] then 0 else NodeDemandOf(conditions[0]) + NodeDemand(conditions[1..])
  }

  function NodeDemandOf(c: Condition): nat {
    if c.NccCE? then 2 + NodeDemand(c.subconditions) else 1
  }

  /** Positive joins this compilation finds in the cache instead of building. */
  function SharedJoins(e: Engine, cx: Context, parent: NodeId, conditions: seq<Condition>, bound: set<Symbol>, nested: bool): nat
    requires AllRegistered(conditions, cx.ids)
    decreases conditions
  {
    if conditions == [] then 0
    else
      var (e1, n) := CompileOne(e, cx, parent, conditions[0], bound, nested);
      SharedJoinsOf(e, cx, parent, conditions[0], bound)
        + SharedJoins(e1, cx, n, conditions[1..], BoundBy(conditions[0], bound), nested)
  }

  function SharedJoinsOf(e: Engine, cx: Context, parent: NodeId, c: Condition, bound: set<Symbol>): nat
    requires RegisteredIn(c, cx.ids)
    decreases c
  {
    match c
    case PatternCE(p) =>
      var (ea, alpha) := ReadyPattern(e, cx, parent, p, bound);
      var key := JoinKey(parent, alpha, JoinTests(p, cx.ids, bound), Extractions(p.variableSlots, cx.ids, bound), p.sequence);
      if p.Positive() && key in ea.joinCache then 1 else 0
    case PredicateCE(_) => 0
    case NccCE(subs) => SharedJoins(e.(beta := OpenNcc(e.beta, parent)), cx, parent, subs, bound, true)
  }

  /** `b` has exactly the ids of `a` and the `count` ids after them, and no more memories than new nodes. */
  ghost predicate GrewBy(a: Net, b: Net, count: nat) {
    && b.next == a.next + count
    && (forall n :: n in b.nodes <==> n in a.nodes || a.next <= n < b.next)
    && |a.memories| <= |b.memories| <= |a.memories| + count
    && |a.negMemories| <= |b.negMemories| <= |a.negMemories| + count
    && |a.nccMemories| <= |b.nccMemories| <= |a.nccMemories| + count
    && |a.existsMemories| <= |b.existsMemories| <= |a.existsMemories| + count
  }

  lemma {:induction false} DemandOf(e: Engine, cx: Context, parent: NodeId, c: Condition, bound: set<Symbol>, nested: bool)
    requires RegisteredIn(c, cx.ids)
    ensures SharedJoinsOf(e, cx, parent, c, bound) <= NodeDemandOf(c)
    ensures GrewBy(e.beta, CompileOne(e, cx, parent, c, bound, nested).0.beta, NodeDemandOf(c) - SharedJoinsOf(e, cx, parent, c, bound))
    decreases c
  {
    match c
    case PatternCE(p) => PatternDemand(e, cx, parent, p, bound);
    case PredicateCE(_) =>
    case NccCE(subs) =>
      var begun := e.(beta := OpenNcc(e.beta, parent));
      OpenDemand(e.beta, parent);
      Demand(begun, cx, parent, subs, bound, true);
      var (e1, bottom) := CompileSeq(begun, cx, parent, subs, bound, true);
      CloseDemand(e1.beta, e.beta.next, bottom, |e.beta.nccMemories|, nested);
  }

  lemma PatternDemand(e: Engine, cx: Context, parent: NodeId, p: Pattern, bound: set<Symbol>)
    requires Registered(p, cx.ids)
    ensures GrewBy(e.beta, CompilePattern(e, cx, parent, p, bound).0.beta, 1 - SharedJoinsOf(e, cx, parent, PatternCE(p), bound))
  {
    var (ea, alpha) := ReadyPattern(e, cx, parent, p, bound);
    ReadyDemand(e, cx, parent, p, bound);
    var net, tests := ea.beta, JoinTests(p, cx.ids, bound);
    hide ReadyPattern, AddJoin, AddNegative, AddExists, JoinTests, Extractions;
    if p.negated {
      NegativeDemand(net, parent, alpha, tests, p.sequence);
    } else if p.exists_ {
      ExistsDemand(net, parent, alpha, tests, p.sequence);
    } else {
      JoinDemand(net, parent, alpha, tests, Extractions(p.variableSlots, cx.ids, bound), p.sequence);
    }
  }

  lemma ReadyDemand(e: Engine, cx: Context, parent: NodeId, p: Pattern, bound: set<Symbol>)
    requires Registered(p, cx.ids)
    ensures GrewBy(e.beta, ReadyPattern(e, cx, parent, p, bound).0.beta, 0)
  {
  }

  lemma NegativeDemand(net: Net, parent: NodeId, alpha: AlphaMemoryId, tests: seq<JoinTest>, sequence: Option<SequencePlan>)
    ensures GrewBy(net, AddNegative(net, parent, alpha, tests, sequence), 1)
  {
  }

  lemma ExistsDemand(net: Net, parent: NodeId, alpha: AlphaMemoryId, tests: seq<JoinTest>, sequence: Option<SequencePlan>)
    ensures GrewBy(net, AddExists(net, parent, alpha, tests, sequence), 1)
  {
  }

  lemma JoinDemand(net: Net, parent: NodeId, alpha: AlphaMemoryId, tests: seq<JoinTest>, bindings: seq<(SlotIndex, VarId)>,
                   sequence: Option<SequencePlan>)
    ensures GrewBy(net, AddJoin(net, parent, alpha, tests, bindings, sequence), 1)
  {
  }

  lemma OpenDemand(net: Net, parent: NodeId)
    ensures GrewBy(net, OpenNcc(net, parent), 1)
  {
  }

  lemma CloseDemand(net: Net, ncc: NodeId, bottom: NodeId, memory: nat, nested: bool)
    ensures GrewBy(net, FinishNcc(CloseNcc(net, ncc, bottom, memory), ncc, nested), 1)
  {
    var closed := CloseNcc(net, ncc, bottom, memory);
    assert GrewBy(net, closed, 1);
    assert GrewBy(closed, LinkNcc(closed, ncc), 0);
  }

  lemma {:induction false} Demand(e: Engine, cx: Context, parent: NodeId, conditions: seq<Condition>, bound: set<Symbol>, nested: bool)
    requires AllRegistered(conditions, cx.ids)
    ensures SharedJoins(e, cx, parent, conditions, bound, nested) <= NodeDemand(conditions)
    ensures GrewBy(e.beta, CompileSeq(e, cx, parent, conditions, bound, nested).0.beta,
                   NodeDemand(conditions) - SharedJoins(e, cx, parent, conditions, bound, nested))
    decreases conditions
  {
    if conditions != [] {
      var (e1, n) := CompileOne(e, cx, parent, conditions[0], bound, nested);
      DemandOf(e, cx, parent, conditions[0], bound, nested);
      Demand(e1, cx, n, conditions[1..], BoundBy(conditions[0], bound), nested);
    }
  }

  function SharedInRule(e: Engine, cx: Context, conditions: seq<Condition>): nat
    requires AllRegistered(conditions, cx.ids)
  {
    SharedJoins(e, cx, e.beta.root, conditions, {}, false)
  }

  /** The plan's bound is met, exactly when no join is shared; every id in the allotted range is used,
      and no memory table grows by more than the same bound. */
  lemma InstallationStaysWithinPlan(e: Engine, cx: Context, conditions: seq<Condition>, salience: int, complexity: nat)
    requires AllRegistered(conditions, cx.ids)
    ensures var after := CompileRule(e, cx, conditions, salience, complexity).0.beta;
      && SharedInRule(e, cx, conditions) < MaximumNewBetaNodes(conditions)
      && GrewBy(e.beta, after, MaximumNewBetaNodes(conditions) - SharedInRule(e, cx, conditions))
      && after.next <= e.beta.next + MaximumNewBetaNodes(conditions)
      && (after.next == e.beta.next + MaximumNewBetaNodes(conditions) <==> SharedInRule(e, cx, conditions) == 0)
  {
    Demand(e, cx, e.beta.root, conditions, {}, false);
  }

  // ----- batches -----

  /** What a batch of plans may need: the sum of what each may need. */
  function BatchDemand(rules: seq<Rule>): nat {
    if rules == [] then 0
    else BatchDemand(rules[..|rules| - 1]) + MaximumNewBetaNodes(rules[|rules| - 1].conditions)
  }

  lemma {:induction false} DemandOfPrefix(rules: seq<Rule>, k: nat)
    requires k <= |rules|
    ensures BatchDemand(rules[..k]) <= BatchDemand(rules)
    decreases |rules|
  {
    if k == |rules| {
      assert rules[..k] == rules;
    } else {
      assert rules[..|rules| - 1][..k] == rules[..k];
      DemandOfPrefix(rules[..|rules| - 1], k);
    }
  }

  /** Joins shared while the batch is installed, with older rules or within the batch. */
  function SharedInBatch(e: Engine, rules: seq<Rule>): nat
    requires BatchRegistered(rules)
  {
    if rules == [] then 0
    else
      var before, last := rules[..|rules| - 1], rules[|rules| - 1];
      SharedInBatch(e, before) + SharedInRule(CompileBatch(e, before).0, last.cx, last.conditions)
  }

  lemma GrowthAdds(a: Net, b: Net, c: Net, first: nat, second: nat)
    requires GrewBy(a, b, first) && GrewBy(b, c, second)
    ensures GrewBy(a, c, first + second)
  {
  }

  /** A batch checked against its summed demand stays within it, however its rules share joins with each other and
      with older ones; the sum is used up exactly when nothing is shared. */
  lemma {:induction false} BatchStaysWithinPlan(e: Engine, rules: seq<Rule>)
    requires BatchRegistered(rules)
    ensures SharedInBatch(e, rules) <= BatchDemand(rules)
    ensures var after := CompileBatch(e, rules).0.beta;
      && GrewBy(e.beta, after, BatchDemand(rules) - SharedInBatch(e, rules))
      && after.next <= e.beta.next + BatchDemand(rules)
      && (after.next == e.beta.next + BatchDemand(rules) <==> SharedInBatch(e, rules) == 0)
  {
    if rules != [] {
      var before, last := rules[..|rules| - 1], rules[|rules| - 1];
      var e1 := CompileBatch(e, before).0;
      BatchStaysWithinPlan(e, before);
      InstallationStaysWithinPlan(e1, last.cx, last.conditions, last.salience, last.complexity);
      hide SharedInRule, MaximumNewBetaNodes, CompileRule;
      GrowthAdds(e.beta, e1.beta, Compiled(e1, last).0.beta, BatchDemand(before) - SharedInBatch(e, before),
                 MaximumNewBetaNodes(last.conditions) - SharedInRule(e1, last.cx, last.conditions));
    }
  }

  // ----- the installation frontier -----

  /** Old parent, new child: the edges an online installation has to prime, in id order. */
  function FrontierFrom(net: Net, first: NodeId, from: NodeId): seq<(NodeId, NodeId)>
    decreases net.next - from
  {
    if from >= net.next then []
    else
      (if from in net.nodes && !net.nodes[from].kind.Root? && net.nodes[from].parent < first
       then [(net.nodes[from].parent, from)] else [])
      + FrontierFrom(net, first, from + 1)
  }

  /** The frontier is exactly the set of edges from an old parent to a new child, oldest child first. */
  lemma {:induction false} FrontierIsExact(net: Net, first: NodeId, from: NodeId)
    requires TreeOk(net)
    ensures forall p, c :: (p, c) in FrontierFrom(net, first, from) <==>
              c in net.nodes && from <= c && !net.nodes[c].kind.Root? && net.nodes[c].parent == p && p < first
    ensures forall i, j :: 0 <= i < j < |FrontierFrom(net, first, from)| ==>
              FrontierFrom(net, first, from)[i].1 < FrontierFrom(net, first, from)[j].1
    decreases net.next - from
  {
    if from < net.next {
      FrontierIsExact(net, first, from + 1);
      var rest, all := FrontierFrom(net, first, from + 1), FrontierFrom(net, first, from);
      if |all| > |rest| {
        assert all == [(net.nodes[from].parent, from)] + rest;
        forall j | 1 <= j < |all| ensures from < all[j].1 {
          assert all[j] == rest[j - 1] && (all[j].0, all[j].1) in rest;
        }
      }
    }
  }

  /** The frontier child above a new node. */
  function FrontierChild(net: Net, first: NodeId, n: NodeId): NodeId
    requires Older(net.nodes) && n in net.nodes && !net.nodes[n].kind.Root?
    requires forall m :: m in net.nodes && m >= first ==> !net.nodes[m].kind.Root?
    decreases n
  {
    if net.nodes[n].parent < first then n else FrontierChild(net, first, net.nodes[n].parent)
  }

  /** Priming reaches everything once: each new node hangs below exactly one frontier child. */
  lemma {:induction false} FrontierReaches(net: Net, first: NodeId, n: NodeId)
    requires Older(net.nodes) && n in net.nodes && first <= n
    requires forall m :: m in net.nodes && m >= first ==> !net.nodes[m].kind.Root?
    ensures var c := FrontierChild(net, first, n);
      && c in net.nodes && first <= c && net.nodes[c].parent < first && OnPath(net.nodes, c, n)
      && (forall x :: OnPath(net.nodes, c, x) && OnPath(net.nodes, x, n) ==> first <= x)
      && (forall d :: d in net.nodes && first <= d && net.nodes[d].parent < first && OnPath(net.nodes, d, n) ==> d == c)
    decreases n
  {
    var c := FrontierChild(net, first, n);
    if net.nodes[n].parent >= first {
      FrontierReaches(net, first, net.nodes[n].parent);
    } else {
      forall d | d in net.nodes && first <= d && OnPath(net.nodes, d, n) ensures d == n {
        if d != n { OnPathDown(net.nodes, d, net.nodes[n].parent); }
      }
    }
    forall x | OnPath(net.nodes, c, x) && OnPath(net.nodes, x, n) ensures first <= x {
      OnPathDown(net.nodes, c, x);
    }
  }
}
