/** Whole histories of an engine: rules installed and retired in any order, the derived index dropped and rebuilt. */
module Runs {
  import opened Syntax
  import opened Sequences
  import opened Network
  import opened WellFormed
  import opened Compile
  import opened Meaning
  import opened Waits
  import opened Removal
  import opened RemovalMeaning
  import opened Subscriptions
  import opened Readiness

  datatype Action =
    | Install(rule: Rule)
    | Retire(removed: set<RuleId>, retained: set<NodeId>)
    | DropIndex
    | RebuildIndex

  predicate Installable(r: Rule) {
    Accepted(r.conditions) && AllRegistered(r.conditions, r.cx.ids) && Injective(r.cx.ids)
  }

  ghost predicate Step(e: Engine, a: Action, f: Engine) {
    match a
    case Install(r) => Installable(r) && f == Compiled(e, r).0
    case Retire(removed, retained) =>
      MemoriesOk(e.beta) && AlphaIdsOk(e) && AlphaCacheOk(e) && IsRetained(e.beta, removed, retained) && RemovedTo(e, retained, f)
    case DropIndex => f == e.(beta := e.beta.(waits := None))
    case RebuildIndex => f == if e.beta.waits.Some? then e else e.(beta := e.beta.(waits := Some(RebuiltWaits(e.beta))))
  }

  /** `engines[i]` becomes `engines[i + 1]` by `actions[i]`, from the empty engine on. */
  ghost predicate Run(engines: seq<Engine>, actions: seq<Action>) {
    && |engines| == |actions| + 1
    && (exists root :: engines[0] == EmptyEngine(root))
    && forall i :: 0 <= i < |actions| ==> Step(engines[i], actions[i], engines[i + 1])
  }

  ghost predicate Sound(e: Engine) {
    EngineWf(e, {}) && WaitsOk(e.beta) && ChainsOk(e.beta) && Tidy(e.beta) && Ready(e.beta)
  }

  lemma EmptyIsSound(root: NodeId)
    ensures Sound(EmptyEngine(root))
  {
    var net := EmptyNet(root);
    forall n | n in net.nodes && WaitOf(net, n).Some? ensures false {}
    assert RebuiltWaits(net) == map[];
    NoSubscribers(net.nodes, root + 1);
  }

  lemma NoSubscribers(nodes: map<NodeId, BetaNode>, bound: NodeId)
    requires forall n :: n in nodes ==> nodes[n].kind.Root?
    ensures forall role :: ListsReaders(map[], nodes, role, bound)
  {
    forall role, alpha ensures ListsAt(map[], nodes, role, bound, alpha) {}
  }

  /** Neither the graph nor the caches depend on whether the wait index is present. */
  lemma IndexIsDerived(e: Engine, waits: Option<map<NodeId, NccEntryWait>>)
    requires EngineWf(e, {}) && ChainsOk(e.beta) && Tidy(e.beta) && Ready(e.beta)
    requires waits.Some? ==> waits.value == RebuiltWaits(e.beta)
    ensures Sound(e.(beta := e.beta.(waits := waits)))
  {
    hide EngineWf, ChainsOk, RebuiltWaits, Ready;
    SameReadersTidy(e.beta, e.beta.(waits := waits));
    StaysReadyWithoutIndex(e.beta, waits);
    SameEngine(e, waits);
    SameChains(e.beta, e.beta.(waits := waits));
    SameRebuilt(e.beta, e.beta.(waits := waits));
  }

  lemma StaysReadyWithoutIndex(net: Net, waits: Option<map<NodeId, NccEntryWait>>)
    requires Ready(net)
    ensures Ready(net.(waits := waits))
  {
    forall n | n in net.nodes ensures NodeReady(net.(waits := waits), n) { assert NodeReady(net, n); }
  }

  lemma SameEngine(e: Engine, waits: Option<map<NodeId, NccEntryWait>>)
    requires EngineWf(e, {})
    ensures EngineWf(e.(beta := e.beta.(waits := waits)), {})
  {
    var f := e.(beta := e.beta.(waits := waits));
    SameNodesWf(e.beta, f.beta, {});
    forall k | k in f.joinCache ensures CachedJoin(f, k) { assert CachedJoin(e, k); }
    forall n | n in f.beta.nodes && f.beta.nodes[n].kind.Join? ensures IsCached(f, n) { assert IsCached(e, n); }
  }

  lemma SameChains(a: Net, b: Net)
    requires a.nodes == b.nodes && ChainsOk(a)
    ensures ChainsOk(b)
  {
  }

  lemma SameRebuilt(a: Net, b: Net)
    requires a.nodes == b.nodes
    ensures RebuiltWaits(a) == RebuiltWaits(b)
  {
    forall n ensures WaitOf(a, n) == WaitOf(b, n) { SameWait(a, b, n); }
  }

  lemma SameWait(a: Net, b: Net, n: NodeId)
    requires a.nodes == b.nodes
    ensures WaitOf(a, n) == WaitOf(b, n)
  {
  }

  lemma StepKeepsSound(e: Engine, a: Action, f: Engine)
    requires Sound(e) && Step(e, a, f)
    ensures Sound(f)
  {
    match a
    case Install(r) =>
      CompileRuleOk(e, r.cx, r.conditions, r.salience, r.complexity);
      CompilationKeepsIndex(e, r.cx, r.conditions, r.salience, r.complexity);
      CompilationKeepsChains(e, r.cx, r.conditions, r.salience, r.complexity);
      CompilationKeepsSubscribers(e, r.cx, r.conditions, r.salience, r.complexity);
      CompilationKeepsReady(e, r.cx, r.conditions, r.salience, r.complexity);
    case Retire(removed, retained) =>
      RemovalKeepsEngine(e, removed, retained, f);
      RemovalKeepsIndex(e, removed, retained, f);
      RemovalKeepsChains(e, removed, retained, f);
      RemovalKeepsSubscribers(e, retained, f);
      RemovalKeepsReady(e, removed, retained, f);
    case DropIndex => IndexIsDerived(e, None);
    case RebuildIndex => IndexIsDerived(e, if e.beta.waits.Some? then e.beta.waits else Some(RebuiltWaits(e.beta)));
  }

  /** Every reachable engine is well formed, its wait index, when present, is the rebuilt one, and its subscriber
      lists are exact. */
  lemma {:induction false} RunIsSound(engines: seq<Engine>, actions: seq<Action>, i: nat)
    requires Run(engines, actions) && i <= |actions|
    ensures Sound(engines[i])
  {
    if i == 0 {
      var root :| engines[0] == EmptyEngine(root);
      EmptyIsSound(root);
    } else {
      RunIsSound(engines, actions, i - 1);
      StepKeepsSound(engines[i - 1], actions[i - 1], engines[i]);
    }
  }

  // ----- what an installed rule means for as long as it stays -----

  /** `t` is the rule's terminal, below a node that stands for the rule's own term. */
  ghost predicate Carries(e: Engine, t: NodeId, r: Rule)
    requires AllRegistered(r.conditions, r.cx.ids)
  {
    && t in e.beta.nodes && e.beta.nodes[t].kind == Terminal(r.cx.rule, r.salience, r.complexity % 0x800)
    && Represents(e.paths, e.beta.nodes, e.beta.nodes[t].parent, TermOf(r.cx, r.conditions, Start, {}))
  }

  lemma StepKeepsTerminal(e: Engine, a: Action, f: Engine, t: NodeId, r: Rule)
    requires Sound(e) && Step(e, a, f) && AllRegistered(r.conditions, r.cx.ids) && Carries(e, t, r)
    requires a.Retire? ==> r.cx.rule !in a.removed
    ensures Carries(f, t, r)
  {
    var up, term := e.beta.nodes[t].parent, TermOf(r.cx, r.conditions, Start, {});
    match a
    case Install(other) =>
      CompileRuleOk(e, other.cx, other.conditions, other.salience, other.complexity);
      ExtendedRepresents(e, f, up, term);
      assert f.beta.nodes[t].Core() == e.beta.nodes[t].Core();
    case Retire(removed, retained) =>
      RemovedSurvives(e, removed, retained, f);
      assert Seed(e.beta, removed, t) && t in retained && NeedsIn(e.beta.nodes, t, retained) && SameNode(e, f, retained, t);
      TermSurvives(e, retained, f, up, term);
    case DropIndex =>
    case RebuildIndex =>
  }

  predicate StaysInstalled(actions: seq<Action>, from: nat, to: nat, rule: RuleId) {
    forall k :: from <= k < to && k < |actions| && actions[k].Retire? ==> rule !in actions[k].removed
  }

  lemma {:induction false} TerminalPersists(engines: seq<Engine>, actions: seq<Action>, i: nat, j: nat, r: Rule)
    requires Run(engines, actions) && i < j <= |actions| && actions[i] == Install(r) && StaysInstalled(actions, i + 1, j, r.cx.rule)
    ensures Installable(r) && Carries(engines[j], Compiled(engines[i], r).1, r)
  {
    assert Step(engines[i], actions[i], engines[i + 1]);
    if j == i + 1 {
      RunIsSound(engines, actions, i);
      CompileRuleOk(engines[i], r.cx, r.conditions, r.salience, r.complexity);
    } else {
      TerminalPersists(engines, actions, i, j - 1, r);
      RunIsSound(engines, actions, j - 1);
      StepKeepsTerminal(engines[j - 1], actions[j - 1], engines[j], Compiled(engines[i], r).1, r);
    }
  }

  /** In every history, from its installation until it is retired, a rule's terminal is there and matches
      exactly the fact tuples its conditions ask for, over every set of facts, whatever other rules were
      installed, shared with, retired or compacted meanwhile. */
  lemma InstalledRuleMeansItsConditions(engines: seq<Engine>, actions: seq<Action>, i: nat, j: nat, r: Rule, w: World, m: seq<Choice>)
    requires Run(engines, actions) && i < j <= |actions| && actions[i] == Install(r) && StaysInstalled(actions, i + 1, j, r.cx.rule)
    requires Coherent(w)
    ensures AllRegistered(r.conditions, r.cx.ids)
    ensures var t := Compiled(engines[i], r).1;
      && t in engines[j].beta.nodes && engines[j].beta.nodes[t].kind == Terminal(r.cx.rule, r.salience, r.complexity % 0x800)
      && (Denotes(w, engines[j], engines[j].beta.nodes[t].parent, m) <==> Holds(w, r.cx.rule, r.conditions, [], [], m))
  {
    TerminalPersists(engines, actions, i, j, r);
    var t := Compiled(engines[i], r).1;
    TermMeaning(r.cx, r.conditions, w, m);
    TermDecidesDenotation(w, engines[j], engines[j].beta.nodes[t].parent, TermOf(r.cx, r.conditions, Start, {}), m);
  }

  /** A retired rule has no terminal left. */
  lemma RetiredRuleIsGone(engines: seq<Engine>, actions: seq<Action>, i: nat, t: NodeId)
    requires Run(engines, actions) && i < |actions| && actions[i].Retire?
    requires t in engines[i + 1].beta.nodes && engines[i + 1].beta.nodes[t].kind.Terminal?
    ensures engines[i + 1].beta.nodes[t].kind.rule !in actions[i].removed
  {
    RunIsSound(engines, actions, i);
    assert Step(engines[i], actions[i], engines[i + 1]);
    RemovedSurvives(engines[i], actions[i].removed, actions[i].retained, engines[i + 1]);
    RetainedKinds(engines[i].beta, actions[i].removed, actions[i].retained);
    assert SameNode(engines[i], engines[i + 1], actions[i].retained, t);
  }

  lemma IndexOfRun(engines: seq<Engine>, actions: seq<Action>, i: nat)
    requires Run(engines, actions) && i <= |actions|
    ensures IndexTells(engines[i].beta)
  {
    RunIsSound(engines, actions, i);
    ExactIndexTells(engines[i].beta, {});
  }

  /** In every reachable engine each NCC has a subnetwork entry, a child of its own parent on the way down to its partner.
      A present wait index lists the NCC exactly when it feeds an enclosing subnetwork or is a pure double negation, with
      that entry, and marked as nested exactly when it feeds. */
  lemma EveryNccHasEntry(engines: seq<Engine>, actions: seq<Action>, i: nat, ncc: NodeId)
    requires Run(engines, actions) && i <= |actions|
    requires ncc in engines[i].beta.nodes && engines[i].beta.nodes[ncc].kind.Ncc?
    ensures var net := engines[i].beta;
      && SubnetworkEntry(net, ncc).Some?
      && EntryOnPath(net.nodes, SubnetworkEntry(net, ncc).value, net.nodes[ncc].kind.partner, net.nodes[ncc].parent)
      && (net.waits.Some? ==> (ncc in net.waits.value <==> Feeds(net.nodes, ncc) || PureDoubleNegation(net, ncc)))
      && (net.waits.Some? && ncc in net.waits.value ==>
            && (net.waits.value[ncc].nested <==> Feeds(net.nodes, ncc))
            && EntryOnPath(net.nodes, net.waits.value[ncc].entry, net.nodes[ncc].kind.partner, net.nodes[ncc].parent))
  {
    RunIsSound(engines, actions, i);
    hide EngineWf;
    FinishedHasEntry(engines[i].beta, ncc);
    IndexOfRun(engines, actions, i);
    assert engines[i].beta.waits.Some? && ncc in engines[i].beta.waits.value ==> WaitTells(engines[i].beta, ncc, engines[i].beta.waits.value[ncc]);
  }
}
