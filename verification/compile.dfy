/** The rule compiler as a function on the engine's graph and caches, and the term each
    compiled node stands for. */
module Compile {
  import opened Syntax
  import opened Sequences
  import opened Network
  import opened WellFormed
  import opened Relink

  type VarIds = map<Symbol, VarId>

  /** The structural identity of a positive join. */
  datatype JoinKey = JoinKey(parent: NodeId, alpha: AlphaMemoryId, tests: seq<JoinTest>,
                             bindings: seq<(SlotIndex, VarId)>, sequence: Option<SequencePlan>)

  /** The compiler's view: the path of each alpha memory, the beta graph and both sharing caches. */
  datatype Engine = Engine(paths: seq<AlphaPathKey>, beta: Net,
                           alphaCache: map<AlphaPathKey, AlphaMemoryId>, joinCache: map<JoinKey, NodeId>)

  function EmptyEngine(root: NodeId): Engine {
    Engine([], EmptyNet(root), map[], map[])
  }

  /** What stays fixed while one rule is compiled. */
  datatype Context = Context(rule: RuleId, ids: VarIds)

  function PathKey(p: Pattern): AlphaPathKey {
    AlphaPathKey(p.entry, p.constantTests +
      if p.sequence.Some? && p.sequence.value.tests != []
      then [ConstantTest(Ordered(0), Sequence(p.sequence.value))]
      else [])
  }

  predicate Registered(p: Pattern, ids: VarIds) {
    && (forall k :: 0 <= k < |p.variableSlots| ==> p.variableSlots[k].1 in ids)
    && (forall k :: 0 <= k < |p.negatedVariableSlots| ==> p.negatedVariableSlots[k].1 in ids)
  }

  predicate AllRegistered(conditions: seq<Condition>, ids: VarIds) {
    conditions == [] || (RegisteredIn(conditions[0], ids) && AllRegistered(conditions[1..], ids))
  }

  predicate RegisteredIn(c: Condition, ids: VarIds) {
    match c
    case PatternCE(p) => Registered(p, ids)
    case PredicateCE(_) => true
    case NccCE(subs) => AllRegistered(subs, ids)
  }

  /** Equality tests for the variables already bound, in slot order. */
  function EqualityTests(slots: seq<(SlotIndex, Symbol)>, ids: VarIds, bound: set<Symbol>): seq<JoinTest>
    requires forall k :: 0 <= k < |slots| ==> slots[k].1 in ids
  {
    if slots == [] then []
    else (if slots[0].1 in bound then [JoinTest(slots[0].0, ids[slots[0].1], EQUAL)] else [])
         + EqualityTests(slots[1..], ids, bound)
  }

  /** Binding extractions for the variables not bound yet, in slot order. */
  function Extractions(slots: seq<(SlotIndex, Symbol)>, ids: VarIds, bound: set<Symbol>): seq<(SlotIndex, VarId)>
    requires forall k :: 0 <= k < |slots| ==> slots[k].1 in ids
  {
    if slots == [] then []
    else (if slots[0].1 in bound then [] else [(slots[0].0, ids[slots[0].1])])
         + Extractions(slots[1..], ids, bound)
  }

  function ComparisonTests(slots: seq<(SlotIndex, Symbol, JoinTestType)>, ids: VarIds): seq<JoinTest>
    requires forall k :: 0 <= k < |slots| ==> slots[k].1 in ids
  {
    if slots == [] then []
    else [JoinTest(slots[0].0, ids[slots[0].1], slots[0].2)] + ComparisonTests(slots[1..], ids)
  }

  function JoinTests(p: Pattern, ids: VarIds, bound: set<Symbol>): seq<JoinTest>
    requires Registered(p, ids)
  {
    EqualityTests(p.variableSlots, ids, bound) + ComparisonTests(p.negatedVariableSlots, ids)
  }

  /** Only positive patterns bind variables for what follows. */
  function BoundBy(c: Condition, bound: set<Symbol>): set<Symbol> {
    if c.PatternCE? && c.pattern.Positive()
    then bound + set k | 0 <= k < |c.pattern.variableSlots| :: c.pattern.variableSlots[k].1
    else bound
  }

  // ----- sharing -----

  function EnsureAlpha(e: Engine, p: Pattern): (Engine, AlphaMemoryId) {
    var key := PathKey(p);
    if key in e.alphaCache then (e, e.alphaCache[key])
    else (e.(paths := e.paths + [key], alphaCache := e.alphaCache[key := |e.paths|]), |e.paths|)
  }

  function EnsureJoin(e: Engine, key: JoinKey): (Engine, NodeId) {
    if key in e.joinCache then (e, e.joinCache[key])
    else (e.(beta := AddJoin(e.beta, key.parent, key.alpha, key.tests, key.bindings, key.sequence),
             joinCache := e.joinCache[key := e.beta.next]), e.beta.next)
  }

  // ----- the compiler -----

  /** A pattern's alpha memory, and the parent's memory indexed by what the pattern will select with. */
  function ReadyPattern(e: Engine, cx: Context, parent: NodeId, p: Pattern, bound: set<Symbol>): (Engine, AlphaMemoryId)
    requires Registered(p, cx.ids)
  {
    var (e1, alpha) := EnsureAlpha(e, p);
    (e1.(beta := RequestVars(e1.beta, parent, IndexableTests(JoinTests(p, cx.ids, bound), p.sequence))), alpha)
  }

  function CompilePattern(e: Engine, cx: Context, parent: NodeId, p: Pattern, bound: set<Symbol>): (Engine, NodeId)
    requires Registered(p, cx.ids)
  {
    var (e1, alpha) := ReadyPattern(e, cx, parent, p, bound);
    var tests := JoinTests(p, cx.ids, bound);
    if p.negated then
      (e1.(beta := AddNegative(e1.beta, parent, alpha, tests, p.sequence)), e1.beta.next)
    else if p.exists_ then
      (e1.(beta := AddExists(e1.beta, parent, alpha, tests, p.sequence)), e1.beta.next)
    else
      EnsureJoin(e1, JoinKey(parent, alpha, tests, Extractions(p.variableSlots, cx.ids, bound), p.sequence))
  }

  function CompileOne(e: Engine, cx: Context, parent: NodeId, c: Condition, bound: set<Symbol>, nested: bool)
    : (Engine, NodeId)
    requires RegisteredIn(c, cx.ids)
    decreases c
  {
    match c
    case PatternCE(p) => CompilePattern(e, cx, parent, p, bound)
    case PredicateCE(index) => (e.(beta := AddPredicate(e.beta, parent, cx.rule, index)), e.beta.next)
    case NccCE(subs) =>
      var ncc := e.beta.next;
      var (e1, bottom) := CompileSeq(e.(beta := OpenNcc(e.beta, parent)), cx, parent, subs, bound, true);
      var closed := CloseNcc(e1.beta, ncc, bottom, |e.beta.nccMemories|);
      (e1.(beta := FinishNcc(closed, ncc, nested)), ncc)
  }

  /** `nested` tells whether the conditions form the subnetwork of an enclosing NCC. */
  function CompileSeq(e: Engine, cx: Context, parent: NodeId, conditions: seq<Condition>, bound: set<Symbol>,
                      nested: bool): (Engine, NodeId)
    requires AllRegistered(conditions, cx.ids)
    decreases conditions
  {
    if conditions == [] then (e, parent)
    else
      var (e1, n) := CompileOne(e, cx, parent, conditions[0], bound, nested);
      CompileSeq(e1, cx, n, conditions[1..], BoundBy(conditions[0], bound), nested)
  }

  /** One rule: its condition chain from the root, then its terminal. */
  function CompileRule(e: Engine, cx: Context, conditions: seq<Condition>, salience: int, complexity: nat)
    : (Engine, NodeId)
    requires AllRegistered(conditions, cx.ids)
  {
    var (e1, n) := CompileSeq(e, cx, e.beta.root, conditions, {}, false);
    (e1.(beta := AddTerminal(e1.beta, n, cx.rule, salience, complexity)), e1.beta.next)
  }

  /** A rule ready to be installed: its validated conditions and the variable ids prepared for them. */
  datatype Rule = Rule(cx: Context, conditions: seq<Condition>, salience: int, complexity: nat)

  function Compiled(e: Engine, r: Rule): (Engine, NodeId)
    requires AllRegistered(r.conditions, r.cx.ids)
  {
    CompileRule(e, r.cx, r.conditions, r.salience, r.complexity)
  }

  predicate BatchRegistered(rules: seq<Rule>) {
    forall k :: 0 <= k < |rules| ==> AllRegistered(rules[k].conditions, rules[k].cx.ids)
  }

  /** Rules installed one after another, with their terminals. */
  function CompileBatch(e: Engine, rules: seq<Rule>): (Engine, seq<NodeId>)
    requires BatchRegistered(rules)
  {
    if rules == [] then (e, [])
    else
      var (e1, terminals) := CompileBatch(e, rules[..|rules| - 1]);
      var (e2, terminal) := Compiled(e1, rules[|rules| - 1]);
      (e2, terminals + [terminal])
  }

  // ----- terms -----

  /** The chain of operations a node stands for, free of ids and of sharing. */
  datatype Term =
    | Start
    | JoinTerm(up: Term, path: AlphaPathKey, tests: seq<JoinTest>, sequence: Option<SequencePlan>,
               bindings: seq<(SlotIndex, VarId)>)
    | NegativeTerm(up: Term, path: AlphaPathKey, tests: seq<JoinTest>, sequence: Option<SequencePlan>)
    | ExistsTerm(up: Term, path: AlphaPathKey, tests: seq<JoinTest>, sequence: Option<SequencePlan>)
    | PredicateTerm(up: Term, rule: RuleId, index: nat)
    | NccTerm(up: Term, sub: Term)

  /** Node `n` of the graph stands for term `t`. */
  ghost predicate Represents(paths: seq<AlphaPathKey>, nodes: map<NodeId, BetaNode>, n: NodeId, t: Term)
    decreases t
  {
    n in nodes && (
      var node := nodes[n];
      match t
      case Start => node.kind.Root?
      case JoinTerm(up, path, tests, sequence, bindings) =>
        && node.kind.Join? && node.kind.alpha < |paths| && paths[node.kind.alpha] == path
        && node.kind.tests == tests && node.kind.sequence == sequence && node.kind.bindings == bindings
        && Represents(paths, nodes, node.parent, up)
      case NegativeTerm(up, path, tests, sequence) =>
        && node.kind.Negative? && node.kind.alpha < |paths| && paths[node.kind.alpha] == path
        && node.kind.tests == tests && node.kind.sequence == sequence
        && Represents(paths, nodes, node.parent, up)
      case ExistsTerm(up, path, tests, sequence) =>
        && node.kind.Exists? && node.kind.alpha < |paths| && paths[node.kind.alpha] == path
        && node.kind.tests == tests && node.kind.sequence == sequence
        && Represents(paths, nodes, node.parent, up)
      case PredicateTerm(up, rule, index) =>
        && node.kind.Predicate? && node.kind.rule == rule && node.kind.index == index
        && Represents(paths, nodes, node.parent, up)
      case NccTerm(up, sub) =>
        && node.kind.Ncc? && Represents(paths, nodes, node.parent, up)
        && Finished(nodes, n) && Represents(paths, nodes, nodes[node.kind.partner].parent, sub))
  }

  predicate Finished(nodes: map<NodeId, BetaNode>, n: NodeId)
    requires n in nodes && nodes[n].kind.Ncc?
  {
    nodes[n].kind.partner in nodes && nodes[nodes[n].kind.partner].kind.NccPartner?
  }

  /** The term a condition list compiles to below `up`, computed without any graph. */
  function TermOf(cx: Context, conditions: seq<Condition>, up: Term, bound: set<Symbol>): Term
    requires AllRegistered(conditions, cx.ids)
    decreases conditions
  {
    if conditions == [] then up
    else TermOf(cx, conditions[1..], TermOfOne(cx, conditions[0], up, bound), BoundBy(conditions[0], bound))
  }

  function TermOfOne(cx: Context, c: Condition, up: Term, bound: set<Symbol>): Term
    requires RegisteredIn(c, cx.ids)
    decreases c
  {
    match c
    case PatternCE(p) =>
      var tests := JoinTests(p, cx.ids, bound);
      if p.negated then NegativeTerm(up, PathKey(p), tests, p.sequence)
      else if p.exists_ then ExistsTerm(up, PathKey(p), tests, p.sequence)
      else JoinTerm(up, PathKey(p), tests, p.sequence, Extractions(p.variableSlots, cx.ids, bound))
    case PredicateCE(index) => PredicateTerm(up, cx.rule, index)
    case NccCE(subs) => NccTerm(up, TermOf(cx, subs, up, bound))
  }

  /** A node stands for at most one term. */
  lemma {:induction false} RepresentsUnique(paths: seq<AlphaPathKey>, nodes: map<NodeId, BetaNode>, n: NodeId, s: Term, t: Term)
    requires Represents(paths, nodes, n, s) && Represents(paths, nodes, n, t)
    ensures s == t
    decreases s
  {
    match s
    case Start =>
    case JoinTerm(up, _, _, _, _) => RepresentsUnique(paths, nodes, nodes[n].parent, up, t.up);
    case NegativeTerm(up, _, _, _) => RepresentsUnique(paths, nodes, nodes[n].parent, up, t.up);
    case ExistsTerm(up, _, _, _) => RepresentsUnique(paths, nodes, nodes[n].parent, up, t.up);
    case PredicateTerm(up, _, _) => RepresentsUnique(paths, nodes, nodes[n].parent, up, t.up);
    case NccTerm(up, sub) =>
      RepresentsUnique(paths, nodes, nodes[n].parent, up, t.up);
      RepresentsUnique(paths, nodes, nodes[nodes[n].kind.partner].parent, sub, t.sub);
  }

  /** Growth keeps every node that stands for a term: only unfinished NCCs may change. */
  ghost predicate Keeps(a: map<NodeId, BetaNode>, b: map<NodeId, BetaNode>) {
    forall n :: n in a ==> n in b && (b[n].Core() == a[n].Core() || (a[n].kind.Ncc? && !Finished(a, n)))
  }

  lemma {:induction false} RepresentsStable(paths: seq<AlphaPathKey>, a: map<NodeId, BetaNode>,
                                            more: seq<AlphaPathKey>, b: map<NodeId, BetaNode>, n: NodeId, t: Term)
    requires Represents(paths, a, n, t) && paths <= more && Keeps(a, b)
    ensures Represents(more, b, n, t)
    decreases t
  {
    assert b[n].Core() == a[n].Core();
    match t
    case Start =>
    case JoinTerm(up, _, _, _, _) => RepresentsStable(paths, a, more, b, a[n].parent, up);
    case NegativeTerm(up, _, _, _) => RepresentsStable(paths, a, more, b, a[n].parent, up);
    case ExistsTerm(up, _, _, _) => RepresentsStable(paths, a, more, b, a[n].parent, up);
    case PredicateTerm(up, _, _) => RepresentsStable(paths, a, more, b, a[n].parent, up);
    case NccTerm(up, sub) =>
      var p := a[n].kind.partner;
      assert b[p].Core() == a[p].Core();
      RepresentsStable(paths, a, more, b, a[n].parent, up);
      RepresentsStable(paths, a, more, b, a[p].parent, sub);
  }

  // ----- engine invariant -----

  ghost predicate EngineWf(e: Engine, open: set<NodeId>) {
    Wf(e.beta, open) && AlphaIdsOk(e) && AlphaCacheOk(e) && JoinCacheOk(e)
  }

  ghost predicate AlphaIdsOk(e: Engine) {
    forall n :: n in e.beta.nodes && e.beta.nodes[n].ReadsAlpha() ==> e.beta.nodes[n].kind.alpha < |e.paths|
  }

  /** The alpha cache is the inverse of the path table. */
  ghost predicate AlphaCacheOk(e: Engine) {
    && (forall k :: k in e.alphaCache ==> e.alphaCache[k] < |e.paths| && e.paths[e.alphaCache[k]] == k)
    && (forall i :: 0 <= i < |e.paths| ==> e.paths[i] in e.alphaCache && e.alphaCache[e.paths[i]] == i)
  }

  function KeyOf(node: BetaNode): JoinKey
    requires node.kind.Join?
  {
    JoinKey(node.parent, node.kind.alpha, node.kind.tests, node.kind.bindings, node.kind.sequence)
  }

  /** The join cache is the inverse of the joins' structures. */
  ghost predicate JoinCacheOk(e: Engine) {
    && (forall k :: k in e.joinCache ==> CachedJoin(e, k))
    && (forall n :: n in e.beta.nodes && e.beta.nodes[n].kind.Join? ==> IsCached(e, n))
  }

  ghost predicate CachedJoin(e: Engine, k: JoinKey)
    requires k in e.joinCache
  {
    var n := e.joinCache[k];
    n in e.beta.nodes && e.beta.nodes[n].kind.Join? && KeyOf(e.beta.nodes[n]) == k
  }

  ghost predicate IsCached(e: Engine, n: NodeId)
    requires n in e.beta.nodes && e.beta.nodes[n].kind.Join?
  {
    KeyOf(e.beta.nodes[n]) in e.joinCache && e.joinCache[KeyOf(e.beta.nodes[n])] == n
  }

  ghost predicate EngineExtends(a: Engine, b: Engine) {
    a.paths <= b.paths && Extends(a.beta, b.beta)
  }

  lemma EngineExtendsTransitive(a: Engine, b: Engine, c: Engine)
    requires EngineExtends(a, b) && EngineExtends(b, c)
    ensures EngineExtends(a, c)
  {
    ExtendsTransitive(a.beta, b.beta, c.beta);
  }

  lemma ExtendedRepresents(a: Engine, b: Engine, n: NodeId, t: Term)
    requires EngineExtends(a, b) && Represents(a.paths, a.beta.nodes, n, t)
    ensures Represents(b.paths, b.beta.nodes, n, t)
  {
    RepresentsStable(a.paths, a.beta.nodes, b.paths, b.beta.nodes, n, t);
  }

  /** Everything but joins: the caches keep describing the graph as it grows. */
  lemma CachesAfterGrowth(e: Engine, after: Net, open: set<NodeId>)
    requires AlphaIdsOk(e) && JoinCacheOk(e)
    requires forall n :: n in e.beta.nodes ==> n in after.nodes
    requires forall n :: n in e.beta.nodes && !e.beta.nodes[n].kind.Ncc? ==>
               after.nodes[n].Core() == e.beta.nodes[n].Core()
    requires forall n :: n in after.nodes && after.nodes[n].ReadsAlpha() ==>
               after.nodes[n].kind.alpha < |e.paths|
    requires forall n :: n in after.nodes && after.nodes[n].kind.Join? ==>
               n in e.beta.nodes && !e.beta.nodes[n].kind.Ncc?
    ensures AlphaIdsOk(e.(beta := after)) && JoinCacheOk(e.(beta := after))
  {
    var e' := e.(beta := after);
    forall k | k in e'.joinCache ensures CachedJoin(e', k) {
      assert CachedJoin(e, k);
      assert after.nodes[e.joinCache[k]].Core() == e.beta.nodes[e.joinCache[k]].Core();
    }
    forall n | n in after.nodes && after.nodes[n].kind.Join? ensures IsCached(e', n) {
      assert after.nodes[n].Core() == e.beta.nodes[n].Core();
      assert IsCached(e, n);
    }
  }

  lemma EnsureAlphaOk(e: Engine, open: set<NodeId>, p: Pattern)
    requires EngineWf(e, open)
    ensures var (e1, alpha) := EnsureAlpha(e, p);
      && EngineWf(e1, open) && EngineExtends(e, e1) && e1.beta == e.beta
      && alpha < |e1.paths| && e1.paths[alpha] == PathKey(p)
  {
    var (e1, alpha) := EnsureAlpha(e, p);
    forall k | k in e1.joinCache ensures CachedJoin(e1, k) { assert CachedJoin(e, k); }
    forall n | n in e1.beta.nodes && e1.beta.nodes[n].kind.Join? ensures IsCached(e1, n) { assert IsCached(e, n); }
  }

  /** Configuring a memory changes nothing else. */
  ghost predicate Reconfigured(a: Net, b: Net) {
    && b == a.(memories := b.memories) && |b.memories| == |a.memories|
    && forall i :: 0 <= i < |a.memories| ==> b.memories[i].id == a.memories[i].id
  }

  lemma RequestVarsReconfigures(net: Net, parent: NodeId, wanted: seq<(SlotIndex, VarId)>)
    ensures Reconfigured(net, RequestVars(net, parent, wanted)) && Reconfigured(net, EnableRanks(net, parent))
  {
  }

  lemma ReconfiguredWf(a: Net, b: Net, open: set<NodeId>)
    requires Wf(a, open) && Reconfigured(a, b)
    ensures Wf(b, open) && Extends(a, b)
  {
    RoomierMemories(a, b);
    SameNodesWf(a, b, open);
  }

  lemma ReadyPatternOk(e: Engine, open: set<NodeId>, cx: Context, parent: NodeId, p: Pattern, bound: set<Symbol>)
    requires EngineWf(e, open) && Registered(p, cx.ids)
    ensures var (e1, alpha) := ReadyPattern(e, cx, parent, p, bound);
      && EngineWf(e1, open) && EngineExtends(e, e1) && Reconfigured(e.beta, e1.beta)
      && alpha < |e1.paths| && e1.paths[alpha] == PathKey(p)
  {
    EnsureAlphaOk(e, open, p);
    var ea := EnsureAlpha(e, p).0;
    var e1 := ReadyPattern(e, cx, parent, p, bound).0;
    RequestVarsReconfigures(ea.beta, parent, IndexableTests(JoinTests(p, cx.ids, bound), p.sequence));
    ReconfiguredWf(ea.beta, e1.beta, open);
    SameNodesCaches(ea, e1.beta);
  }

  lemma SameNodesCaches(e: Engine, after: Net)
    requires AlphaIdsOk(e) && JoinCacheOk(e) && after.nodes == e.beta.nodes
    ensures AlphaIdsOk(e.(beta := after)) && JoinCacheOk(e.(beta := after))
  {
    var f := e.(beta := after);
    forall k | k in f.joinCache ensures CachedJoin(f, k) { assert CachedJoin(e, k); }
    forall n | n in f.beta.nodes && f.beta.nodes[n].kind.Join? ensures IsCached(f, n) { assert IsCached(e, n); }
  }

  lemma EnsureJoinOk(e: Engine, open: set<NodeId>, key: JoinKey)
    requires EngineWf(e, open) && key.alpha < |e.paths|
    requires key.parent in e.beta.nodes && e.beta.nodes[key.parent].Inner()
    ensures var (e1, n) := EnsureJoin(e, key);
      && EngineWf(e1, open) && EngineExtends(e, e1) && e1.paths == e.paths
      && n in e1.beta.nodes && e1.beta.nodes[n].kind.Join? && KeyOf(e1.beta.nodes[n]) == key
  {
    if key in e.joinCache {
      assert CachedJoin(e, key);
    } else {
      AddJoinWf(e.beta, open, key.parent, key.alpha, key.tests, key.bindings, key.sequence);
      NewJoinCaches(e, EnsureJoin(e, key).0.beta, key);
    }
  }

  lemma NewJoinCaches(e: Engine, after: Net, key: JoinKey)
    requires AlphaIdsOk(e) && JoinCacheOk(e) && key !in e.joinCache && key.alpha < |e.paths|
    requires Extends(e.beta, after) && e.beta.next !in e.beta.nodes
    requires GrownBy(e.beta, after, Join(key.alpha, key.tests, key.sequence, key.bindings), key.parent, |e.beta.memories|)
    ensures var e1 := e.(beta := after, joinCache := e.joinCache[key := e.beta.next]);
      AlphaIdsOk(e1) && JoinCacheOk(e1)
  {
    var e1 := e.(beta := after, joinCache := e.joinCache[key := e.beta.next]);
    forall k | k in e1.joinCache ensures CachedJoin(e1, k) {
      if k != key {
        assert CachedJoin(e, k);
        assert after.nodes[e.joinCache[k]].Core() == e.beta.nodes[e.joinCache[k]].Core();
      }
    }
    forall m | m in after.nodes && after.nodes[m].kind.Join? ensures IsCached(e1, m) {
      if m != e.beta.next {
        assert after.nodes[m].Core() == e.beta.nodes[m].Core();
        assert IsCached(e, m);
      }
    }
    forall m | m in after.nodes && after.nodes[m].ReadsAlpha() ensures after.nodes[m].kind.alpha < |e.paths| {
      if m != e.beta.next { assert after.nodes[m].Core() == e.beta.nodes[m].Core(); }
    }
  }

  /** The engine grew to `e1`, and node `n` there stands for `t`. */
  ghost predicate Built(e: Engine, e1: Engine, open: set<NodeId>, n: NodeId, t: Term) {
    && EngineWf(e1, open) && EngineExtends(e, e1)
    && n in e1.beta.nodes && e1.beta.nodes[n].Inner()
    && Represents(e1.paths, e1.beta.nodes, n, t)
  }

  lemma BuiltAgain(e: Engine, e1: Engine, open: set<NodeId>, n: NodeId, t: Term)
    requires Built(e, e1, open, n, t)
    ensures Built(e1, e1, open, n, t)
  {
    hide EngineWf, Represents;
  }

  lemma CompilePatternOk(e: Engine, open: set<NodeId>, cx: Context, parent: NodeId, p: Pattern, bound: set<Symbol>, up: Term)
    requires Registered(p, cx.ids) && Built(e, e, open, parent, up)
    ensures var (e1, n) := CompilePattern(e, cx, parent, p, bound);
      Built(e, e1, open, n, TermOfOne(cx, PatternCE(p), up, bound))
  {
    hide AlphaIdsOk, AlphaCacheOk, JoinCacheOk, Wf, AddNegative, AddExists, AddJoin;
    var (ea, alpha) := ReadyPattern(e, cx, parent, p, bound);
    ReadyPatternOk(e, open, cx, parent, p, bound);
    ExtendedRepresents(e, ea, parent, up);
    var tests := JoinTests(p, cx.ids, bound);
    if p.negated {
      AddNegativeOk(ea, open, parent, alpha, tests, p.sequence, up);
    } else if p.exists_ {
      AddExistsOk(ea, open, parent, alpha, tests, p.sequence, up);
    } else {
      var key := JoinKey(parent, alpha, tests, Extractions(p.variableSlots, cx.ids, bound), p.sequence);
      EnsureJoinOk(ea, open, key);
      ExtendedRepresents(ea, EnsureJoin(ea, key).0, parent, up);
    }
    EngineExtendsTransitive(e, ea, CompilePattern(e, cx, parent, p, bound).0);
  }

  lemma AddNegativeOk(e: Engine, open: set<NodeId>, parent: NodeId, alpha: AlphaMemoryId, tests: seq<JoinTest>,
                      sequence: Option<SequencePlan>, up: Term)
    requires Built(e, e, open, parent, up) && alpha < |e.paths|
    ensures Built(e, e.(beta := AddNegative(e.beta, parent, alpha, tests, sequence)), open, e.beta.next,
                  NegativeTerm(up, e.paths[alpha], tests, sequence))
  {
    AddNegativeWf(e.beta, open, parent, alpha, tests, sequence);
    var after := AddNegative(e.beta, parent, alpha, tests, sequence);
    GrownCaches(e, after, Negative(alpha, tests, sequence, |e.beta.negMemories|), parent, |e.beta.memories|);
    ExtendedRepresents(e, e.(beta := after), parent, up);
  }

  lemma AddExistsOk(e: Engine, open: set<NodeId>, parent: NodeId, alpha: AlphaMemoryId, tests: seq<JoinTest>,
                    sequence: Option<SequencePlan>, up: Term)
    requires Built(e, e, open, parent, up) && alpha < |e.paths|
    ensures Built(e, e.(beta := AddExists(e.beta, parent, alpha, tests, sequence)), open, e.beta.next,
                  ExistsTerm(up, e.paths[alpha], tests, sequence))
  {
    AddExistsWf(e.beta, open, parent, alpha, tests, sequence);
    var after := AddExists(e.beta, parent, alpha, tests, sequence);
    GrownCaches(e, after, Exists(alpha, tests, sequence, |e.beta.existsMemories|), parent, |e.beta.memories|);
    ExtendedRepresents(e, e.(beta := after), parent, up);
  }

  lemma AddPredicateOk(e: Engine, open: set<NodeId>, parent: NodeId, rule: RuleId, index: nat, up: Term)
    requires Built(e, e, open, parent, up)
    ensures Built(e, e.(beta := AddPredicate(e.beta, parent, rule, index)), open, e.beta.next,
                  PredicateTerm(up, rule, index))
  {
    AddPredicateWf(e.beta, open, parent, rule, index);
    var after := AddPredicate(e.beta, parent, rule, index);
    GrownCaches(e, after, Predicate(rule, index), parent, |e.beta.memories|);
    ExtendedRepresents(e, e.(beta := after), parent, up);
  }

  lemma GrownCaches(e: Engine, after: Net, kind: Kind, parent: NodeId, memory: nat)
    requires AlphaIdsOk(e) && JoinCacheOk(e) && GrownBy(e.beta, after, kind, parent, memory) && Extends(e.beta, after)
    requires !kind.Join? && (BetaNode(kind, parent, memory, []).ReadsAlpha() ==> kind.alpha < |e.paths|)
    ensures AlphaIdsOk(e.(beta := after)) && JoinCacheOk(e.(beta := after))
  {
    forall n | n in after.nodes && after.nodes[n].ReadsAlpha() ensures after.nodes[n].kind.alpha < |e.paths| {
      if n != e.beta.next { assert after.nodes[n].Core() == e.beta.nodes[n].Core(); }
    }
    forall n | n in after.nodes && after.nodes[n].kind.Join? ensures n in e.beta.nodes && !e.beta.nodes[n].kind.Ncc? {
      if n != e.beta.next { assert after.nodes[n].Core() == e.beta.nodes[n].Core(); }
    }
    CachesAfterGrowth(e, after, {});
  }

  // ----- compilation builds the term of the conditions -----

  lemma {:induction false} CompileOneOk(e: Engine, open: set<NodeId>, cx: Context, parent: NodeId, c: Condition,
                                        bound: set<Symbol>, nested: bool, up: Term)
    requires RegisteredIn(c, cx.ids) && Built(e, e, open, parent, up)
    ensures var (e1, n) := CompileOne(e, cx, parent, c, bound, nested);
      Built(e, e1, open, n, TermOfOne(cx, c, up, bound))
    decreases c
  {
    match c
    case PatternCE(p) => CompilePatternOk(e, open, cx, parent, p, bound, up);
    case PredicateCE(index) => AddPredicateOk(e, open, parent, cx.rule, index, up);
    case NccCE(subs) =>
      var begun := e.(beta := OpenNcc(e.beta, parent));
      OpenedOk(e, open, parent, up);
      CompileSeqOk(begun, open + {e.beta.next}, cx, parent, subs, bound, true, up);
      var (e1, bottom) := CompileSeq(begun, cx, parent, subs, bound, true);
      ClosedOk(e, begun, e1, open, parent, bottom, nested, up, TermOf(cx, subs, up, bound));
  }

  /** Compiling a condition list grows the graph so that the resulting node stands for the
      list's own term, whatever was shared on the way. */
  lemma {:induction false} CompileSeqOk(e: Engine, open: set<NodeId>, cx: Context, parent: NodeId,
                                        conditions: seq<Condition>, bound: set<Symbol>, nested: bool, up: Term)
    requires AllRegistered(conditions, cx.ids) && Built(e, e, open, parent, up)
    ensures var (e1, n) := CompileSeq(e, cx, parent, conditions, bound, nested);
      Built(e, e1, open, n, TermOf(cx, conditions, up, bound))
    decreases conditions
  {
    if conditions != [] {
      var (e1, n) := CompileOne(e, cx, parent, conditions[0], bound, nested);
      var t := TermOfOne(cx, conditions[0], up, bound);
      CompileOneOk(e, open, cx, parent, conditions[0], bound, nested, up);
      CompileSeqOk(e1, open, cx, n, conditions[1..], BoundBy(conditions[0], bound), nested, t);
      EngineExtendsTransitive(e, e1, CompileSeq(e, cx, parent, conditions, bound, nested).0);
    }
  }

  lemma OpenedOk(e: Engine, open: set<NodeId>, parent: NodeId, up: Term)
    requires Built(e, e, open, parent, up)
    ensures var begun := e.(beta := OpenNcc(e.beta, parent));
      && Built(e, begun, open + {e.beta.next}, parent, up)
      && GrownBy(e.beta, begun.beta, Ncc(e.beta.root, |e.beta.nccMemories|), parent, |e.beta.memories|)
      && e.beta.next !in e.beta.nodes
  {
    var after := OpenNcc(e.beta, parent);
    OpenNccWf(e.beta, open, parent);
    GrownCaches(e, after, Ncc(e.beta.root, |e.beta.nccMemories|), parent, |e.beta.memories|);
    ExtendedRepresents(e, e.(beta := after), parent, up);
  }

  lemma ClosedOk(e: Engine, begun: Engine, e1: Engine, open: set<NodeId>, parent: NodeId, bottom: NodeId, nested: bool,
                 up: Term, sub: Term)
    requires EngineExtends(e, begun) && e.beta.next !in e.beta.nodes && e.beta.next !in open
    requires e.beta.next in begun.beta.nodes
    requires begun.beta.nodes[e.beta.next] == BetaNode(Ncc(e.beta.root, |e.beta.nccMemories|), parent, |e.beta.memories|, [])
    requires parent in e.beta.nodes && Represents(e.paths, e.beta.nodes, parent, up)
    requires Built(begun, e1, open + {e.beta.next}, bottom, sub)
    ensures var closed := CloseNcc(e1.beta, e.beta.next, bottom, |e.beta.nccMemories|);
      Built(e, e1.(beta := FinishNcc(closed, e.beta.next, nested)), open, e.beta.next, NccTerm(up, sub))
  {
    ClosedStages(e, begun, e1, open, parent, bottom, nested, sub);
    var closed := CloseNcc(e1.beta, e.beta.next, bottom, |e.beta.nccMemories|);
    var finished := FinishNcc(closed, e.beta.next, nested);
    hide FinishNcc, CloseNcc, Rearranged, ClosedBy, Wf;
    ClosedBuilt(e, begun, e1, closed, finished, open, parent, bottom, up, sub);
  }

  lemma ClosedStages(e: Engine, begun: Engine, e1: Engine, open: set<NodeId>, parent: NodeId, bottom: NodeId, nested: bool, sub: Term)
    requires e.beta.next !in open && e.beta.next in begun.beta.nodes
    requires begun.beta.nodes[e.beta.next] == BetaNode(Ncc(e.beta.root, |e.beta.nccMemories|), parent, |e.beta.memories|, [])
    requires begun.beta.root == e.beta.root && Built(begun, e1, open + {e.beta.next}, bottom, sub)
    ensures var closed := CloseNcc(e1.beta, e.beta.next, bottom, |e.beta.nccMemories|);
      var finished := FinishNcc(closed, e.beta.next, nested);
      && e.beta.next in e1.beta.nodes && e1.beta.nodes[e.beta.next].kind == Ncc(e1.beta.root, |e.beta.nccMemories|)
      && e1.beta.nodes[e.beta.next].parent == parent
      && ClosedBy(e1.beta, closed, e.beta.next, bottom) && Rearranged(closed, finished) && Wf(finished, open)
  {
    hide AlphaIdsOk, AlphaCacheOk, JoinCacheOk, Represents, TreeOk, ChildrenOk, PairsOk, MemoriesOk, CloseNcc, FinishNcc, ClosedBy, Rearranged;
    var ncc := e.beta.next;
    assert e1.beta.nodes[ncc].Core() == begun.beta.nodes[ncc].Core();
    CloseNccWf(e1.beta, open + {ncc}, ncc, bottom);
    assert open + {ncc} - {ncc} == open;
    FinishNccWf(CloseNcc(e1.beta, ncc, bottom, |e.beta.nccMemories|), open, ncc, nested);
  }

  lemma ClosedBuilt(e: Engine, begun: Engine, e1: Engine, closed: Net, finished: Net, open: set<NodeId>, parent: NodeId,
                    bottom: NodeId, up: Term, sub: Term)
    requires EngineExtends(e, begun) && EngineExtends(begun, e1) && e.beta.next !in e.beta.nodes
    requires AlphaIdsOk(e1) && AlphaCacheOk(e1) && JoinCacheOk(e1) && TreeOk(e1.beta)
    requires Represents(e1.paths, e1.beta.nodes, bottom, sub)
    requires e.beta.next in e1.beta.nodes && e1.beta.nodes[e.beta.next].kind.Ncc?
    requires e1.beta.nodes[e.beta.next].parent == parent
    requires e1.beta.nodes[e.beta.next].kind.partner == e1.beta.root
    requires Represents(e.paths, e.beta.nodes, parent, up)
    requires ClosedBy(e1.beta, closed, e.beta.next, bottom) && Rearranged(closed, finished) && Wf(finished, open)
    ensures Built(e, e1.(beta := finished), open, e.beta.next, NccTerm(up, sub))
  {
    var ncc := e.beta.next;
    EngineExtendsTransitive(e, begun, e1);
    ClosedGrowth(e.beta, e1.beta, closed, finished, ncc, bottom);
    ClosedCaches(e1, closed, finished, ncc, bottom);
    RepresentsStable(e.paths, e.beta.nodes, e1.paths, finished.nodes, parent, up);
    RepresentsStable(e1.paths, e1.beta.nodes, e1.paths, finished.nodes, bottom, sub);
    NccRepresents(e1.paths, finished.nodes, ncc, e1.beta.next, up, sub);
  }

  lemma NccRepresents(paths: seq<AlphaPathKey>, nodes: map<NodeId, BetaNode>, ncc: NodeId, partner: NodeId, up: Term, sub: Term)
    requires ncc in nodes && nodes[ncc].kind.Ncc? && nodes[ncc].kind.partner == partner
    requires partner in nodes && nodes[partner].kind.NccPartner?
    requires Represents(paths, nodes, nodes[ncc].parent, up) && Represents(paths, nodes, nodes[partner].parent, sub)
    ensures Represents(paths, nodes, ncc, NccTerm(up, sub))
  {
  }

  /** Closing an NCC opened after `a` leaves `a`'s nodes alone. */
  lemma ClosedGrowth(a: Net, grown: Net, closed: Net, finished: Net, ncc: NodeId, bottom: NodeId)
    requires Extends(a, grown) && ncc !in a.nodes && ncc in grown.nodes && grown.nodes[ncc].kind.Ncc?
    requires TreeOk(grown) && grown.nodes[ncc].kind.partner == grown.root
    requires ClosedBy(grown, closed, ncc, bottom) && Rearranged(closed, finished)
    ensures Extends(a, finished) && Keeps(a.nodes, finished.nodes) && Keeps(grown.nodes, finished.nodes)
    ensures finished.nodes.Keys == grown.nodes.Keys + {grown.next}
    ensures finished.nodes[ncc].Core() == grown.nodes[ncc].Core().(kind := Ncc(grown.next, grown.nodes[ncc].kind.nccMemory))
    ensures finished.nodes[grown.next].Core() == BetaNode(NccPartner(ncc, grown.nodes[ncc].kind.nccMemory), bottom, 0, [])
    ensures forall n :: n in grown.nodes && n != ncc ==> finished.nodes[n].Core() == grown.nodes[n].Core()
  {
    forall n | n in grown.nodes && n != ncc ensures finished.nodes[n].Core() == grown.nodes[n].Core() {
      assert finished.nodes[n].Core() == closed.nodes[n].Core();
    }
    assert finished.nodes[ncc].Core() == closed.nodes[ncc].Core();
    assert finished.nodes[grown.next].Core() == closed.nodes[grown.next].Core();
  }

  lemma ClosedCaches(e: Engine, closed: Net, finished: Net, ncc: NodeId, bottom: NodeId)
    requires AlphaIdsOk(e) && JoinCacheOk(e) && e.beta.next !in e.beta.nodes
    requires ncc in e.beta.nodes && e.beta.nodes[ncc].kind.Ncc?
    requires ClosedBy(e.beta, closed, ncc, bottom) && Rearranged(closed, finished)
    ensures AlphaIdsOk(e.(beta := finished)) && JoinCacheOk(e.(beta := finished))
  {
    assert forall n :: n in e.beta.nodes && n != ncc ==> finished.nodes[n].Core() == e.beta.nodes[n].Core() by {
      forall n | n in e.beta.nodes && n != ncc ensures finished.nodes[n].Core() == e.beta.nodes[n].Core() {
        assert finished.nodes[n].Core() == closed.nodes[n].Core();
      }
    }
    assert finished.nodes[ncc].Core() == closed.nodes[ncc].Core();
    assert finished.nodes[e.beta.next].Core() == closed.nodes[e.beta.next].Core();
    forall n | n in finished.nodes && finished.nodes[n].ReadsAlpha() ensures finished.nodes[n].kind.alpha < |e.paths| {
      if n in e.beta.nodes && n != ncc { assert finished.nodes[n].Core() == e.beta.nodes[n].Core(); }
    }
    forall n | n in finished.nodes && finished.nodes[n].kind.Join? ensures n in e.beta.nodes && !e.beta.nodes[n].kind.Ncc? {
      if n in e.beta.nodes && n != ncc { assert finished.nodes[n].Core() == e.beta.nodes[n].Core(); }
    }
    CachesAfterGrowth(e, finished, {});
  }

  /** The compiled terminal hangs below a node that stands for the conditions' term. */
  lemma CompileRuleOk(e: Engine, cx: Context, conditions: seq<Condition>, salience: int, complexity: nat)
    requires AllRegistered(conditions, cx.ids) && EngineWf(e, {})
    ensures var (e1, terminal) := CompileRule(e, cx, conditions, salience, complexity);
      && EngineWf(e1, {}) && EngineExtends(e, e1)
      && terminal in e1.beta.nodes && terminal !in e.beta.nodes
      && e1.beta.nodes[terminal].kind == Terminal(cx.rule, salience, complexity % 0x800)
      && Represents(e1.paths, e1.beta.nodes, e1.beta.nodes[terminal].parent, TermOf(cx, conditions, Start, {}))
  {
    CompileSeqOk(e, {}, cx, e.beta.root, conditions, {}, false, Start);
    var (e1, n) := CompileSeq(e, cx, e.beta.root, conditions, {}, false);
    AddTerminalWf(e1.beta, {}, n, cx.rule, salience, complexity);
    var after := AddTerminal(e1.beta, n, cx.rule, salience, complexity);
    GrownCaches(e1, after, Terminal(cx.rule, salience, complexity % 0x800), n, 0);
    EngineExtendsTransitive(e, e1, e1.(beta := after));
    ExtendedRepresents(e1, e1.(beta := after), n, TermOf(cx, conditions, Start, {}));
  }
}
