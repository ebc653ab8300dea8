/** Retiring rules: the part of the graph survivors still need, and the compacted engine left behind. */
module Removal {
  import opened Syntax
  import opened Sequences
  import opened Network
  import opened WellFormed
  import opened Compile
  import opened Compaction

  // ----- what survives -----

  predicate Seed(net: Net, removed: set<RuleId>, n: NodeId) {
    n in net.nodes && (n == net.root || (net.nodes[n].kind.Terminal? && net.nodes[n].kind.rule !in removed))
  }

  /** Closed under parents and, from an NCC, its partner. */
  predicate ClosedSet(nodes: map<NodeId, BetaNode>, s: set<NodeId>) {
    forall n :: n in s ==> n in nodes && NeedsIn(nodes, n, s)
  }

  predicate NeedsIn(nodes: map<NodeId, BetaNode>, n: NodeId, s: set<NodeId>)
    requires n in nodes
  {
    && (!nodes[n].kind.Root? ==> nodes[n].parent in s)
    && (nodes[n].kind.Ncc? ==> nodes[n].kind.partner in s)
  }

  predicate HoldsSeeds(net: Net, removed: set<RuleId>, s: set<NodeId>) {
    forall n :: n in net.nodes && Seed(net, removed, n) ==> n in s
  }

  /** The least closed set that holds the root and every surviving terminal. */
  ghost predicate IsRetained(net: Net, removed: set<RuleId>, s: set<NodeId>) {
    && ClosedSet(net.nodes, s) && HoldsSeeds(net, removed, s)
    && forall other: set<NodeId> :: ClosedSet(net.nodes, other) && HoldsSeeds(net, removed, other) ==> s <= other
  }

  lemma RetainedUnique(net: Net, removed: set<RuleId>, s: set<NodeId>, t: set<NodeId>)
    requires IsRetained(net, removed, s) && IsRetained(net, removed, t)
    ensures s == t
  {
  }

  /** One step from a node to what it needs: its parent, or from an NCC its partner. */
  predicate StepsTo(nodes: map<NodeId, BetaNode>, n: NodeId, m: NodeId) {
    n in nodes && ((!nodes[n].kind.Root? && m == nodes[n].parent) || (nodes[n].kind.Ncc? && m == nodes[n].kind.partner))
  }

  /** The steps lead from the root or from the terminal of a rule that stays to `n`. */
  predicate NeedPath(net: Net, removed: set<RuleId>, path: seq<NodeId>, n: NodeId) {
    && path != [] && path[0] in net.nodes && path[|path| - 1] == n
    && (path[0] == net.root || (net.nodes[path[0]].kind.Terminal? && net.nodes[path[0]].kind.rule !in removed))
    && forall i :: 0 <= i < |path| - 1 ==> StepsTo(net.nodes, path[i], path[i + 1])
  }

  ghost predicate StillNeeded(net: Net, removed: set<RuleId>, n: NodeId) {
    exists path :: NeedPath(net, removed, path, n)
  }

  lemma {:induction false} PathStaysInside(net: Net, removed: set<RuleId>, s: set<NodeId>, path: seq<NodeId>, n: NodeId)
    requires ClosedSet(net.nodes, s) && HoldsSeeds(net, removed, s) && NeedPath(net, removed, path, n)
    ensures n in s
    decreases |path|
  {
    if |path| == 1 {
      assert Seed(net, removed, path[0]);
    } else {
      var before := path[..|path| - 1];
      var m := before[|before| - 1];
      PathStaysInside(net, removed, s, before, m);
      assert StepsTo(net.nodes, path[|path| - 2], path[|path| - 1]) && NeedsIn(net.nodes, m, s);
    }
  }

  lemma NeededStep(net: Net, removed: set<RuleId>, n: NodeId, m: NodeId)
    requires StillNeeded(net, removed, n) && StepsTo(net.nodes, n, m)
    ensures StillNeeded(net, removed, m)
  {
    var path :| NeedPath(net, removed, path, n);
    assert NeedPath(net, removed, path + [m], m);
  }

  /** What is kept is what the terminals of the rules that stay need: their ancestors, and behind every NCC among
      these its partner with its own ancestors. */
  lemma RetainedIsNeeded(net: Net, removed: set<RuleId>, s: set<NodeId>, n: NodeId)
    requires Wf(net, {}) && IsRetained(net, removed, s)
    ensures n in s <==> n in net.nodes && StillNeeded(net, removed, n)
  {
    var needed := set m | m in net.nodes && StillNeeded(net, removed, m);
    forall m | m in needed ensures NeedsIn(net.nodes, m, needed) {
      if !net.nodes[m].kind.Root? {
        assert HasOlderParent(net.nodes, m);
        NeededStep(net, removed, m, net.nodes[m].parent);
      }
      if net.nodes[m].kind.Ncc? {
        assert Paired(net.nodes, m);
        NeededStep(net, removed, m, net.nodes[m].kind.partner);
      }
    }
    forall m | m in net.nodes && Seed(net, removed, m) ensures m in needed { assert NeedPath(net, removed, [m], m); }
    assert HoldsSeeds(net, removed, needed);
    assert s <= needed;
    if path :| NeedPath(net, removed, path, n) { PathStaysInside(net, removed, s, path, n); }
  }

  /** Terminals of removed rules go; a partner stays only with its NCC. */
  lemma RetainedKinds(net: Net, removed: set<RuleId>, s: set<NodeId>)
    requires Wf(net, {}) && IsRetained(net, removed, s)
    ensures forall n :: n in s && net.nodes[n].kind.Terminal? ==> net.nodes[n].kind.rule !in removed
    ensures forall n :: n in s && net.nodes[n].kind.NccPartner? ==> net.nodes[n].kind.nccNode in s
  {
    var kept := set n | n in s && (net.nodes[n].kind.Terminal? ==> Seed(net, removed, n))
                              && (net.nodes[n].kind.NccPartner? ==> net.nodes[n].kind.nccNode in s);
    forall n | n in kept ensures NeedsIn(net.nodes, n, kept) {
      assert NeedsIn(net.nodes, n, s);
      if !net.nodes[n].kind.Root? { assert HasOlderParent(net.nodes, n); }
      if net.nodes[n].kind.Ncc? { assert Paired(net.nodes, n); }
    }
    assert HoldsSeeds(net, removed, kept) by {
      forall n | n in net.nodes && Seed(net, removed, n) ensures n in kept {
      }
    }
    assert s <= kept;
  }

  // ----- the compacted graph -----

  function FilterChildren(children: seq<NodeId>, s: set<NodeId>): seq<NodeId> {
    if children == [] then []
    else (if children[0] in s then [children[0]] else []) + FilterChildren(children[1..], s)
  }

  /** Which entries of each memory table survive. */
  datatype Surviving = Surviving(memories: seq<bool>, negatives: seq<bool>, nccs: seq<bool>, existentials: seq<bool>)

  function Kept(net: Net, s: set<NodeId>): map<NodeId, BetaNode> {
    map n | n in net.nodes && n in s :: net.nodes[n].(children := FilterChildren(net.nodes[n].children, s))
  }

  function SurvivingMemories(net: Net, s: set<NodeId>): Surviving {
    Surviving(
      Flags(set n | n in net.nodes && n in s && net.nodes[n].Inner() :: net.nodes[n].memory, |net.memories|),
      Flags(set n | n in net.nodes && n in s && net.nodes[n].kind.Negative? :: net.nodes[n].kind.negMemory, |net.negMemories|),
      Flags(set n | n in net.nodes && n in s && (net.nodes[n].kind.Ncc? || net.nodes[n].kind.NccPartner?) :: net.nodes[n].kind.nccMemory,
            |net.nccMemories|),
      Flags(set n | n in net.nodes && n in s && net.nodes[n].kind.Exists? :: net.nodes[n].kind.existsMemory, |net.existsMemories|))
  }

  /** Every memory the node refers to survives: no renumbering lookup can fail. */
  predicate Covered(node: BetaNode, keep: Surviving) {
    && (node.Inner() ==> node.memory < |keep.memories| && keep.memories[node.memory])
    && (node.kind.Negative? ==> node.kind.negMemory < |keep.negatives| && keep.negatives[node.kind.negMemory])
    && (node.kind.Ncc? || node.kind.NccPartner? ==> node.kind.nccMemory < |keep.nccs| && keep.nccs[node.kind.nccMemory])
    && (node.kind.Exists? ==> node.kind.existsMemory < |keep.existentials| && keep.existentials[node.kind.existsMemory])
  }

  function RenumberNode(node: BetaNode, keep: Surviving): BetaNode
    requires Covered(node, keep)
  {
    node.(
      memory := if node.Inner() then Rank(keep.memories, node.memory) else node.memory,
      kind := match node.kind
        case Negative(alpha, tests, sequence, m) => Negative(alpha, tests, sequence, Rank(keep.negatives, m))
        case Ncc(partner, m) => Ncc(partner, Rank(keep.nccs, m))
        case NccPartner(ncc, m) => NccPartner(ncc, Rank(keep.nccs, m))
        case Exists(alpha, tests, sequence, m) => Exists(alpha, tests, sequence, Rank(keep.existentials, m))
        case _ => node.kind)
  }

  /** No lookup fails: retained nodes own surviving memories only. */
  lemma RetainedCovered(net: Net, s: set<NodeId>)
    requires MemoriesOk(net)
    ensures forall n :: n in Kept(net, s) ==> Covered(Kept(net, s)[n], SurvivingMemories(net, s))
  {
    forall n | n in Kept(net, s) ensures Covered(Kept(net, s)[n], SurvivingMemories(net, s)) {
      assert OwnsMemories(net, net.nodes[n]);
    }
  }

  function PrunedWaits(waits: Option<map<NodeId, NccEntryWait>>, s: set<NodeId>): Option<map<NodeId, NccEntryWait>> {
    if waits.None? then None else Some(map n | n in waits.value && n in s :: waits.value[n])
  }

  function RetainNodes(net: Net, s: set<NodeId>): Net
    requires MemoriesOk(net)
  {
    RetainedCovered(net, s);
    var keep := SurvivingMemories(net, s);
    var kept := Kept(net, s);
    net.(
      nodes := map n | n in kept :: RenumberNode(kept[n], keep),
      memories := Renumbered(Compact(net.memories, keep.memories)),
      negMemories := Renumbered(Compact(net.negMemories, keep.negatives)),
      nccMemories := Renumbered(Compact(net.nccMemories, keep.nccs)),
      existsMemories := Renumbered(Compact(net.existsMemories, keep.existentials)),
      waits := PrunedWaits(net.waits, s))
  }

  /** The alpha memories the graph still reads. */
  function UsedAlphas(nodes: map<NodeId, BetaNode>): set<AlphaMemoryId> {
    set n | n in nodes && nodes[n].ReadsAlpha() :: nodes[n].kind.alpha
  }

  function RenumberAlpha(node: BetaNode, keep: seq<bool>): BetaNode
    requires node.ReadsAlpha() ==> node.kind.alpha < |keep| && keep[node.kind.alpha]
  {
    node.(kind := match node.kind
      case Join(alpha, tests, sequence, bindings) => Join(Rank(keep, alpha), tests, sequence, bindings)
      case Negative(alpha, tests, sequence, m) => Negative(Rank(keep, alpha), tests, sequence, m)
      case Exists(alpha, tests, sequence, m) => Exists(Rank(keep, alpha), tests, sequence, m)
      case _ => node.kind)
  }

  datatype Role = JoinRole | NegativeRole | ExistsRole

  predicate Plays(node: BetaNode, role: Role) {
    match role
    case JoinRole => node.kind.Join?
    case NegativeRole => node.kind.Negative?
    case ExistsRole => node.kind.Exists?
  }

  /** Each alpha memory's subscribers of one role among the ids below `bound`, in id order. */
  function SubscribersBelow(nodes: map<NodeId, BetaNode>, role: Role, bound: NodeId): Subscribers {
    if bound == 0 then map[]
    else
      var before := SubscribersBelow(nodes, role, bound - 1);
      if bound - 1 in nodes && Plays(nodes[bound - 1], role)
      then Subscribe(before, nodes[bound - 1].kind.alpha, bound - 1)
      else before
  }

  function ListFor(s: Subscribers, alpha: AlphaMemoryId): seq<NodeId> {
    if alpha in s then s[alpha] else []
  }

  predicate Ascending(s: seq<NodeId>) {
    forall i, j :: 0 <= i < j < |s| ==> s[i] < s[j]
  }

  predicate IsReader(nodes: map<NodeId, BetaNode>, role: Role, bound: NodeId, alpha: AlphaMemoryId, n: NodeId) {
    n < bound && n in nodes && Plays(nodes[n], role) && nodes[n].kind.alpha == alpha
  }

  ghost predicate ListsAt(s: Subscribers, nodes: map<NodeId, BetaNode>, role: Role, bound: NodeId, alpha: AlphaMemoryId) {
    && Ascending(ListFor(s, alpha)) && (alpha in s ==> s[alpha] != [])
    && forall n :: n in ListFor(s, alpha) <==> IsReader(nodes, role, bound, alpha, n)
  }

  /** Each alpha memory's list holds exactly its readers of one role, oldest first, and no list is empty. */
  ghost predicate ListsReaders(s: Subscribers, nodes: map<NodeId, BetaNode>, role: Role, bound: NodeId) {
    forall alpha :: ListsAt(s, nodes, role, bound, alpha)
  }

  /** Subscribing the next node lists it last under the memory it reads. */
  lemma SubscribeLists(s: Subscribers, nodes: map<NodeId, BetaNode>, role: Role, n: NodeId)
    requires ListsReaders(s, nodes, role, n)
    ensures ListsReaders(if n in nodes && Plays(nodes[n], role) then Subscribe(s, nodes[n].kind.alpha, n) else s, nodes, role, n + 1)
  {
    var after := if n in nodes && Plays(nodes[n], role) then Subscribe(s, nodes[n].kind.alpha, n) else s;
    var next := n + 1;
    forall alpha ensures ListsAt(after, nodes, role, next, alpha) {
      assert ListsAt(s, nodes, role, n, alpha);
      assert forall k :: 0 <= k < |ListFor(s, alpha)| ==> ListFor(s, alpha)[k] in ListFor(s, alpha);
    }
  }

  /** The lists rebuilt in id order hold exactly the readers. */
  lemma {:induction false} SubscribersListReaders(nodes: map<NodeId, BetaNode>, role: Role, bound: NodeId)
    ensures ListsReaders(SubscribersBelow(nodes, role, bound), nodes, role, bound)
  {
    if bound > 0 {
      SubscribersListReaders(nodes, role, bound - 1);
      SubscribeLists(SubscribersBelow(nodes, role, bound - 1), nodes, role, bound - 1);
    }
  }

  function RemapAlpha(net: Net, keep: seq<bool>): Net
    requires forall n :: n in net.nodes && net.nodes[n].ReadsAlpha() ==>
               net.nodes[n].kind.alpha < |keep| && keep[net.nodes[n].kind.alpha]
  {
    var nodes := map n | n in net.nodes :: RenumberAlpha(net.nodes[n], keep);
    net.(nodes := nodes,
         joins := SubscribersBelow(nodes, JoinRole, net.next),
         negatives := SubscribersBelow(nodes, NegativeRole, net.next),
         existentials := SubscribersBelow(nodes, ExistsRole, net.next))
  }

  predicate AlphasKept(net: Net, keep: seq<bool>) {
    forall n :: n in net.nodes && net.nodes[n].ReadsAlpha() ==>
      net.nodes[n].kind.alpha < |keep| && keep[net.nodes[n].kind.alpha]
  }

  function AlphaFlags(e: Engine, s: set<NodeId>): seq<bool>
    requires MemoriesOk(e.beta)
  {
    Flags(UsedAlphas(RetainNodes(e.beta, s).nodes), |e.paths|)
  }

  lemma AlphasAreKept(e: Engine, s: set<NodeId>)
    requires MemoriesOk(e.beta) && AlphaIdsOk(e)
    ensures AlphasKept(RetainNodes(e.beta, s), AlphaFlags(e, s))
  {
    var net := RetainNodes(e.beta, s);
    forall n | n in net.nodes && net.nodes[n].ReadsAlpha()
      ensures net.nodes[n].kind.alpha < |AlphaFlags(e, s)| && AlphaFlags(e, s)[net.nodes[n].kind.alpha]
    {
      assert e.beta.nodes[n].ReadsAlpha();
      assert net.nodes[n].kind.alpha in UsedAlphas(net.nodes);
    }
  }

  function RemappedKey(k: JoinKey, keep: seq<bool>): JoinKey
    requires k.alpha < |keep|
  {
    k.(alpha := Rank(keep, k.alpha))
  }

  /** The join cache entries whose node survives, under the renumbered alpha memory. */
  ghost predicate CacheAfter(before: map<JoinKey, NodeId>, s: set<NodeId>, keep: seq<bool>, after: map<JoinKey, NodeId>) {
    && (forall k :: k in before && before[k] in s ==>
          && k.alpha < |keep| && keep[k.alpha]
          && RemappedKey(k, keep) in after && after[RemappedKey(k, keep)] == before[k])
    && (forall j :: j in after ==> exists k :: k in before && before[k] in s && k.alpha < |keep| && RemappedKey(k, keep) == j)
  }

  /** The engine after removal: survivors, compacted tables and pruned caches. */
  ghost predicate RemovedTo(e: Engine, s: set<NodeId>, after: Engine)
    requires MemoriesOk(e.beta) && AlphaIdsOk(e) && AlphaCacheOk(e)
  {
    AlphasAreKept(e, s);
    var keep := AlphaFlags(e, s);
    && after.beta == RemapAlpha(RetainNodes(e.beta, s), keep)
    && after.paths == Compact(e.paths, keep)
    && after.alphaCache == (map k | k in e.alphaCache && keep[e.alphaCache[k]] :: Rank(keep, e.alphaCache[k]))
    && CacheAfter(e.joinCache, s, keep, after.joinCache)
  }

  // ----- what removal does to one node -----

  /** `b` is node `a` with surviving children, renumbered memories of the same contents, and the same path. */
  ghost predicate SameNode(e: Engine, f: Engine, s: set<NodeId>, n: NodeId)
    requires n in e.beta.nodes && n in f.beta.nodes
  {
    var a, b := e.beta.nodes[n], f.beta.nodes[n];
    && b.parent == a.parent && b.children == FilterChildren(a.children, s)
    && SameOperation(e, f, a.kind, b.kind)
    && (a.Inner() ==> SameContents(e.beta.memories, f.beta.memories, a.memory, b.memory))
  }

  ghost predicate SamePath(e: Engine, f: Engine, i: AlphaMemoryId, j: AlphaMemoryId) {
    i < |e.paths| && j < |f.paths| && f.paths[j] == e.paths[i]
  }

  ghost predicate SameOperation(e: Engine, f: Engine, a: Kind, b: Kind) {
    match a
    case Root => b.Root?
    case Join(alpha, tests, sequence, bindings) =>
      b.Join? && b.tests == tests && b.sequence == sequence && b.bindings == bindings && SamePath(e, f, alpha, b.alpha)
    case Predicate(_, _) => b == a
    case Terminal(_, _, _) => b == a
    case Negative(alpha, tests, sequence, m) =>
      && b.Negative? && b.tests == tests && b.sequence == sequence && SamePath(e, f, alpha, b.alpha)
      && SameContents(e.beta.negMemories, f.beta.negMemories, m, b.negMemory)
    case Ncc(partner, m) => b.Ncc? && b.partner == partner && SameContents(e.beta.nccMemories, f.beta.nccMemories, m, b.nccMemory)
    case NccPartner(ncc, m) =>
      b.NccPartner? && b.nccNode == ncc && SameContents(e.beta.nccMemories, f.beta.nccMemories, m, b.nccMemory)
    case Exists(alpha, tests, sequence, m) =>
      && b.Exists? && b.tests == tests && b.sequence == sequence && SamePath(e, f, alpha, b.alpha)
      && SameContents(e.beta.existsMemories, f.beta.existsMemories, m, b.existsMemory)
  }

  ghost predicate SameContents<T>(a: seq<Memory<T>>, b: seq<Memory<T>>, i: nat, j: nat) {
    i < |a| && j < |b| && b[j].contents == a[i].contents
  }

  lemma RenumberedAt<T>(s: seq<Memory<T>>, keep: seq<bool>, i: nat)
    requires |s| == |keep| && i < |s| && keep[i]
    ensures SameContents(s, Renumbered(Compact(s, keep)), i, Rank(keep, i))
  {
    CompactAt(s, keep, i);
  }

  lemma SurvivorsUnchanged(e: Engine, s: set<NodeId>, f: Engine, n: NodeId)
    requires MemoriesOk(e.beta) && AlphaIdsOk(e) && AlphaCacheOk(e) && RemovedTo(e, s, f)
    requires n in e.beta.nodes && n in s
    ensures n in f.beta.nodes && SameNode(e, f, s, n)
    ensures var keep := SurvivingMemories(e.beta, s).nccs;
      e.beta.nodes[n].kind.Ncc? || e.beta.nodes[n].kind.NccPartner? ==>
        && e.beta.nodes[n].kind.nccMemory < |keep|
        && f.beta.nodes[n].kind.nccMemory == Rank(keep, e.beta.nodes[n].kind.nccMemory)
  {
    RetainedCovered(e.beta, s);
    AlphasAreKept(e, s);
    var keep, alphas := SurvivingMemories(e.beta, s), AlphaFlags(e, s);
    var a := Kept(e.beta, s)[n];
    var mid := RetainNodes(e.beta, s);
    assert Covered(a, keep);
    assert mid.nodes[n] == RenumberNode(a, keep);
    assert f.beta.nodes[n] == RenumberAlpha(mid.nodes[n], alphas);
    if a.Inner() { RenumberedAt(e.beta.memories, keep.memories, a.memory); }
    SurvivorOperation(e, s, f, n, a, keep, alphas);
  }

  lemma SurvivorOperation(e: Engine, s: set<NodeId>, f: Engine, n: NodeId, a: BetaNode, keep: Surviving, alphas: seq<bool>)
    requires |keep.negatives| == |e.beta.negMemories| && |keep.nccs| == |e.beta.nccMemories|
    requires |keep.existentials| == |e.beta.existsMemories| && |alphas| == |e.paths|
    requires Covered(a, keep) && (a.ReadsAlpha() ==> a.kind.alpha < |alphas| && alphas[a.kind.alpha])
    requires f.beta.negMemories == Renumbered(Compact(e.beta.negMemories, keep.negatives))
    requires f.beta.nccMemories == Renumbered(Compact(e.beta.nccMemories, keep.nccs))
    requires f.beta.existsMemories == Renumbered(Compact(e.beta.existsMemories, keep.existentials))
    requires f.paths == Compact(e.paths, alphas)
    ensures RenumberNode(a, keep).ReadsAlpha() ==> RenumberNode(a, keep).kind.alpha == a.kind.alpha
    ensures SameOperation(e, f, a.kind, RenumberAlpha(RenumberNode(a, keep), alphas).kind)
  {
    if a.ReadsAlpha() { CompactAt(e.paths, alphas, a.kind.alpha); }
    match a.kind
    case Negative(_, _, _, m) => RenumberedAt(e.beta.negMemories, keep.negatives, m);
    case Ncc(_, m) => RenumberedAt(e.beta.nccMemories, keep.nccs, m);
    case NccPartner(_, m) => RenumberedAt(e.beta.nccMemories, keep.nccs, m);
    case Exists(_, _, _, m) => RenumberedAt(e.beta.existsMemories, keep.existentials, m);
    case _ =>
  }
}
