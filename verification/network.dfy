/** The beta graph as a value: its nodes, the memories they own, the subscriber lists and
    the operations that grow it, one per construction step of the network. */
module Network {
  import opened Syntax
  import opened Compaction
  import opened Sequences

  datatype JoinTest = JoinTest(slot: SlotIndex, variable: VarId, test: JoinTestType)

  /** What a node does with the partial matches of its parent. */
  datatype Kind =
    | Root
    | Join(alpha: AlphaMemoryId, tests: seq<JoinTest>, sequence: Option<SequencePlan>, bindings: seq<(SlotIndex, VarId)>)
    | Predicate(rule: RuleId, index: nat)
    | Terminal(rule: RuleId, salience: int, complexity: nat)
    | Negative(alpha: AlphaMemoryId, tests: seq<JoinTest>, sequence: Option<SequencePlan>, negMemory: nat)
    | Ncc(partner: NodeId, nccMemory: nat)
    | NccPartner(nccNode: NodeId, nccMemory: nat)
    | Exists(alpha: AlphaMemoryId, tests: seq<JoinTest>, sequence: Option<SequencePlan>, existsMemory: nat)

  /** A node with its links. `parent` means nothing for the root; `memory` and `children` mean
      nothing for terminals and partners, which have neither. */
  datatype BetaNode = BetaNode(kind: Kind, parent: NodeId, memory: nat, children: seq<NodeId>) {

    /** Nodes with a beta memory are exactly the nodes that can have children. */
    predicate Inner() { !kind.Terminal? && !kind.NccPartner? }

    predicate ReadsAlpha() { kind.Join? || kind.Negative? || kind.Exists? }

    /** The node apart from its child list. */
    function Core(): BetaNode { this.(children := []) }
  }

  datatype NccEntryWait = NccEntryWait(entry: NodeId, nested: bool)

  /** What a beta memory is configured for and holds: its tokens, the variables to index, and whether it ranks
      its members for the NCCs below. */
  datatype BetaContents = BetaContents(tokens: seq<TokenId>, indexedVars: seq<VarId>, ranked: bool)

  const NO_CONTENTS: BetaContents := BetaContents([], [], false)

  type Subscribers = map<AlphaMemoryId, seq<NodeId>>

  datatype Net = Net(
    nodes: map<NodeId, BetaNode>,
    root: NodeId,
    next: NodeId,
    memories: seq<Memory<BetaContents>>,
    negMemories: seq<Memory<map<TokenId, set<FactId>>>>,
    nccMemories: seq<Memory<map<TokenId, seq<TokenId>>>>,
    existsMemories: seq<Memory<map<TokenId, set<FactId>>>>,
    joins: Subscribers,
    negatives: Subscribers,
    existentials: Subscribers,
    waits: Option<map<NodeId, NccEntryWait>>)

  function EmptyNet(root: NodeId): Net {
    Net(map[root := BetaNode(Root, root, 0, [])], root, root + 1, [Memory(0, NO_CONTENTS)], [], [], [], map[], map[], map[], Some(map[]))
  }

  // ----- construction steps -----

  function AttachChild(nodes: map<NodeId, BetaNode>, parent: NodeId, child: NodeId): map<NodeId, BetaNode> {
    if parent in nodes && nodes[parent].Inner()
    then nodes[parent := nodes[parent].(children := nodes[parent].children + [child])]
    else nodes
  }

  function Subscribe(s: Subscribers, alpha: AlphaMemoryId, node: NodeId): Subscribers {
    s[alpha := (if alpha in s then s[alpha] else []) + [node]]
  }

  /** Allocate the next id for a childless node and attach it under its parent. */
  function AddNode(net: Net, kind: Kind, parent: NodeId, memory: nat): Net {
    net.(nodes := AttachChild(net.nodes[net.next := BetaNode(kind, parent, memory, [])], parent, net.next),
         next := net.next + 1)
  }

  function PushMemory(net: Net): Net {
    net.(memories := net.memories + [Memory(|net.memories|, NO_CONTENTS)])
  }

  function AddJoin(net: Net, parent: NodeId, alpha: AlphaMemoryId, tests: seq<JoinTest>,
                   bindings: seq<(SlotIndex, VarId)>, sequence: Option<SequencePlan>): Net
  {
    var grown := AddNode(PushMemory(net), Join(alpha, tests, sequence, bindings), parent, |net.memories|);
    grown.(joins := Subscribe(net.joins, alpha, net.next))
  }

  function AddPredicate(net: Net, parent: NodeId, rule: RuleId, index: nat): Net {
    AddNode(PushMemory(net), Predicate(rule, index), parent, |net.memories|)
  }

  function AddTerminal(net: Net, parent: NodeId, rule: RuleId, salience: int, complexity: nat): Net {
    AddNode(net, Terminal(rule, salience, complexity % 0x800), parent, 0)
  }

  function AddNegative(net: Net, parent: NodeId, alpha: AlphaMemoryId, tests: seq<JoinTest>,
                       sequence: Option<SequencePlan>): Net
  {
    var grown := AddNode(PushMemory(net), Negative(alpha, tests, sequence, |net.negMemories|),
                         parent, |net.memories|);
    grown.(negMemories := net.negMemories + [Memory(|net.negMemories|, map[])],
           negatives := Subscribe(net.negatives, alpha, net.next))
  }

  function AddExists(net: Net, parent: NodeId, alpha: AlphaMemoryId, tests: seq<JoinTest>,
                     sequence: Option<SequencePlan>): Net
  {
    var grown := AddNode(PushMemory(net), Exists(alpha, tests, sequence, |net.existsMemories|),
                         parent, |net.memories|);
    grown.(existsMemories := net.existsMemories + [Memory(|net.existsMemories|, map[])],
           existentials := Subscribe(net.existentials, alpha, net.next))
  }

  function AllocateNccMemory(net: Net): Net {
    net.(nccMemories := net.nccMemories + [Memory(|net.nccMemories|, map[])])
  }

  // ----- configuring a parent's memory -----

  /** The equality tests whose alpha slot has a fixed physical position: the selectors both sides index. */
  function IndexableTests(tests: seq<JoinTest>, sequence: Option<SequencePlan>): seq<(SlotIndex, VarId)> {
    if tests == [] then []
    else
      var physical := if sequence.Some? then PhysicalSelector(sequence.value, tests[0].slot) else Some(tests[0].slot);
      (if tests[0].test == EQUAL && physical.Some? then [(physical.value, tests[0].variable)] else [])
        + IndexableTests(tests[1..], sequence)
  }

  function WithVars(c: BetaContents, wanted: seq<(SlotIndex, VarId)>): BetaContents
    decreases wanted
  {
    if wanted == [] then c
    else
      var v := wanted[0].1;
      WithVars(if v in c.indexedVars then c else c.(indexedVars := c.indexedVars + [v]), wanted[1..])
  }

  /** The memory of `n` reconfigured, where `n` owns one. */
  function Configure(net: Net, n: NodeId, revise: BetaContents -> BetaContents): Net {
    if n in net.nodes && net.nodes[n].Inner() && net.nodes[n].memory < |net.memories|
    then
      var m := net.nodes[n].memory;
      net.(memories := net.memories[m := net.memories[m].(contents := revise(net.memories[m].contents))])
    else net
  }

  /** Ask the parent's memory for indices on the variables the new tests select by; the root's has none. */
  function RequestVars(net: Net, parent: NodeId, wanted: seq<(SlotIndex, VarId)>): Net {
    if parent == net.root then net else Configure(net, parent, c => WithVars(c, wanted))
  }

  function EnableRanks(net: Net, parent: NodeId): Net {
    Configure(net, parent, (c: BetaContents) => c.(ranked := true))
  }

  function AddNcc(net: Net, parent: NodeId, partner: NodeId, nccMemory: nat): Net {
    AddNode(PushMemory(EnableRanks(net, parent)), Ncc(partner, nccMemory), parent, |net.memories|)
  }

  function AddNccPartner(net: Net, parent: NodeId, ncc: NodeId, nccMemory: nat): Net {
    AddNode(net, NccPartner(ncc, nccMemory), parent, 0)
  }

  function SetNccPartner(net: Net, ncc: NodeId, partner: NodeId): Net {
    if ncc in net.nodes && net.nodes[ncc].kind.Ncc?
    then net.(nodes := net.nodes[ncc := net.nodes[ncc].(kind := net.nodes[ncc].kind.(partner := partner))])
    else net
  }

  // ----- walking up -----

  /** `above` is `n` or one of its ancestors. */
  predicate OnPath(nodes: map<NodeId, BetaNode>, above: NodeId, n: NodeId)
    decreases n
  {
    n in nodes && (n == above || (!nodes[n].kind.Root? && nodes[n].parent < n && OnPath(nodes, above, nodes[n].parent)))
  }

  /** The node on the path from `n` up to `top` whose parent is `top`. */
  function EntryBelow(nodes: map<NodeId, BetaNode>, n: NodeId, top: NodeId): Option<NodeId>
    decreases n
  {
    if n !in nodes || nodes[n].kind.Root? then None
    else if nodes[n].parent == top then Some(n)
    else if nodes[n].parent < n then EntryBelow(nodes, nodes[n].parent, top)
    else None
  }

  /** The child of an NCC's parent that begins the NCC's subnetwork. */
  function SubnetworkEntry(net: Net, ncc: NodeId): Option<NodeId> {
    if ncc in net.nodes && net.nodes[ncc].kind.Ncc?
    then EntryBelow(net.nodes, net.nodes[ncc].kind.partner, net.nodes[ncc].parent)
    else None
  }

  /** The subnetwork is one nested NCC whose output feeds the outer partner directly. */
  predicate PureDoubleNegation(net: Net, ncc: NodeId) {
    && ncc in net.nodes && net.nodes[ncc].kind.Ncc?
    && SubnetworkEntry(net, ncc).Some?
    && (var entry := SubnetworkEntry(net, ncc).value;
        && entry in net.nodes && net.nodes[entry].kind.Ncc?
        && net.nodes[ncc].kind.partner in net.nodes
        && !net.nodes[net.nodes[ncc].kind.partner].kind.Root?
        && net.nodes[net.nodes[ncc].kind.partner].parent == entry)
  }

  // ----- relinking a completed NCC -----

  function InsertAt(s: seq<NodeId>, i: nat, x: NodeId): seq<NodeId>
    requires i <= |s|
  {
    s[..i] + [x] + s[i..]
  }

  /** Index of the first element in the id range `(low, high]`, or `default`. */
  function FirstInRange(s: seq<NodeId>, low: NodeId, high: NodeId, default: nat): (i: nat)
    requires default <= |s|
    ensures i <= |s|
    ensures (forall k :: 0 <= k < |s| ==> !(low < s[k] <= high)) ==> i == default
    ensures (exists k :: 0 <= k < |s| && low < s[k] <= high) ==>
              i < |s| && low < s[i] <= high && forall k :: 0 <= k < i ==> !(low < s[k] <= high)
  {
    if exists k :: 0 <= k < |s| && low < s[k] <= high
    then FirstFrom(s, low, high, 0)
    else default
  }

  function FirstFrom(s: seq<NodeId>, low: NodeId, high: NodeId, from: nat): (i: nat)
    requires exists k :: from <= k < |s| && low < s[k] <= high
    ensures from <= i < |s| && low < s[i] <= high && forall k :: from <= k < i ==> !(low < s[k] <= high)
    decreases |s| - from
  {
    if low < s[from] <= high then from else FirstFrom(s, low, high, from + 1)
  }

  function RelinkedChildren(children: seq<NodeId>, ncc: NodeId, partner: NodeId, pure: bool): seq<NodeId> {
    var linked := Without(children, ncc);
    var second := if |linked| == 0 then 0 else |linked| - 1;
    var slot := if pure then FirstInRange(linked, ncc, partner, second) else second;
    InsertAt(linked, slot, ncc)
  }

  function LinkNcc(net: Net, ncc: NodeId): Net {
    if !(ncc in net.nodes && net.nodes[ncc].kind.Ncc?) then net
    else
      var parent, partner := net.nodes[ncc].parent, net.nodes[ncc].kind.partner;
      if parent == net.root || parent !in net.nodes || !net.nodes[parent].Inner() || net.nodes[parent].kind.Root? then net
      else
        var children := RelinkedChildren(net.nodes[parent].children, ncc, partner, PureDoubleNegation(net, ncc));
        net.(nodes := net.nodes[parent := net.nodes[parent].(children := children)])
  }

  // ----- entry waits -----

  function EntryWait(net: Net, ncc: NodeId, nested: bool): Option<NccEntryWait> {
    if SubnetworkEntry(net, ncc).Some? && (nested || PureDoubleNegation(net, ncc))
    then Some(NccEntryWait(SubnetworkEntry(net, ncc).value, nested))
    else None
  }

  function RegisterWait(net: Net, ncc: NodeId, nested: bool): Net {
    if EntryWait(net, ncc, nested).Some? && net.waits.Some?
    then net.(waits := Some(net.waits.value[ncc := EntryWait(net, ncc, nested).value]))
    else net
  }
}
