/** The NCC entry-wait index: kept up during compilation, it always equals the one rebuilt from the graph. */
module Waits {
  import opened Syntax
  import opened Sequences
  import opened Network
  import opened WellFormed
  import opened Relink
  import opened Compile

  /** Some partner below `n` reports to an NCC older than `n`: the output of `n` feeds that NCC. */
  ghost predicate Feeds(nodes: map<NodeId, BetaNode>, n: NodeId) {
    exists p :: p in nodes && FeedsThrough(nodes, n, p)
  }

  predicate FeedsThrough(nodes: map<NodeId, BetaNode>, n: NodeId, p: NodeId)
    requires p in nodes
  {
    nodes[p].kind.NccPartner? && nodes[p].kind.nccNode < n && OnPath(nodes, n, p)
  }

  ghost function WaitOf(net: Net, n: NodeId): Option<NccEntryWait> {
    if n in net.nodes && net.nodes[n].kind.Ncc? then EntryWait(net, n, Feeds(net.nodes, n)) else None
  }

  /** The index built from scratch. */
  ghost function RebuiltWaits(net: Net): map<NodeId, NccEntryWait> {
    map n | n in net.nodes && WaitOf(net, n).Some? :: WaitOf(net, n).value
  }

  ghost predicate WaitsOk(net: Net) {
    net.waits.Some? ==> net.waits.value == RebuiltWaits(net)
  }

  /** `entry` is the child of `top` on the way down to `n`. */
  ghost predicate EntryOnPath(nodes: map<NodeId, BetaNode>, entry: NodeId, n: NodeId, top: NodeId) {
    entry in nodes && !nodes[entry].kind.Root? && nodes[entry].parent == top && top < entry && OnPath(nodes, entry, n)
  }

  /** What a wait says of its NCC, told by the graph: whether the NCC feeds an enclosing subnetwork, and the child of
      its parent on the way down to its partner. */
  ghost predicate WaitTells(net: Net, ncc: NodeId, wait: NccEntryWait) {
    && ncc in net.nodes && net.nodes[ncc].kind.Ncc? && (wait.nested <==> Feeds(net.nodes, ncc))
    && EntryOnPath(net.nodes, wait.entry, net.nodes[ncc].kind.partner, net.nodes[ncc].parent)
  }

  ghost predicate IndexTells(net: Net) {
    net.waits.Some? ==> forall ncc :: ncc in net.waits.value ==> WaitTells(net, ncc, net.waits.value[ncc])
  }

  // ----- paths only depend on parents -----

  ghost predicate Older(nodes: map<NodeId, BetaNode>) {
    forall m :: m in nodes && !nodes[m].kind.Root? ==> nodes[m].parent in nodes && nodes[m].parent < m
  }

  predicate SameRole(a: BetaNode, b: BetaNode) {
    && a.parent == b.parent && (a.kind.Root? <==> b.kind.Root?) && (a.kind.Ncc? <==> b.kind.Ncc?)
    && (a.kind.NccPartner? <==> b.kind.NccPartner?)
    && (a.kind.NccPartner? ==> a.kind.nccNode == b.kind.nccNode)
  }

  /** Every node of `a` is in `b` with the same parent and the same role. */
  ghost predicate Skeleton(a: map<NodeId, BetaNode>, b: map<NodeId, BetaNode>) {
    forall m :: m in a ==> m in b && SameRole(a[m], b[m])
  }

  lemma TreeIsOlder(net: Net)
    requires TreeOk(net)
    ensures Older(net.nodes)
  {
    forall m | m in net.nodes && !net.nodes[m].kind.Root?
      ensures net.nodes[m].parent in net.nodes && net.nodes[m].parent < m
    {
      assert HasOlderParent(net.nodes, m);
    }
  }

  lemma {:induction false} OnPathStable(a: map<NodeId, BetaNode>, b: map<NodeId, BetaNode>, x: NodeId, n: NodeId)
    requires Skeleton(a, b) && Older(a) && n in a
    ensures OnPath(a, x, n) <==> OnPath(b, x, n)
    decreases n
  {
    assert SameRole(a[n], b[n]);
    if n != x && !a[n].kind.Root? { OnPathStable(a, b, x, a[n].parent); }
  }

  lemma {:induction false} EntryBelowStable(a: map<NodeId, BetaNode>, b: map<NodeId, BetaNode>, n: NodeId, top: NodeId)
    requires Skeleton(a, b) && Older(a) && n in a
    ensures EntryBelow(a, n, top) == EntryBelow(b, n, top)
    ensures EntryBelow(a, n, top).Some? ==> EntryBelow(a, n, top).value in a
    decreases n
  {
    assert SameRole(a[n], b[n]);
    if !a[n].kind.Root? && a[n].parent != top { EntryBelowStable(a, b, a[n].parent, top); }
  }

  lemma {:induction false} OnPathDown(nodes: map<NodeId, BetaNode>, x: NodeId, n: NodeId)
    requires OnPath(nodes, x, n)
    ensures x <= n && x in nodes
    decreases n
  {
    if n != x { OnPathDown(nodes, x, nodes[n].parent); }
  }

  lemma {:induction false} OnPathTransitive(nodes: map<NodeId, BetaNode>, x: NodeId, y: NodeId, z: NodeId)
    requires OnPath(nodes, x, y) && OnPath(nodes, y, z)
    ensures OnPath(nodes, x, z)
    decreases z
  {
    if z != y { OnPathTransitive(nodes, x, y, nodes[z].parent); }
  }

  /** Paths are linear: two nodes on one path are on one path with each other. */
  lemma {:induction false} OnPathLinear(nodes: map<NodeId, BetaNode>, x: NodeId, y: NodeId, z: NodeId)
    requires OnPath(nodes, x, z) && OnPath(nodes, y, z) && x <= y
    ensures OnPath(nodes, x, y)
    decreases z
  {
    if z == y {
    } else if z == x {
      OnPathDown(nodes, y, z);
      OnPathDown(nodes, y, nodes[z].parent);
    } else {
      OnPathLinear(nodes, x, y, nodes[z].parent);
    }
  }

  /** The wait of a finished NCC only depends on parents, roles and its own partner pointer. */
  lemma EntryWaitStable(a: Net, b: Net, n: NodeId, nested: bool)
    requires Skeleton(a.nodes, b.nodes) && Older(a.nodes)
    requires n in a.nodes && a.nodes[n].kind.Ncc? && a.nodes[n].kind.partner in a.nodes
    requires b.nodes[n].kind.Ncc? && b.nodes[n].kind.partner == a.nodes[n].kind.partner
    ensures EntryWait(a, n, nested) == EntryWait(b, n, nested)
  {
    var p := a.nodes[n].kind.partner;
    assert SameRole(a.nodes[n], b.nodes[n]) && SameRole(a.nodes[p], b.nodes[p]);
    EntryBelowStable(a.nodes, b.nodes, p, a.nodes[n].parent);
    if SubnetworkEntry(a, n).Some? {
      var entry := SubnetworkEntry(a, n).value;
      assert SameRole(a.nodes[entry], b.nodes[entry]);
    }
  }

  /** New partners report to new NCCs, so what an older NCC feeds never changes. */
  lemma FeedsStable(a: map<NodeId, BetaNode>, b: map<NodeId, BetaNode>, n: NodeId)
    requires Skeleton(a, b) && Older(a) && n in a
    requires forall p :: p in b && p !in a && b[p].kind.NccPartner? ==> n <= b[p].kind.nccNode
    ensures Feeds(a, n) <==> Feeds(b, n)
  {
    if p :| p in a && FeedsThrough(a, n, p) {
      OnPathStable(a, b, n, p);
      assert SameRole(a[p], b[p]);
      assert FeedsThrough(b, n, p);
    }
    if p :| p in b && FeedsThrough(b, n, p) {
      assert p in a;
      OnPathStable(a, b, n, p);
      assert SameRole(a[p], b[p]);
      assert FeedsThrough(a, n, p);
    }
  }

  // ----- what one compilation step does to the index -----

  /** NCCs finished between `a` and `b`, where the chain now ends in `r`: those on the chain carry the
      flag `nested` and feed nothing yet; all others are inside a finished conjunction and feed it. */
  ghost predicate WaitsGrew(a: Net, b: Net, r: NodeId, nested: bool) {
    && (a.waits.Some? <==> b.waits.Some?)
    && (forall n :: n in b.nodes && n !in a.nodes && b.nodes[n].kind.Ncc? ==> NewNcc(a, b, n, r, nested))
    && (forall n :: b.waits.Some? && (n in a.nodes || n !in b.nodes || !b.nodes[n].kind.Ncc?) ==>
          SameEntry(a.waits.value, b.waits.value, n))
  }

  ghost predicate SameEntry(a: map<NodeId, NccEntryWait>, b: map<NodeId, NccEntryWait>, n: NodeId) {
    (n in a <==> n in b) && (n in a ==> a[n] == b[n])
  }

  ghost predicate NewNcc(a: Net, b: Net, n: NodeId, r: NodeId, nested: bool)
    requires n in b.nodes && b.nodes[n].kind.Ncc?
  {
    && Paired(b.nodes, n)
    && (Feeds(b.nodes, n) <==> !OnPath(b.nodes, n, r))
    && (b.waits.Some? ==>
          Recorded(b.waits.value, n, EntryWait(b, n, if OnPath(b.nodes, n, r) then nested else true)))
  }

  ghost predicate Recorded(waits: map<NodeId, NccEntryWait>, n: NodeId, wait: Option<NccEntryWait>) {
    (n in waits <==> wait.Some?) && (n in waits ==> waits[n] == wait.value)
  }

  /** The chain: `r` lies below `parent`, and the NCCs in between were all built on the way. */
  ghost predicate ChainGrew(a: Net, b: Net, parent: NodeId, r: NodeId) {
    && OnPath(b.nodes, parent, r)
    && (forall x :: x in a.nodes && a.nodes[x].kind.Ncc? && OnPath(b.nodes, x, r) ==> OnPath(a.nodes, x, parent))
  }

  /** New partners report to new NCCs from the bottom of their own chain. */
  ghost predicate PartnersNew(a: Net, b: Net) {
    forall p :: p in b.nodes && p !in a.nodes && b.nodes[p].kind.NccPartner? ==>
      a.next <= b.nodes[p].kind.nccNode && Chained(b.nodes, p)
  }

  /** A partner hangs below its NCC's parent, and every NCC in between was built after its own. */
  ghost predicate Chained(nodes: map<NodeId, BetaNode>, p: NodeId)
    requires p in nodes && nodes[p].kind.NccPartner?
  {
    var ncc := nodes[p].kind.nccNode;
    && ncc in nodes && OnPath(nodes, nodes[ncc].parent, p)
    && forall x :: x in nodes && nodes[x].kind.Ncc? && OnPath(nodes, x, p) ==>
         ncc < x || OnPath(nodes, x, nodes[ncc].parent)
  }

  ghost predicate ReportsToNcc(net: Net) {
    forall p :: p in net.nodes && net.nodes[p].kind.NccPartner? ==>
      net.nodes[p].kind.nccNode in net.nodes && net.nodes[net.nodes[p].kind.nccNode].kind.Ncc?
  }

  lemma PairsReport(net: Net, open: set<NodeId>)
    requires PairsOk(net, open)
    ensures ReportsToNcc(net)
  {
    forall p | p in net.nodes && net.nodes[p].kind.NccPartner?
      ensures net.nodes[p].kind.nccNode in net.nodes && net.nodes[net.nodes[p].kind.nccNode].kind.Ncc?
    {
      assert PartnerOf(net.nodes, p);
    }
  }

  lemma ChainedStable(a: map<NodeId, BetaNode>, b: map<NodeId, BetaNode>, p: NodeId)
    requires Skeleton(a, b) && Older(a) && p in a && a[p].kind.NccPartner? && Chained(a, p)
    requires !a[a[p].kind.nccNode].kind.Root?
    ensures SameRole(a[p], b[p]) && Chained(b, p)
  {
    var ncc := a[p].kind.nccNode;
    assert SameRole(a[p], b[p]) && SameRole(a[ncc], b[ncc]);
    OnPathStable(a, b, a[ncc].parent, p);
    forall x | x in b && b[x].kind.Ncc? && OnPath(b, x, p) ensures ncc < x || OnPath(b, x, b[ncc].parent) {
      OnPathStable(a, b, x, p);
      OnPathDown(a, x, p);
      assert SameRole(a[x], b[x]);
      OnPathStable(a, b, x, a[ncc].parent);
    }
  }

  ghost predicate Stepped(a: Net, b: Net, parent: NodeId, r: NodeId, nested: bool) {
    WaitsGrew(a, b, r, nested) && ChainGrew(a, b, parent, r) && PartnersNew(a, b)
  }

  lemma CoresAreSkeleton(a: Net, b: Net)
    requires Extends(a, b)
    ensures Skeleton(a.nodes, b.nodes)
  {
    forall m | m in a.nodes ensures SameRole(a.nodes[m], b.nodes[m]) {
      assert a.nodes[m].Core() == b.nodes[m].Core();
    }
  }

  /** A step that adds no NCC, or reuses a node, below `parent`. */
  lemma PlainStep(a: Net, b: Net, parent: NodeId, r: NodeId, nested: bool)
    requires TreeOk(a) && TreeOk(b) && Extends(a, b) && a.waits == b.waits && parent in a.nodes
    requires r in b.nodes && !b.nodes[r].kind.Root? && !b.nodes[r].kind.Ncc? && b.nodes[r].parent == parent
    requires forall n :: n in b.nodes && n !in a.nodes ==> !b.nodes[n].kind.Ncc? && !b.nodes[n].kind.NccPartner?
    ensures Stepped(a, b, parent, r, nested)
  {
    TreeIsOlder(a);
    TreeIsOlder(b);
    CoresAreSkeleton(a, b);
    assert OnPath(b.nodes, parent, parent);
    forall x | x in a.nodes && a.nodes[x].kind.Ncc? && OnPath(b.nodes, x, r) ensures OnPath(a.nodes, x, parent) {
      assert SameRole(a.nodes[x], b.nodes[x]);
      OnPathStable(a.nodes, b.nodes, x, parent);
    }
  }

  lemma EmptyStep(a: Net, parent: NodeId, nested: bool)
    requires parent in a.nodes
    ensures Stepped(a, a, parent, parent, nested)
  {
  }

  lemma StepsCompose(a: Net, b: Net, c: Net, parent: NodeId, mid: NodeId, r: NodeId, nested: bool)
    requires TreeOk(a) && TreeOk(b) && TreeOk(c) && Extends(a, b) && Extends(b, c) && ReportsToNcc(b)
    requires mid in b.nodes && r in c.nodes && parent in a.nodes
    requires Stepped(a, b, parent, mid, nested) && Stepped(b, c, mid, r, nested)
    ensures Stepped(a, c, parent, r, nested)
  {
    TreeIsOlder(a);
    TreeIsOlder(b);
    CoresAreSkeleton(a, b);
    CoresAreSkeleton(b, c);
    OnPathStable(b.nodes, c.nodes, parent, mid);
    OnPathTransitive(c.nodes, parent, mid, r);
    forall x | x in a.nodes && a.nodes[x].kind.Ncc? && OnPath(c.nodes, x, r) ensures OnPath(a.nodes, x, parent) {
      assert SameRole(a.nodes[x], b.nodes[x]);
    }
    forall n | n in c.nodes && n !in a.nodes && c.nodes[n].kind.Ncc? ensures NewNcc(a, c, n, r, nested) {
      if n in b.nodes { OlderNccKept(a, b, c, mid, r, n, nested); }
    }
    PartnersCompose(a, b, c);
    if c.waits.Some? {
      forall n | n in a.nodes || n !in c.nodes || !c.nodes[n].kind.Ncc? ensures SameEntry(a.waits.value, c.waits.value, n) {
        if n in b.nodes { assert SameRole(b.nodes[n], c.nodes[n]); }
        assert SameEntry(a.waits.value, b.waits.value, n);
        assert SameEntry(b.waits.value, c.waits.value, n);
      }
    }
  }

  lemma PartnersCompose(a: Net, b: Net, c: Net)
    requires Skeleton(b.nodes, c.nodes) && Older(b.nodes) && a.next <= b.next
    requires PartnersNew(a, b) && PartnersNew(b, c)
    requires ReportsToNcc(b)
    ensures PartnersNew(a, c)
  {
    forall p | p in c.nodes && p !in a.nodes && c.nodes[p].kind.NccPartner?
      ensures a.next <= c.nodes[p].kind.nccNode && Chained(c.nodes, p)
    {
      if p in b.nodes {
        assert SameRole(b.nodes[p], c.nodes[p]);
        ChainedStable(b.nodes, c.nodes, p);
      }
    }
  }

  lemma OlderNccKept(a: Net, b: Net, c: Net, mid: NodeId, r: NodeId, n: NodeId, nested: bool)
    requires TreeOk(b) && TreeOk(c) && Extends(b, c) && Skeleton(b.nodes, c.nodes) && Older(b.nodes)
    requires mid in b.nodes && r in c.nodes
    requires n in b.nodes && n !in a.nodes && c.nodes[n].kind.Ncc? && b.nodes[n].kind.Ncc?
    requires NewNcc(a, b, n, mid, nested) && Stepped(b, c, mid, r, nested)
    ensures NewNcc(a, c, n, r, nested)
  {
    assert b.nodes[n].Core() == c.nodes[n].Core();
    var p := b.nodes[n].kind.partner;
    assert b.nodes[p].Core() == c.nodes[p].Core();
    FeedsStable(b.nodes, c.nodes, n);
    EntryWaitStable(b, c, n, nested);
    EntryWaitStable(b, c, n, true);
    OnPathStable(b.nodes, c.nodes, n, mid);
    if OnPath(b.nodes, n, mid) { OnPathTransitive(c.nodes, n, mid, r); }
    if b.waits.Some? { assert SameEntry(b.waits.value, c.waits.value, n); }
  }

  // ----- closing an NCC -----

  /** The graph around a finished NCC: `a` before, `grown` with the subnetwork built down to `bottom`,
      `done` with the partner in place. */
  ghost predicate Closure(a: Net, grown: Net, done: Net, parent: NodeId, bottom: NodeId) {
    && Older(a.nodes) && Older(grown.nodes) && Older(done.nodes)
    && Skeleton(a.nodes, done.nodes) && Skeleton(grown.nodes, done.nodes)
    && parent in a.nodes && a.next !in a.nodes && bottom in grown.nodes && a.next in grown.nodes
    && (forall n :: n in a.nodes ==> n < a.next)
    && done.nodes.Keys == grown.nodes.Keys + {grown.next} && grown.next !in grown.nodes && a.next < grown.next
    && done.nodes[a.next].parent == parent && done.nodes[a.next].kind.Ncc?
    && done.nodes[a.next].kind.partner == grown.next
    && done.nodes[grown.next].parent == bottom && done.nodes[grown.next].kind == NccPartner(a.next, done.nodes[a.next].kind.nccMemory)
    && (forall n :: n in grown.nodes && n != a.next ==> done.nodes[n].Core() == grown.nodes[n].Core())
  }

  lemma ClosureHolds(a: Net, grown: Net, closed: Net, finished: Net, parent: NodeId, bottom: NodeId)
    requires TreeOk(a) && TreeOk(grown) && TreeOk(finished) && Extends(a, grown)
    requires a.next < grown.next && a.next !in a.nodes && parent in a.nodes && bottom in grown.nodes
    requires a.next in grown.nodes && grown.nodes[a.next].kind.Ncc? && grown.nodes[a.next].parent == parent
    requires grown.nodes[a.next].kind.partner == grown.root
    requires ClosedBy(grown, closed, a.next, bottom) && Rearranged(closed, finished)
    ensures Closure(a, grown, finished, parent, bottom)
  {
    TreeIsOlder(a);
    TreeIsOlder(grown);
    TreeIsOlder(finished);
    ClosedGrowth(a, grown, closed, finished, a.next, bottom);
    CoresAreSkeleton(a, finished);
    forall m | m in grown.nodes ensures m in finished.nodes && SameRole(grown.nodes[m], finished.nodes[m]) {
      if m != a.next { assert finished.nodes[m].Core() == grown.nodes[m].Core(); }
      else { assert finished.nodes[m].Core().parent == grown.nodes[m].Core().parent; }
    }
    assert finished.nodes[a.next].parent == finished.nodes[a.next].Core().parent;
    assert finished.nodes[a.next].kind == finished.nodes[a.next].Core().kind;
    assert finished.nodes[grown.next].parent == finished.nodes[grown.next].Core().parent;
    assert finished.nodes[grown.next].kind == finished.nodes[grown.next].Core().kind;
  }

  /** The index only names nodes of the graph. */
  ghost predicate WaitsKnown(net: Net) {
    net.waits.Some? ==> forall n :: n in net.waits.value ==> n in net.nodes
  }

  /** Inside a finished conjunction every NCC feeds it. */
  lemma InnerNccFeeds(a: Net, begun: Net, grown: Net, done: Net, parent: NodeId, bottom: NodeId, n: NodeId)
    requires Closure(a, grown, done, parent, bottom)
    requires n in grown.nodes && grown.nodes[n].kind.Ncc? && a.next < n
    requires NewNcc(begun, grown, n, bottom, true)
    ensures Feeds(done.nodes, n) && Paired(done.nodes, n) && !OnPath(done.nodes, n, a.next)
    ensures EntryWait(done, n, true) == EntryWait(grown, n, true)
  {
    assert done.nodes[n].Core() == grown.nodes[n].Core();
    var p := grown.nodes[n].kind.partner;
    assert done.nodes[p].Core() == grown.nodes[p].Core();
    EntryWaitStable(grown, done, n, true);
    if OnPath(done.nodes, n, a.next) { OnPathDown(done.nodes, n, a.next); }
    OnPathStable(grown.nodes, done.nodes, n, bottom);
    if OnPath(grown.nodes, n, bottom) {
      assert FeedsThrough(done.nodes, n, grown.next);
    } else {
      var q :| q in grown.nodes && FeedsThrough(grown.nodes, n, q);
      OnPathStable(grown.nodes, done.nodes, n, q);
      assert SameRole(grown.nodes[q], done.nodes[q]);
      assert FeedsThrough(done.nodes, n, q);
    }
  }

  /** The NCC just finished feeds nothing yet. */
  lemma OuterNccFeedsNothing(a: Net, begun: Net, grown: Net, done: Net, parent: NodeId, bottom: NodeId)
    requires Closure(a, grown, done, parent, bottom)
    requires begun.nodes.Keys == a.nodes.Keys + {a.next} && begun.next == a.next + 1 && PartnersNew(begun, grown)
    ensures !Feeds(done.nodes, a.next)
  {
    if p :| p in done.nodes && FeedsThrough(done.nodes, a.next, p) {
      OnPathDown(done.nodes, a.next, p);
    }
  }

  /** What finishing does to the index: one entry at most. */
  ghost predicate OneWait(grown: Net, done: Net, ncc: NodeId, nested: bool) {
    && (grown.waits.Some? <==> done.waits.Some?)
    && (grown.waits.Some? ==> (
          var wait := EntryWait(done, ncc, nested);
          done.waits.value == if wait.Some? then grown.waits.value[ncc := wait.value] else grown.waits.value))
  }

  lemma FinishedWaits(closed: Net, ncc: NodeId, nested: bool)
    ensures OneWait(closed, FinishNcc(closed, ncc, nested), ncc, nested)
  {
    var linked := LinkNcc(closed, ncc);
    var finished := FinishNcc(closed, ncc, nested);
    assert linked.waits == closed.waits && finished.nodes == linked.nodes;
    assert SubnetworkEntry(linked, ncc) == SubnetworkEntry(finished, ncc);
    assert PureDoubleNegation(linked, ncc) <==> PureDoubleNegation(finished, ncc);
  }

  lemma NccStep(a: Net, begun: Net, grown: Net, done: Net, parent: NodeId, bottom: NodeId, nested: bool)
    requires Closure(a, grown, done, parent, bottom) && WaitsKnown(a) && OneWait(grown, done, a.next, nested)
    requires begun.nodes.Keys == a.nodes.Keys + {a.next} && begun.next == a.next + 1 && begun.waits == a.waits
    requires begun.nodes[a.next].kind.Ncc? && Skeleton(a.nodes, begun.nodes) && ReportsToNcc(grown)
    requires Extends(begun, grown) && Stepped(begun, grown, parent, bottom, true)
    ensures Stepped(a, done, parent, a.next, nested)
  {
    NccStepNew(a, begun, grown, done, parent, bottom, nested);
    NccStepOld(a, begun, grown, done, parent, bottom, nested);
    NccStepChain(a, begun, grown, done, parent, bottom);
  }

  lemma NccStepChain(a: Net, begun: Net, grown: Net, done: Net, parent: NodeId, bottom: NodeId)
    requires Closure(a, grown, done, parent, bottom) && ReportsToNcc(grown)
    requires begun.nodes.Keys == a.nodes.Keys + {a.next} && begun.next == a.next + 1 && PartnersNew(begun, grown)
    requires Skeleton(a.nodes, begun.nodes) && ChainGrew(begun, grown, parent, bottom) && begun.nodes[a.next].kind.Ncc?
    requires Extends(begun, grown)
    ensures ChainGrew(a, done, parent, a.next) && PartnersNew(a, done)
  {
    assert OnPath(done.nodes, parent, a.next);
    forall x | x in a.nodes && a.nodes[x].kind.Ncc? && OnPath(done.nodes, x, a.next) ensures OnPath(a.nodes, x, parent) {
      OnPathStable(a.nodes, done.nodes, x, parent);
    }
    ClosingPartnerChained(a, begun, grown, done, parent, bottom);
    forall p | p in done.nodes && p !in a.nodes && done.nodes[p].kind.NccPartner?
      ensures a.next <= done.nodes[p].kind.nccNode && Chained(done.nodes, p)
    {
      if p != grown.next {
        assert SameRole(grown.nodes[p], done.nodes[p]);
        ChainedStable(grown.nodes, done.nodes, p);
      }
    }
  }

  /** The closing partner hangs below the chain its NCC's conjunction built. */
  lemma ClosingPartnerChained(a: Net, begun: Net, grown: Net, done: Net, parent: NodeId, bottom: NodeId)
    requires Closure(a, grown, done, parent, bottom)
    requires begun.nodes.Keys == a.nodes.Keys + {a.next} && begun.nodes[a.next].kind.Ncc?
    requires Skeleton(a.nodes, begun.nodes) && ChainGrew(begun, grown, parent, bottom)
    requires begun.next == a.next + 1 && Extends(begun, grown)
    ensures Chained(done.nodes, grown.next)
  {
    var q := grown.next;
    OnPathStable(grown.nodes, done.nodes, parent, bottom);
    OnPathTransitive(done.nodes, parent, bottom, q);
    forall x | x in done.nodes && done.nodes[x].kind.Ncc? && OnPath(done.nodes, x, q)
      ensures a.next < x || OnPath(done.nodes, x, parent)
    {
      OnPathStable(grown.nodes, done.nodes, x, bottom);
      OnPathDown(grown.nodes, x, bottom);
      if x <= a.next {
        assert x in begun.nodes && begun.nodes[x].Core() == grown.nodes[x].Core();
        assert SameRole(grown.nodes[x], done.nodes[x]);
        ChainStartsAbove(a, begun, grown, done, parent, bottom, x);
      }
    }
  }

  lemma ChainStartsAbove(a: Net, begun: Net, grown: Net, done: Net, parent: NodeId, bottom: NodeId, x: NodeId)
    requires Closure(a, grown, done, parent, bottom)
    requires begun.nodes.Keys == a.nodes.Keys + {a.next} && begun.nodes[a.next].kind.Ncc?
    requires Skeleton(a.nodes, begun.nodes) && ChainGrew(begun, grown, parent, bottom)
    requires x in begun.nodes && begun.nodes[x].kind.Ncc? && OnPath(grown.nodes, x, bottom)
    ensures OnPath(done.nodes, x, parent)
  {
    assert OnPath(begun.nodes, x, parent);
    OnPathStable(a.nodes, begun.nodes, x, parent);
    OnPathStable(a.nodes, done.nodes, x, parent);
  }

  lemma NccStepNew(a: Net, begun: Net, grown: Net, done: Net, parent: NodeId, bottom: NodeId, nested: bool)
    requires Closure(a, grown, done, parent, bottom) && WaitsKnown(a) && OneWait(grown, done, a.next, nested)
    requires begun.nodes.Keys == a.nodes.Keys + {a.next} && begun.next == a.next + 1 && begun.waits == a.waits
    requires Extends(begun, grown) && Stepped(begun, grown, parent, bottom, true)
    ensures forall n :: n in done.nodes && n !in a.nodes && done.nodes[n].kind.Ncc? ==> NewNcc(a, done, n, a.next, nested)
  {
    OuterNccFeedsNothing(a, begun, grown, done, parent, bottom);
    forall n | n in done.nodes && n !in a.nodes && done.nodes[n].kind.Ncc? ensures NewNcc(a, done, n, a.next, nested) {
      if n == a.next {
        if grown.waits.Some? { assert SameEntry(begun.waits.value, grown.waits.value, n); }
      } else {
        assert SameRole(grown.nodes[n], done.nodes[n]);
        assert NewNcc(begun, grown, n, bottom, true);
        InnerNccFeeds(a, begun, grown, done, parent, bottom, n);
      }
    }
  }

  lemma NccStepOld(a: Net, begun: Net, grown: Net, done: Net, parent: NodeId, bottom: NodeId, nested: bool)
    requires Closure(a, grown, done, parent, bottom) && OneWait(grown, done, a.next, nested)
    requires begun.nodes.Keys == a.nodes.Keys + {a.next} && begun.waits == a.waits
    requires Stepped(begun, grown, parent, bottom, true)
    ensures a.waits.Some? <==> done.waits.Some?
    ensures forall n | a.waits.Some? && (n in a.nodes || n !in done.nodes || !done.nodes[n].kind.Ncc?) ::
              SameEntry(a.waits.value, done.waits.value, n)
  {
    if a.waits.Some? {
      forall n | n in a.nodes || n !in done.nodes || !done.nodes[n].kind.Ncc?
        ensures SameEntry(a.waits.value, done.waits.value, n)
      {
        if n in grown.nodes { assert SameRole(grown.nodes[n], done.nodes[n]); }
        assert SameEntry(begun.waits.value, grown.waits.value, n);
      }
    }
  }

  // ----- the compiler keeps the index -----

  lemma KnownAfter(a: Net, b: Net, parent: NodeId, r: NodeId, nested: bool)
    requires WaitsKnown(a) && Extends(a, b) && Stepped(a, b, parent, r, nested)
    ensures WaitsKnown(b)
  {
    if b.waits.Some? {
      forall n | n in b.waits.value ensures n in b.nodes {
        assert n !in b.nodes ==> SameEntry(a.waits.value, b.waits.value, n);
      }
    }
  }

  lemma PatternStep(e: Engine, open: set<NodeId>, cx: Context, parent: NodeId, p: Pattern, bound: set<Symbol>, nested: bool, up: Term)
    requires Registered(p, cx.ids) && Built(e, e, open, parent, up)
    ensures var (e1, n) := CompilePattern(e, cx, parent, p, bound); Stepped(e.beta, e1.beta, parent, n, nested)
  {
    ReadyPatternOk(e, open, cx, parent, p, bound);
    var (ea, alpha) := ReadyPattern(e, cx, parent, p, bound);
    var tests := JoinTests(p, cx.ids, bound);
    if p.negated {
      NegativeStep(ea.beta, open, parent, alpha, tests, p.sequence, nested);
    } else if p.exists_ {
      ExistsStep(ea.beta, open, parent, alpha, tests, p.sequence, nested);
    } else {
      JoinStep(ea, open, JoinKey(parent, alpha, tests, Extractions(p.variableSlots, cx.ids, bound), p.sequence), nested);
    }
    var (e1, n) := CompilePattern(e, cx, parent, p, bound);
    StepAfterConfiguring(e.beta, ea.beta, e1.beta, parent, n, nested);
  }

  lemma StepAfterConfiguring(a: Net, ready: Net, b: Net, parent: NodeId, r: NodeId, nested: bool)
    requires Reconfigured(a, ready) && Stepped(ready, b, parent, r, nested)
    ensures Stepped(a, b, parent, r, nested)
  {
    forall n ensures WaitOf(a, n) == WaitOf(ready, n) {}
  }

  lemma NegativeStep(net: Net, open: set<NodeId>, parent: NodeId, alpha: AlphaMemoryId, tests: seq<JoinTest>,
                     sequence: Option<SequencePlan>, nested: bool)
    requires Wf(net, open) && parent in net.nodes && net.nodes[parent].Inner()
    ensures Stepped(net, AddNegative(net, parent, alpha, tests, sequence), parent, net.next, nested)
  {
    AddNegativeWf(net, open, parent, alpha, tests, sequence);
    PlainStep(net, AddNegative(net, parent, alpha, tests, sequence), parent, net.next, nested);
  }

  lemma ExistsStep(net: Net, open: set<NodeId>, parent: NodeId, alpha: AlphaMemoryId, tests: seq<JoinTest>,
                   sequence: Option<SequencePlan>, nested: bool)
    requires Wf(net, open) && parent in net.nodes && net.nodes[parent].Inner()
    ensures Stepped(net, AddExists(net, parent, alpha, tests, sequence), parent, net.next, nested)
  {
    AddExistsWf(net, open, parent, alpha, tests, sequence);
    PlainStep(net, AddExists(net, parent, alpha, tests, sequence), parent, net.next, nested);
  }

  lemma PredicateStep(net: Net, open: set<NodeId>, parent: NodeId, rule: RuleId, index: nat, nested: bool)
    requires Wf(net, open) && parent in net.nodes && net.nodes[parent].Inner()
    ensures Stepped(net, AddPredicate(net, parent, rule, index), parent, net.next, nested)
  {
    AddPredicateWf(net, open, parent, rule, index);
    PlainStep(net, AddPredicate(net, parent, rule, index), parent, net.next, nested);
  }

  lemma JoinStep(e: Engine, open: set<NodeId>, key: JoinKey, nested: bool)
    requires EngineWf(e, open) && key.alpha < |e.paths|
    requires key.parent in e.beta.nodes && e.beta.nodes[key.parent].Inner()
    ensures var (e1, n) := EnsureJoin(e, key); Stepped(e.beta, e1.beta, key.parent, n, nested)
  {
    if key in e.joinCache {
      assert CachedJoin(e, key);
      PlainStep(e.beta, e.beta, key.parent, e.joinCache[key], nested);
    } else {
      AddJoinWf(e.beta, open, key.parent, key.alpha, key.tests, key.bindings, key.sequence);
      PlainStep(e.beta, EnsureJoin(e, key).0.beta, key.parent, e.beta.next, nested);
    }
  }

  lemma {:induction false} OneStep(e: Engine, open: set<NodeId>, cx: Context, parent: NodeId, c: Condition, bound: set<Symbol>,
                                   nested: bool, up: Term)
    requires RegisteredIn(c, cx.ids) && Built(e, e, open, parent, up) && WaitsKnown(e.beta)
    ensures var (e1, n) := CompileOne(e, cx, parent, c, bound, nested); Stepped(e.beta, e1.beta, parent, n, nested)
    decreases c
  {
    match c
    case PatternCE(p) => PatternStep(e, open, cx, parent, p, bound, nested, up);
    case PredicateCE(index) => PredicateStep(e.beta, open, parent, cx.rule, index, nested);
    case NccCE(subs) =>
      var begun := e.(beta := OpenNcc(e.beta, parent));
      OpenedReady(e, open, parent, up);
      hide Built, Stepped, WaitsKnown, OpenNcc;
      CompileSeqOk(begun, open + {e.beta.next}, cx, parent, subs, bound, true, up);
      SeqStep(begun, open + {e.beta.next}, cx, parent, subs, bound, true, up);
      var (e1, bottom) := CompileSeq(begun, cx, parent, subs, bound, true);
      NccStepped(e, begun, e1, open, parent, bottom, nested, up, TermOf(cx, subs, up, bound));
  }

  lemma OpenedReady(e: Engine, open: set<NodeId>, parent: NodeId, up: Term)
    requires Built(e, e, open, parent, up) && WaitsKnown(e.beta)
    ensures var begun := e.(beta := OpenNcc(e.beta, parent));
      Built(begun, begun, open + {e.beta.next}, parent, up) && WaitsKnown(begun.beta)
  {
    OpenedOk(e, open, parent, up);
    BuiltAgain(e, e.(beta := OpenNcc(e.beta, parent)), open + {e.beta.next}, parent, up);
  }

  lemma NccStepped(e: Engine, begun: Engine, e1: Engine, open: set<NodeId>, parent: NodeId, bottom: NodeId, nested: bool, up: Term, sub: Term)
    requires Built(e, e, open, parent, up) && WaitsKnown(e.beta) && begun == e.(beta := OpenNcc(e.beta, parent))
    requires Built(begun, e1, open + {e.beta.next}, bottom, sub) && Stepped(begun.beta, e1.beta, parent, bottom, true)
    ensures var closed := CloseNcc(e1.beta, e.beta.next, bottom, |e.beta.nccMemories|);
      Stepped(e.beta, FinishNcc(closed, e.beta.next, nested), parent, e.beta.next, nested)
  {
    OpenedOk(e, open, parent, up);
    hide Stepped;
    NccCompiled(e.beta, begun.beta, e1.beta, open, parent, bottom, nested);
  }

  lemma NccCompiled(a: Net, begun: Net, grown: Net, open: set<NodeId>, parent: NodeId, bottom: NodeId, nested: bool)
    requires TreeOk(a) && Wf(grown, open + {a.next}) && a.next !in a.nodes && a.next !in open && WaitsKnown(a)
    requires Extends(a, begun) && Extends(begun, grown) && begun.waits == a.waits && parent in a.nodes
    requires GrownBy(a, begun, Ncc(a.root, |a.nccMemories|), parent, |a.memories|)
    requires bottom in grown.nodes && grown.nodes[bottom].Inner() && Stepped(begun, grown, parent, bottom, true)
    ensures var closed := CloseNcc(grown, a.next, bottom, |a.nccMemories|);
      Stepped(a, FinishNcc(closed, a.next, nested), parent, a.next, nested)
  {
    var ncc := a.next;
    assert grown.nodes[ncc].Core() == begun.nodes[ncc].Core();
    CloseNccWf(grown, open + {ncc}, ncc, bottom);
    var closed := CloseNcc(grown, ncc, bottom, |a.nccMemories|);
    assert closed.waits == grown.waits;
    FinishNccWf(closed, open + {ncc} - {ncc}, ncc, nested);
    FinishedWaits(closed, ncc, nested);
    ExtendsTransitive(a, begun, grown);
    CoresAreSkeleton(a, begun);
    PairsReport(grown, open + {ncc});
    NccAssembled(a, begun, grown, closed, FinishNcc(closed, ncc, nested), parent, bottom, nested);
  }

  lemma NccAssembled(a: Net, begun: Net, grown: Net, closed: Net, finished: Net, parent: NodeId, bottom: NodeId, nested: bool)
    requires TreeOk(a) && TreeOk(grown) && TreeOk(finished) && Extends(a, grown) && WaitsKnown(a)
    requires begun.nodes.Keys == a.nodes.Keys + {a.next} && begun.next == a.next + 1 && begun.waits == a.waits
    requires Extends(begun, grown) && Stepped(begun, grown, parent, bottom, true)
    requires begun.nodes[a.next].kind.Ncc? && Skeleton(a.nodes, begun.nodes) && ReportsToNcc(grown)
    requires parent in a.nodes && bottom in grown.nodes
    requires a.next in grown.nodes && grown.nodes[a.next].kind.Ncc? && grown.nodes[a.next].parent == parent
    requires grown.nodes[a.next].kind.partner == grown.root
    requires ClosedBy(grown, closed, a.next, bottom) && Rearranged(closed, finished)
    requires closed.waits == grown.waits && OneWait(closed, finished, a.next, nested)
    ensures Stepped(a, finished, parent, a.next, nested)
  {
    ClosureHolds(a, grown, closed, finished, parent, bottom);
    NccStep(a, begun, grown, finished, parent, bottom, nested);
  }

  lemma {:induction false} SeqStep(e: Engine, open: set<NodeId>, cx: Context, parent: NodeId, conditions: seq<Condition>,
                                   bound: set<Symbol>, nested: bool, up: Term)
    requires AllRegistered(conditions, cx.ids) && Built(e, e, open, parent, up) && WaitsKnown(e.beta)
    ensures var (e1, n) := CompileSeq(e, cx, parent, conditions, bound, nested); Stepped(e.beta, e1.beta, parent, n, nested)
    decreases conditions
  {
    if conditions == [] {
      EmptyStep(e.beta, parent, nested);
    } else {
      var (e1, n) := CompileOne(e, cx, parent, conditions[0], bound, nested);
      var t := TermOfOne(cx, conditions[0], up, bound);
      CompileOneOk(e, open, cx, parent, conditions[0], bound, nested, up);
      OneStep(e, open, cx, parent, conditions[0], bound, nested, up);
      KnownAfter(e.beta, e1.beta, parent, n, nested);
      CompileSeqOk(e1, open, cx, n, conditions[1..], BoundBy(conditions[0], bound), nested, t);
      SeqStep(e1, open, cx, n, conditions[1..], BoundBy(conditions[0], bound), nested, t);
      var (e2, r) := CompileSeq(e1, cx, n, conditions[1..], BoundBy(conditions[0], bound), nested);
      PairsReport(e1.beta, open);
      StepsCompose(e.beta, e1.beta, e2.beta, parent, n, r, nested);
    }
  }

  /** After a top-level step from a correct index, the index is correct again. */
  lemma StepKeepsIndex(a: Net, b: Net, parent: NodeId, r: NodeId)
    requires Wf(a, {}) && Wf(b, {}) && Extends(a, b) && WaitsOk(a) && Stepped(a, b, parent, r, false)
    ensures WaitsOk(b)
  {
    if b.waits.Some? {
      TreeIsOlder(a);
      CoresAreSkeleton(a, b);
      forall n ensures Recorded(b.waits.value, n, WaitOf(b, n)) {
        if n in a.nodes {
          assert a.nodes[n].Core() == b.nodes[n].Core();
          assert SameEntry(a.waits.value, b.waits.value, n);
          if a.nodes[n].kind.Ncc? {
            assert Paired(a.nodes, n);
            FeedsStable(a.nodes, b.nodes, n);
            EntryWaitStable(a, b, n, Feeds(a.nodes, n));
          }
        } else if n in b.nodes && b.nodes[n].kind.Ncc? {
          assert NewNcc(a, b, n, r, false);
        } else {
          assert SameEntry(a.waits.value, b.waits.value, n);
        }
      }
    }
  }

  /** The incrementally registered index equals the rebuilt one after compiling any rule. */
  lemma CompilationKeepsIndex(e: Engine, cx: Context, conditions: seq<Condition>, salience: int, complexity: nat)
    requires AllRegistered(conditions, cx.ids) && EngineWf(e, {}) && WaitsOk(e.beta)
    ensures WaitsOk(CompileRule(e, cx, conditions, salience, complexity).0.beta)
    ensures IndexTells(CompileRule(e, cx, conditions, salience, complexity).0.beta)
  {
    CompileSeqOk(e, {}, cx, e.beta.root, conditions, {}, false, Start);
    SeqStep(e, {}, cx, e.beta.root, conditions, {}, false, Start);
    var (e1, n) := CompileSeq(e, cx, e.beta.root, conditions, {}, false);
    StepKeepsIndex(e.beta, e1.beta, e.beta.root, n);
    AddTerminalWf(e1.beta, {}, n, cx.rule, salience, complexity);
    var after := AddTerminal(e1.beta, n, cx.rule, salience, complexity);
    PlainStep(e1.beta, after, n, e1.beta.next, false);
    StepKeepsIndex(e1.beta, after, n, e1.beta.next);
    ExactIndexTells(after, {});
  }

  lemma {:induction false} EntryFound(nodes: map<NodeId, BetaNode>, n: NodeId, top: NodeId)
    requires Older(nodes) && EntryBelow(nodes, n, top).Some?
    ensures EntryOnPath(nodes, EntryBelow(nodes, n, top).value, n, top)
    decreases n
  {
    if nodes[n].parent != top { EntryFound(nodes, nodes[n].parent, top); }
  }

  /** The rebuilt index says of every NCC what the graph says. */
  lemma ExactIndexTells(net: Net, open: set<NodeId>)
    requires Wf(net, open) && WaitsOk(net)
    ensures IndexTells(net)
  {
    TreeIsOlder(net);
    if net.waits.Some? {
      forall ncc | ncc in net.waits.value ensures WaitTells(net, ncc, net.waits.value[ncc]) {
        EntryFound(net.nodes, net.nodes[ncc].kind.partner, net.nodes[ncc].parent);
      }
    }
  }

  // ----- what compiled graphs look like around NCCs -----

  /** Every partner closes its own chain, and nothing below a terminal's chain feeds an enclosing NCC. */
  ghost predicate ChainsOk(net: Net) {
    && (forall p :: p in net.nodes && net.nodes[p].kind.NccPartner? ==> Chained(net.nodes, p))
    && (forall t, n | t in net.nodes && n in net.nodes && net.nodes[t].kind.Terminal? && OnPath(net.nodes, n, t) ::
          net.nodes[n].kind.Ncc? ==> !Feeds(net.nodes, n))
  }

  lemma CompilationKeepsChains(e: Engine, cx: Context, conditions: seq<Condition>, salience: int, complexity: nat)
    requires AllRegistered(conditions, cx.ids) && EngineWf(e, {}) && WaitsKnown(e.beta) && ChainsOk(e.beta)
    ensures ChainsOk(CompileRule(e, cx, conditions, salience, complexity).0.beta)
  {
    CompileSeqOk(e, {}, cx, e.beta.root, conditions, {}, false, Start);
    SeqStep(e, {}, cx, e.beta.root, conditions, {}, false, Start);
    var (e1, n) := CompileSeq(e, cx, e.beta.root, conditions, {}, false);
    AddTerminalWf(e1.beta, {}, n, cx.rule, salience, complexity);
    var after := AddTerminal(e1.beta, n, cx.rule, salience, complexity);
    PairsReport(e.beta, {});
    PairsReport(e1.beta, {});
    NoNewTerminal(e, cx, e.beta.root, conditions, {}, false);
    ChainsAfterRule(e.beta, e1.beta, after, n);
  }

  lemma ChainsAfterRule(a: Net, b: Net, c: Net, n: NodeId)
    requires Wf(a, {}) && Wf(b, {}) && Wf(c, {}) && Extends(a, b) && Extends(b, c) && ChainsOk(a)
    requires ReportsToNcc(a) && ReportsToNcc(b) && Stepped(a, b, a.root, n, false) && n in b.nodes
    requires c.nodes.Keys == b.nodes.Keys + {b.next} && c.nodes[b.next].kind.Terminal? && c.nodes[b.next].parent == n
    requires forall t :: t in b.nodes && t !in a.nodes ==> !b.nodes[t].kind.Terminal?
    ensures ChainsOk(c)
  {
    TreeIsOlder(a);
    TreeIsOlder(b);
    ExtendsTransitive(a, b, c);
    CoresAreSkeleton(a, b);
    CoresAreSkeleton(b, c);
    CoresAreSkeleton(a, c);
    forall p | p in c.nodes && c.nodes[p].kind.NccPartner? ensures Chained(c.nodes, p) {
      assert SameRole(b.nodes[p], c.nodes[p]);
      if p in a.nodes { assert SameRole(a.nodes[p], b.nodes[p]); ChainedStable(a.nodes, b.nodes, p); }
      ChainedStable(b.nodes, c.nodes, p);
    }
    forall t, x | t in c.nodes && x in c.nodes && c.nodes[t].kind.Terminal? && c.nodes[x].kind.Ncc? && OnPath(c.nodes, x, t)
      ensures !Feeds(c.nodes, x)
    {
      if t == b.next { TerminalNccFeedsNothing(a, b, c, n, x); }
      else { OldTerminalStays(a, b, c, t, x); }
    }
  }

  lemma OldTerminalStays(a: Net, b: Net, c: Net, t: NodeId, x: NodeId)
    requires TreeOk(a) && TreeOk(b) && Older(a.nodes) && Extends(a, b) && Extends(b, c) && Extends(a, c) && ChainsOk(a)
    requires Skeleton(a.nodes, c.nodes) && PartnersNew(a, b)
    requires c.nodes.Keys == b.nodes.Keys + {b.next} && c.nodes[b.next].kind.Terminal?
    requires forall t :: t in b.nodes && t !in a.nodes ==> !b.nodes[t].kind.Terminal?
    requires t in b.nodes && c.nodes[t].kind.Terminal? && x in c.nodes && c.nodes[x].kind.Ncc? && OnPath(c.nodes, x, t)
    ensures !Feeds(c.nodes, x)
  {
    assert b.nodes[t].Core() == c.nodes[t].Core();
    assert a.nodes[t].Core() == b.nodes[t].Core();
    OnPathStable(a.nodes, c.nodes, x, t);
    OnPathDown(a.nodes, x, t);
    assert SameRole(a.nodes[x], c.nodes[x]);
    forall p | p in c.nodes && p !in a.nodes && c.nodes[p].kind.NccPartner? ensures x <= c.nodes[p].kind.nccNode {
      assert b.nodes[p].Core() == c.nodes[p].Core();
    }
    FeedsStable(a.nodes, c.nodes, x);
  }

  lemma TerminalNccFeedsNothing(a: Net, b: Net, c: Net, n: NodeId, x: NodeId)
    requires TreeOk(b) && Older(b.nodes) && Skeleton(b.nodes, c.nodes) && ChainGrew(a, b, a.root, n) && n in b.nodes
    requires a.root in a.nodes && a.nodes[a.root].kind.Root? && WaitsGrew(a, b, n, false) && Skeleton(a.nodes, b.nodes)
    requires c.nodes.Keys == b.nodes.Keys + {b.next} && c.nodes[b.next].kind.Terminal? && c.nodes[b.next].parent == n
    requires x in c.nodes && c.nodes[x].kind.Ncc? && OnPath(c.nodes, x, b.next)
    ensures !Feeds(c.nodes, x)
  {
    OnPathStable(b.nodes, c.nodes, x, n);
    OnPathDown(b.nodes, x, n);
    assert SameRole(b.nodes[x], c.nodes[x]);
    assert x in a.nodes ==> SameRole(a.nodes[x], b.nodes[x]);
    assert NewNcc(a, b, x, n, false);
    FeedsStable(b.nodes, c.nodes, x);
  }

  // Compiling conditions adds no terminal.

  ghost predicate NoTerminalAdded(a: Net, b: Net) {
    forall t :: t in b.nodes && b.nodes[t].kind.Terminal? ==> t in a.nodes && a.nodes[t].kind.Terminal?
  }

  lemma {:induction false} NoNewTerminal(e: Engine, cx: Context, parent: NodeId, conditions: seq<Condition>, bound: set<Symbol>, nested: bool)
    requires AllRegistered(conditions, cx.ids)
    ensures NoTerminalAdded(e.beta, CompileSeq(e, cx, parent, conditions, bound, nested).0.beta)
    decreases conditions
  {
    if conditions != [] {
      var (e1, n) := CompileOne(e, cx, parent, conditions[0], bound, nested);
      NoNewTerminalOne(e, cx, parent, conditions[0], bound, nested);
      NoNewTerminal(e1, cx, n, conditions[1..], BoundBy(conditions[0], bound), nested);
      assert CompileSeq(e, cx, parent, conditions, bound, nested)
          == CompileSeq(e1, cx, n, conditions[1..], BoundBy(conditions[0], bound), nested);
    }
  }

  lemma {:induction false} NoNewTerminalOne(e: Engine, cx: Context, parent: NodeId, c: Condition, bound: set<Symbol>, nested: bool)
    requires RegisteredIn(c, cx.ids)
    ensures NoTerminalAdded(e.beta, CompileOne(e, cx, parent, c, bound, nested).0.beta)
    decreases c
  {
    match c
    case PatternCE(p) => PatternAddsNoTerminal(e, cx, parent, p, bound);
    case PredicateCE(_) =>
    case NccCE(subs) =>
      var begun := e.(beta := OpenNcc(e.beta, parent));
      OpenAddsNoTerminal(e.beta, parent);
      NoNewTerminal(begun, cx, parent, subs, bound, true);
      var (e1, bottom) := CompileSeq(begun, cx, parent, subs, bound, true);
      CloseAddsNoTerminal(e1.beta, e.beta.next, bottom, |e.beta.nccMemories|);
      FinishAddsNoTerminal(CloseNcc(e1.beta, e.beta.next, bottom, |e.beta.nccMemories|), e.beta.next, nested);
  }

  lemma PatternAddsNoTerminal(e: Engine, cx: Context, parent: NodeId, p: Pattern, bound: set<Symbol>)
    requires Registered(p, cx.ids)
    ensures NoTerminalAdded(e.beta, CompilePattern(e, cx, parent, p, bound).0.beta)
  {
    var (ea, alpha) := ReadyPattern(e, cx, parent, p, bound);
    var tests := JoinTests(p, cx.ids, bound);
    assert ea.beta.nodes == e.beta.nodes;
    AttachAddsNoTerminal(PushMemory(ea.beta), Negative(alpha, tests, p.sequence, |ea.beta.negMemories|), parent, |ea.beta.memories|);
    AttachAddsNoTerminal(PushMemory(ea.beta), Exists(alpha, tests, p.sequence, |ea.beta.existsMemories|), parent, |ea.beta.memories|);
    AttachAddsNoTerminal(PushMemory(ea.beta), Join(alpha, tests, p.sequence, Extractions(p.variableSlots, cx.ids, bound)), parent,
                         |ea.beta.memories|);
    hide AddNode, ReadyPattern, JoinTests, Extractions;
  }

  lemma AttachAddsNoTerminal(net: Net, kind: Kind, parent: NodeId, memory: nat)
    requires !kind.Terminal?
    ensures NoTerminalAdded(net, AddNode(net, kind, parent, memory))
  {
  }

  lemma OpenAddsNoTerminal(net: Net, parent: NodeId)
    ensures NoTerminalAdded(net, OpenNcc(net, parent))
  {
  }

  lemma CloseAddsNoTerminal(net: Net, ncc: NodeId, bottom: NodeId, nccMemory: nat)
    ensures NoTerminalAdded(net, CloseNcc(net, ncc, bottom, nccMemory))
  {
  }

  lemma FinishAddsNoTerminal(net: Net, ncc: NodeId, nested: bool)
    ensures NoTerminalAdded(net, FinishNcc(net, ncc, nested))
  {
  }

  // ----- every finished NCC has an entry -----

  lemma {:induction false} EntryExists(nodes: map<NodeId, BetaNode>, n: NodeId, top: NodeId)
    requires OnPath(nodes, top, n) && n != top
    ensures EntryBelow(nodes, n, top).Some? && EntryOnPath(nodes, EntryBelow(nodes, n, top).value, n, top)
    decreases n
  {
    if nodes[n].parent != top { EntryExists(nodes, nodes[n].parent, top); }
  }

  /** A finished NCC has a subnetwork entry, so the index lists it exactly when it is nested or a pure double negation. */
  lemma FinishedHasEntry(net: Net, ncc: NodeId)
    requires Wf(net, {}) && ChainsOk(net) && ncc in net.nodes && net.nodes[ncc].kind.Ncc?
    ensures SubnetworkEntry(net, ncc).Some?
    ensures EntryOnPath(net.nodes, SubnetworkEntry(net, ncc).value, net.nodes[ncc].kind.partner, net.nodes[ncc].parent)
    ensures WaitOf(net, ncc).Some? <==> Feeds(net.nodes, ncc) || PureDoubleNegation(net, ncc)
  {
    var partner := net.nodes[ncc].kind.partner;
    assert Paired(net.nodes, ncc) && Chained(net.nodes, partner) && HasOlderParent(net.nodes, ncc);
    EntryExists(net.nodes, partner, net.nodes[ncc].parent);
  }
}
