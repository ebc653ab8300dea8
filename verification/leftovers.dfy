/** Removal leaves nothing behind: every entry of every compacted table is used by some node. */
module Leftovers {
  import opened Syntax
  import opened Network
  import opened WellFormed
  import opened Compile
  import opened Compaction
  import opened Removal

  datatype Table = TokenTable | NegativeTable | NccTable | ExistsTable | AlphaTable

  /** The node uses entry `m` of the table. */
  predicate Uses(node: BetaNode, table: Table, m: nat) {
    match table
    case TokenTable => node.Inner() && node.memory == m
    case NegativeTable => node.kind.Negative? && node.kind.negMemory == m
    case NccTable => (node.kind.Ncc? || node.kind.NccPartner?) && node.kind.nccMemory == m
    case ExistsTable => node.kind.Exists? && node.kind.existsMemory == m
    case AlphaTable => node.ReadsAlpha() && node.kind.alpha == m
  }

  function Size(e: Engine, table: Table): nat {
    match table
    case TokenTable => |e.beta.memories|
    case NegativeTable => |e.beta.negMemories|
    case NccTable => |e.beta.nccMemories|
    case ExistsTable => |e.beta.existsMemories|
    case AlphaTable => |e.paths|
  }

  ghost predicate InUse(e: Engine, table: Table, m: nat) {
    exists n :: n in e.beta.nodes && Uses(e.beta.nodes[n], table, m)
  }

  function Flagged(e: Engine, s: set<NodeId>, table: Table): seq<bool>
    requires MemoriesOk(e.beta)
  {
    match table
    case TokenTable => SurvivingMemories(e.beta, s).memories
    case NegativeTable => SurvivingMemories(e.beta, s).negatives
    case NccTable => SurvivingMemories(e.beta, s).nccs
    case ExistsTable => SurvivingMemories(e.beta, s).existentials
    case AlphaTable => AlphaFlags(e, s)
  }

  ghost predicate Removes(e: Engine, s: set<NodeId>, f: Engine) {
    MemoriesOk(e.beta) && AlphaIdsOk(e) && AlphaCacheOk(e) && RemovedTo(e, s, f)
  }

  lemma SizeIsRank(e: Engine, s: set<NodeId>, f: Engine, table: Table)
    requires Removes(e, s, f)
    ensures var keep := Flagged(e, s, table); Size(f, table) == Rank(keep, |keep|)
  {
    RetainedCovered(e.beta, s);
    AlphasAreKept(e, s);
    var keep := Flagged(e, s, table);
    match table
    case TokenTable => CompactAt(e.beta.memories, keep, 0);
    case NegativeTable => CompactAt(e.beta.negMemories, keep, 0);
    case NccTable => CompactAt(e.beta.nccMemories, keep, 0);
    case ExistsTable => CompactAt(e.beta.existsMemories, keep, 0);
    case AlphaTable => CompactAt(e.paths, keep, 0);
  }

  lemma KeptNode(e: Engine, s: set<NodeId>, n: NodeId)
    requires MemoriesOk(e.beta) && n in e.beta.nodes && n in s
    ensures Covered(Kept(e.beta, s)[n], SurvivingMemories(e.beta, s)) && n in RetainNodes(e.beta, s).nodes
    ensures RetainNodes(e.beta, s).nodes[n] == RenumberNode(Kept(e.beta, s)[n], SurvivingMemories(e.beta, s))
    ensures Kept(e.beta, s)[n].kind == e.beta.nodes[n].kind && Kept(e.beta, s)[n].memory == e.beta.nodes[n].memory
  {
    RetainedCovered(e.beta, s);
  }

  /** A flagged entry is used by a retained node. */
  lemma FlaggedIsUsed(e: Engine, s: set<NodeId>, table: Table, i: nat) returns (n: NodeId)
    requires MemoriesOk(e.beta) && i < |Flagged(e, s, table)| && Flagged(e, s, table)[i]
    ensures n in e.beta.nodes && n in s && Uses(e.beta.nodes[n], table, i)
  {
    match table
    case TokenTable => n :| n in e.beta.nodes && n in s && Uses(e.beta.nodes[n], table, i);
    case NegativeTable => n :| n in e.beta.nodes && n in s && Uses(e.beta.nodes[n], table, i);
    case NccTable => n :| n in e.beta.nodes && n in s && Uses(e.beta.nodes[n], table, i);
    case ExistsTable => n :| n in e.beta.nodes && n in s && Uses(e.beta.nodes[n], table, i);
    case AlphaTable =>
      var net := RetainNodes(e.beta, s);
      assert i in UsedAlphas(net.nodes);
      n :| n in net.nodes && net.nodes[n].ReadsAlpha() && net.nodes[n].kind.alpha == i;
      RetainedCovered(e.beta, s);
      KeptNode(e, s, n);
  }

  lemma RenumberedUse(a: BetaNode, keep: Surviving, alphas: seq<bool>, table: Table, i: nat)
    requires Covered(a, keep) && (a.ReadsAlpha() ==> a.kind.alpha < |alphas| && alphas[a.kind.alpha]) && Uses(a, table, i)
    ensures RenumberNode(a, keep).ReadsAlpha() == a.ReadsAlpha()
    ensures a.ReadsAlpha() ==> RenumberNode(a, keep).kind.alpha == a.kind.alpha
    ensures var b := RenumberAlpha(RenumberNode(a, keep), alphas);
      match table
      case TokenTable => Uses(b, table, Rank(keep.memories, i))
      case NegativeTable => Uses(b, table, Rank(keep.negatives, i))
      case NccTable => Uses(b, table, Rank(keep.nccs, i))
      case ExistsTable => Uses(b, table, Rank(keep.existentials, i))
      case AlphaTable => Uses(b, table, Rank(alphas, i))
  {
    hide Rank;
  }

  lemma AfterRemoval(e: Engine, s: set<NodeId>, f: Engine, n: NodeId)
    requires Removes(e, s, f) && n in e.beta.nodes && n in s
    ensures var a, alphas := Kept(e.beta, s)[n], AlphaFlags(e, s);
      && Covered(a, SurvivingMemories(e.beta, s)) && (a.ReadsAlpha() ==> a.kind.alpha < |alphas| && alphas[a.kind.alpha])
      && RenumberNode(a, SurvivingMemories(e.beta, s)).ReadsAlpha() == a.ReadsAlpha()
      && (a.ReadsAlpha() ==> RenumberNode(a, SurvivingMemories(e.beta, s)).kind.alpha == a.kind.alpha)
      && n in f.beta.nodes && f.beta.nodes[n] == RenumberAlpha(RenumberNode(a, SurvivingMemories(e.beta, s)), alphas)
  {
    KeptNode(e, s, n);
    AlphasAreKept(e, s);
    hide SurvivingMemories, Rank, AlphaFlags;
    assert n in RetainNodes(e.beta, s).nodes;
  }

  /** The node still uses the entry, under its new id. */
  lemma UseIsRenumbered(e: Engine, s: set<NodeId>, f: Engine, table: Table, n: NodeId, i: nat)
    requires Removes(e, s, f) && n in e.beta.nodes && n in s && Uses(e.beta.nodes[n], table, i)
    requires i < |Flagged(e, s, table)|
    ensures n in f.beta.nodes && Uses(f.beta.nodes[n], table, Rank(Flagged(e, s, table), i))
  {
    AfterRemoval(e, s, f, n);
    KeptNode(e, s, n);
    hide Removes, SurvivingMemories, AlphaFlags, RetainNodes, Kept, RenumberNode, RenumberAlpha, Covered, MemoriesOk;
    var a := Kept(e.beta, s)[n];
    assert Uses(a, table, i);
    RenumberedUse(a, SurvivingMemories(e.beta, s), AlphaFlags(e, s), table, i);
  }

  /** After a removal no entry of any table is left without a node that uses it. */
  lemma NothingOrphaned(e: Engine, s: set<NodeId>, f: Engine, table: Table, m: nat)
    requires Removes(e, s, f) && m < Size(f, table)
    ensures InUse(f, table, m)
  {
    hide Removes, Flagged, Uses;
    SizeIsRank(e, s, f, table);
    UnfoldRemoves(e, s, f);
    var keep := Flagged(e, s, table);
    var i := RankOnto(keep, |keep|, m);
    var n := FlaggedIsUsed(e, s, table, i);
    UseIsRenumbered(e, s, f, table, n, i);
  }

  lemma UnfoldRemoves(e: Engine, s: set<NodeId>, f: Engine)
    requires Removes(e, s, f)
    ensures MemoriesOk(e.beta)
  {
  }
}
