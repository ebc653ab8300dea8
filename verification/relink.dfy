/** Relinking a completed NCC among its parent's children. */
module Relink {
  import opened Syntax
  import opened Sequences
  import opened Network
  import opened WellFormed

  lemma InsertedMembers(s: seq<NodeId>, i: nat, x: NodeId)
    requires i <= |s|
    ensures forall y :: y in InsertAt(s, i, x) <==> y in s || y == x
    ensures NoDuplicates(s) && x !in s ==> NoDuplicates(InsertAt(s, i, x))
  {
    assert s == s[..i] + s[i..];
    forall y ensures y in InsertAt(s, i, x) <==> y in s || y == x {
      assert y in s <==> y in s[..i] || y in s[i..];
    }
    if NoDuplicates(s) && x !in s {
      var r := InsertAt(s, i, x);
      forall j, k | 0 <= j < k < |r| ensures r[j] != r[k] {
        assert r[j] == if j < i then s[j] else if j == i then x else s[j - 1];
        assert r[k] == if k < i then s[k] else if k == i then x else s[k - 1];
      }
    }
  }

  /** Relinking reorders: the same children once each, every other child in its old relative order. */
  lemma RelinkIsReordering(children: seq<NodeId>, ncc: NodeId, partner: NodeId, pure: bool)
    requires NoDuplicates(children) && ncc in children
    ensures var linked := RelinkedChildren(children, ncc, partner, pure);
      && NoDuplicates(linked) && |linked| == |children|
      && (forall c :: c in linked <==> c in children)
      && Without(linked, ncc) == Without(children, ncc)
  {
    var others := Without(children, ncc);
    WithoutDistinct(children, ncc);
    WithoutMembers(children, ncc);
    var second := if |others| == 0 then 0 else |others| - 1;
    var slot := if pure then FirstInRange(others, ncc, partner, second) else second;
    InsertedMembers(others, slot, ncc);
    RemoveInserted(others, slot, ncc);
  }

  lemma {:induction false} RemoveInserted(others: seq<NodeId>, slot: nat, x: NodeId)
    requires slot <= |others| && x !in others
    ensures Without(InsertAt(others, slot, x), x) == others
  {
    var inserted := InsertAt(others, slot, x);
    if slot == 0 {
      assert inserted[1..] == others;
      WithoutAbsent(others, x);
    } else {
      assert inserted[1..] == InsertAt(others[1..], slot - 1, x);
      RemoveInserted(others[1..], slot - 1, x);
    }
  }

  /** `b` is `a` with child lists reordered and waits recorded. */
  ghost predicate Rearranged(a: Net, b: Net) {
    && SameLinks(a, b)
    && (forall n :: n in a.nodes ==> b.nodes[n].Core() == a.nodes[n].Core())
    && a.memories == b.memories && a.negMemories == b.negMemories
    && a.nccMemories == b.nccMemories && a.existsMemories == b.existsMemories
  }

  lemma LinkNccRearranges(net: Net, ncc: NodeId)
    requires ChildrenOk(net)
    ensures Rearranged(net, LinkNcc(net, ncc))
  {
    var after := LinkNcc(net, ncc);
    if after != net {
      var parent := net.nodes[ncc].parent;
      assert Listed(net.nodes, ncc);
      RelinkIsReordering(net.nodes[parent].children, ncc, net.nodes[ncc].kind.partner, PureDoubleNegation(net, ncc));
      assert SameNodeLinks(net.nodes[parent], after.nodes[parent]);
    }
  }

  /** Completing an NCC in place: relink it, then record its wait. */
  function FinishNcc(net: Net, ncc: NodeId, nested: bool): Net {
    RegisterWait(LinkNcc(net, ncc), ncc, nested)
  }

  lemma FinishNccWf(net: Net, open: set<NodeId>, ncc: NodeId, nested: bool)
    requires Wf(net, open)
    ensures Rearranged(net, FinishNcc(net, ncc, nested)) && Wf(FinishNcc(net, ncc, nested), open)
  {
    LinkNccRearranges(net, ncc);
    RearrangedWf(net, FinishNcc(net, ncc, nested), open);
  }

  lemma RearrangedWf(a: Net, b: Net, open: set<NodeId>)
    requires Wf(a, open) && Rearranged(a, b)
    ensures Wf(b, open)
  {
    SameLinksTree(a, b);
    SameLinksChildren(a, b);
    forall n | n in b.nodes ensures OwnsMemories(b, b.nodes[n]) {
      assert OwnsMemories(a, a.nodes[n]) && b.nodes[n].Core() == a.nodes[n].Core();
    }
    SameCoresPairs(a, b, open);
  }

  lemma SameCoresPairs(a: Net, b: Net, open: set<NodeId>)
    requires PairsOk(a, open) && a.root == b.root && a.nodes.Keys == b.nodes.Keys
    requires forall n :: n in a.nodes ==> b.nodes[n].Core() == a.nodes[n].Core()
    ensures PairsOk(b, open)
  {
    forall n | n in b.nodes && b.nodes[n].kind.Ncc? && n !in open ensures Paired(b.nodes, n) {
      assert b.nodes[n].Core() == a.nodes[n].Core() && Paired(a.nodes, n);
    }
    forall p | p in b.nodes && b.nodes[p].kind.NccPartner? ensures PartnerOf(b.nodes, p) {
      assert b.nodes[p].Core() == a.nodes[p].Core() && PartnerOf(a.nodes, p);
    }
    forall n | n in open ensures n in b.nodes && b.nodes[n].kind.Ncc? && b.nodes[n].kind.partner == b.root {
      assert b.nodes[n].Core() == a.nodes[n].Core();
    }
  }
}
