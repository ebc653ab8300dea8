/** The agenda: a priority queue held in five structures, and why every operation is the one-list operation. */
module Agendas {
  import opened Syntax
  import opened Sequences
  import opened AgendaOrder
  import opened AgendaState

  // ----- what a pop does -----

  ghost predicate Least(k: AgendaKey, keys: set<AgendaKey>) {
    k in keys && forall j :: j in keys && j != k ==> KeyLess(k, j)
  }

  /** The positions of the live activations a predicate admits. */
  ghost function Eligible(births: seq<ActivationId>, acts: Activations, admits: Activation -> bool): set<nat> {
    set i | 0 <= i < |births| && births[i] in acts && admits(acts[births[i]])
  }

  ghost predicate Removes(strategy: Strategy, births: seq<ActivationId>, acts: Activations, eligible: set<nat>, at: nat,
                          popped: Activation, left: seq<ActivationId>, rest: Activations)
    requires forall id :: id in births ==> id in acts
  {
    && Best(strategy, Erased(Live(births, acts)), eligible, at)
    && popped == acts[births[at]] && left == Without(births, births[at]) && rest == acts - {births[at]}
  }

  /** The specification of every pop, on the birth-ordered list: take out the best eligible entry, if any. */
  ghost predicate PopOf(strategy: Strategy, births: seq<ActivationId>, acts: Activations, admits: Activation -> bool,
                        popped: Option<Activation>, left: seq<ActivationId>, rest: Activations)
    requires forall id :: id in births ==> id in acts
  {
    var eligible := Eligible(births, acts, admits);
    if eligible == {} then popped == None && left == births && rest == acts
    else popped.Some? && exists at :: 0 <= at < |births| && Removes(strategy, births, acts, eligible, at, popped.value, left, rest)
  }

  /** A pop's outcome is determined: whatever finds the entry, the same activation leaves and the same agenda stays. */
  lemma PopIsDetermined(strategy: Strategy, births: seq<ActivationId>, acts: Activations, admits: Activation -> bool,
                        p: Option<Activation>, l: seq<ActivationId>, r: Activations, q: Option<Activation>, m: seq<ActivationId>, s: Activations)
    requires forall id :: id in births ==> id in acts
    requires PopOf(strategy, births, acts, admits, p, l, r) && PopOf(strategy, births, acts, admits, q, m, s)
    ensures p == q && l == m && r == s
  {
    var eligible := Eligible(births, acts, admits);
    if eligible != {} {
      var at :| 0 <= at < |births| && Removes(strategy, births, acts, eligible, at, p.value, l, r);
      var too :| 0 <= too < |births| && Removes(strategy, births, acts, eligible, too, q.value, m, s);
      BestUnique(strategy, Erased(Live(births, acts)), eligible, at, too);
    }
  }

  /** Renumbering is invisible: two books with the same activations but for their sequence numbers pop alike
      under every strategy and every predicate that does not look at the numbers. */
  lemma NumbersAreInvisible(strategy: Strategy, births: seq<ActivationId>, acts: Activations, other: Activations, admits: Activation -> bool,
                            p: Option<Activation>, l: seq<ActivationId>, r: Activations, q: Option<Activation>, m: seq<ActivationId>, s: Activations)
    requires NoDuplicates(births) && (forall id :: id in births ==> id in acts && id in other)
    requires Erased(Live(births, acts)) == Erased(Live(births, other)) && forall a :: admits(a) == admits(Erase(a))
    requires PopOf(strategy, births, acts, admits, p, l, r) && PopOf(strategy, births, other, admits, q, m, s)
    ensures l == m && p.Some? == q.Some? && (p.Some? ==> Erase(p.value) == Erase(q.value))
    ensures (forall id :: id in l ==> id in r && id in s) && Erased(Live(l, r)) == Erased(Live(m, s))
  {
    SameEligible(births, acts, other, admits);
    var eligible := Eligible(births, acts, admits);
    if eligible != {} {
      var at :| 0 <= at < |births| && Removes(strategy, births, acts, eligible, at, p.value, l, r);
      var too :| 0 <= too < |births| && Removes(strategy, births, other, eligible, too, q.value, m, s);
      BestUnique(strategy, Erased(Live(births, acts)), eligible, at, too);
      assert Erased(Live(births, acts))[at] == Erase(acts[births[at]]);
      assert Erased(Live(births, other))[at] == Erase(other[births[at]]);
      LiveAfterRemove(births, acts, at);
      LiveAfterRemove(births, other, at);
      ErasedParts(Live(births, acts), at);
      ErasedParts(Live(births, other), at);
    }
  }

  lemma SameEligible(births: seq<ActivationId>, acts: Activations, other: Activations, admits: Activation -> bool)
    requires (forall id :: id in births ==> id in acts && id in other) && forall a :: admits(a) == admits(Erase(a))
    requires Erased(Live(births, acts)) == Erased(Live(births, other))
    ensures Eligible(births, acts, admits) == Eligible(births, other, admits)
  {
    forall i | 0 <= i < |births| ensures births[i] in births && admits(acts[births[i]]) == admits(other[births[i]]) {
      assert Erased(Live(births, acts))[i] == Erase(acts[births[i]]);
      assert Erased(Live(births, other))[i] == Erase(other[births[i]]);
    }
  }

  /** The least key among those of the eligible activations belongs to the best entry. */
  lemma LeastIsBest(strategy: Strategy, births: seq<ActivationId>, acts: Activations, ids: map<ActivationId, AgendaKey>, ordering: Ordering,
                    next: nat, admits: Activation -> bool, keys: set<AgendaKey>, k: AgendaKey) returns (at: nat)
    requires BirthsOk(births, acts, next) && KeysOk(strategy, acts, ids, ordering)
    requires forall j :: j in keys <==> j in ordering && admits(acts[ordering[j]])
    requires Least(k, keys)
    ensures at < |births| && births[at] == ordering[k]
    ensures PopOf(strategy, births, acts, admits, Some(acts[ordering[k]]), Without(births, ordering[k]), acts - {ordering[k]})
  {
    at :| 0 <= at < |births| && births[at] == ordering[k];
    var eligible, live := Eligible(births, acts, admits), Live(births, acts);
    LiveIncreases(births, acts, next);
    assert at in eligible;
    forall i | i in eligible && i != at ensures Beats(strategy, Erased(live), at, i) {
      assert births[i] != births[at] && births[i] in acts;
      assert ids[births[i]] in keys && ids[births[i]] != k;
      KeyOrderIsBirthOrder(strategy, live, at, i);
    }
    assert Removes(strategy, births, acts, eligible, at, acts[ordering[k]], Without(births, ordering[k]), acts - {ordering[k]});
  }

  lemma NobodyEligible(strategy: Strategy, births: seq<ActivationId>, acts: Activations, ids: map<ActivationId, AgendaKey>, ordering: Ordering,
                       next: nat, admits: Activation -> bool)
    requires BirthsOk(births, acts, next) && KeysOk(strategy, acts, ids, ordering)
    requires forall j :: j in ordering ==> !admits(acts[ordering[j]])
    ensures PopOf(strategy, births, acts, admits, None, births, acts)
  {
    forall i | 0 <= i < |births| ensures births[i] in acts && !admits(acts[births[i]]) {
      assert ids[births[i]] in ordering;
    }
    assert Eligible(births, acts, admits) == {};
  }

  // ----- map scans -----

  /** The first key of an ordered map. */
  method FirstKey(m: Ordering) returns (k: AgendaKey)
    requires m != map[]
    ensures Least(k, m.Keys)
  {
    assert m.Keys != {};
    k :| k in m;
    var pending := m.Keys - {k};
    while pending != {}
      invariant pending < m.Keys && k in m.Keys - pending
      invariant Least(k, m.Keys - pending)
    {
      var j :| j in pending;
      KeyOrderIsTotal(j, k, k);
      if KeyLess(j, k) {
        forall i | i in m.Keys - pending && i != k ensures KeyLess(j, i) { KeyOrderIsTotal(j, k, i); }
        k := j;
      }
      pending := pending - {j};
    }
  }

  /** Keys for every activation under a strategy, in both directions. */
  method BuildKeys(strategy: Strategy, acts: Activations) returns (ids: map<ActivationId, AgendaKey>, ordering: Ordering)
    requires forall i, j :: i in acts && j in acts && i != j ==> acts[i].sequence != acts[j].sequence
    ensures KeysOk(strategy, acts, ids, ordering)
  {
    ids, ordering := map[], map[];
    var pending := acts.Keys;
    while pending != {}
      invariant pending <= acts.Keys && ids.Keys == acts.Keys - pending
      invariant forall id :: id in ids ==> ids[id] == BuildKey(strategy, acts[id]) && ids[id] in ordering && ordering[ids[id]] == id
      invariant forall k :: k in ordering ==> ordering[k] in ids && ids[ordering[k]] == k
    {
      var id :| id in pending;
      pending := pending - {id};
      var k := BuildKey(strategy, acts[id]);
      ids, ordering := ids[id := k], ordering[k := id];
    }
  }

  /** Group the ordering by rule. */
  method BuildRuleIndex(ordering: Ordering, acts: Activations) returns (index: RuleOrdering)
    requires forall k :: k in ordering ==> ordering[k] in acts
    ensures ProjectsExcept(index, ordering, acts, {})
  {
    index := map[];
    var pending := ordering.Keys;
    while pending != {}
      invariant pending <= ordering.Keys && Gathered(index, ordering, acts, pending)
    {
      var k :| k in pending;
      GatherStep(index, ordering, acts, pending, k);
      pending := pending - {k};
      var rule := acts[ordering[k]].rule;
      index := index[rule := (if rule in index then index[rule] else map[])[k := ordering[k]]];
    }
  }

  /** The index of the entries gathered so far. */
  ghost predicate Gathered(index: RuleOrdering, ordering: Ordering, acts: Activations, pending: set<AgendaKey>) {
    && (forall rule, k :: RuleEntry(index, rule, k) ==
          (if k in ordering && k !in pending && ordering[k] in acts && acts[ordering[k]].rule == rule then Some(ordering[k]) else None))
    && (forall rule :: rule in index ==> index[rule] != map[])
  }

  lemma GatherStep(index: RuleOrdering, ordering: Ordering, acts: Activations, pending: set<AgendaKey>, k: AgendaKey)
    requires Gathered(index, ordering, acts, pending) && k in pending && k in ordering && ordering[k] in acts
    ensures var rule := acts[ordering[k]].rule;
      Gathered(index[rule := (if rule in index then index[rule] else map[])[k := ordering[k]]], ordering, acts, pending - {k})
  {
    var rule := acts[ordering[k]].rule;
    var more := index[rule := (if rule in index then index[rule] else map[])[k := ordering[k]]];
    assert k in more[rule];
    forall r, j ensures RuleEntry(more, r, j) ==
      (if j in ordering && j !in pending - {k} && ordering[j] in acts && acts[ordering[j]].rule == r then Some(ordering[j]) else None)
    {
      assert RuleEntry(index, r, j) ==
        if j in ordering && j !in pending && ordering[j] in acts && acts[ordering[j]].rule == r then Some(ordering[j]) else None;
    }
  }

  /** The least key among the heads of the admitted rules. */
  method LeastHead(index: RuleOrdering, admits: RuleId -> bool) returns (best: Option<AgendaKey>)
    requires forall rule :: rule in index ==> index[rule] != map[]
    ensures best.None? ==> forall rule :: rule in index ==> !admits(rule)
    ensures best.Some? ==> exists rule :: rule in index && admits(rule) && best.value in index[rule]
    ensures best.Some? ==> forall rule, j :: rule in index && admits(rule) && j in index[rule] ==> j == best.value || KeyLess(best.value, j)
  {
    best := None;
    var pending := index.Keys;
    while pending != {}
      invariant pending <= index.Keys
      invariant best.None? ==> forall rule :: rule in index && rule !in pending ==> !admits(rule)
      invariant best.Some? ==> exists rule :: rule in index && admits(rule) && best.value in index[rule]
      invariant best.Some? ==> forall rule, j :: rule in index && rule !in pending && admits(rule) && j in index[rule] ==>
                  j == best.value || KeyLess(best.value, j)
    {
      var rule :| rule in pending;
      pending := pending - {rule};
      if admits(rule) {
        var head := FirstKey(index[rule]);
        ghost var prior := best;
        if best.None? || KeyLess(head, best.value) { best := Some(head); }
        forall r, j | r in index && r !in pending && admits(r) && j in index[r] ensures j == best.value || KeyLess(best.value, j) {
          if prior.Some? {
            KeyOrderIsTotal(head, prior.value, j);
            KeyOrderIsTotal(prior.value, head, j);
          }
        }
      }
    }
  }

  lemma IndexBuilt(b: Book, index: RuleOrdering)
    requires Consistent(b) && ProjectsExcept(index, b.ordering, b.acts, {})
    ensures Consistent(b.(rules := Some(index)))
  {
  }

  lemma IndexProjects(b: Book)
    requires Consistent(b) && b.rules.Some?
    ensures forall rule :: rule in b.rules.value ==> b.rules.value[rule] != map[]
    ensures forall rule, k :: rule in b.rules.value && k in b.rules.value[rule] ==>
      k in b.ordering && b.ordering[k] in b.acts && b.acts[b.ordering[k]].rule == rule
    ensures forall k :: k in b.ordering && b.ordering[k] in b.acts ==>
      b.acts[b.ordering[k]].rule in b.rules.value && k in b.rules.value[b.acts[b.ordering[k]].rule]
  {
    var index := b.rules.value;
    forall rule, k | rule in index && k in index[rule]
      ensures k in b.ordering && b.ordering[k] in b.acts && b.acts[b.ordering[k]].rule == rule
    {
      assert RuleEntry(index, rule, k) == Some(index[rule][k]);
    }
    forall k | k in b.ordering && b.ordering[k] in b.acts
      ensures b.acts[b.ordering[k]].rule in index && k in index[b.acts[b.ordering[k]].rule]
    {
      assert RuleEntry(index, b.acts[b.ordering[k]].rule, k) == Some(b.ordering[k]);
    }
  }

  class Agenda {
    var ruleOrdering: Option<RuleOrdering>
    var ordering: Ordering
    var activations: Activations
    var idToKey: map<ActivationId, AgendaKey>
    var tokenToActivations: TokenIndex
    var nextSeq: nat
    var strategy: Strategy
    /** The slot table's next fresh id; ids are never reused. */
    var nextId: ActivationId
    /** The live ids in the order they were added. */
    ghost var births: seq<ActivationId>

    ghost function State(): Book
      reads this
    {
      Book(strategy, births, activations, idToKey, ordering, tokenToActivations, ruleOrdering, nextSeq, nextId)
    }

    ghost predicate Valid()
      reads this
    {
      Consistent(State())
    }

    /** The agenda as one list, oldest first, without sequence numbers. */
    ghost function Contents(): seq<Activation>
      requires Valid()
      reads this
    {
      Chronicle(State())
    }

    constructor (strategy: Strategy)
      ensures Valid() && births == [] && this.strategy == strategy
    {
      this.strategy := strategy;
      ruleOrdering, ordering, activations, idToKey, tokenToActivations := None, map[], map[], map[], map[];
      nextSeq, nextId, births := 0, 0, [];
    }

    method Add(a: Activation) returns (id: ActivationId)
      requires Valid() && |births| < U32_MAX
      modifies this
      ensures Valid() && strategy == old(strategy) && id !in old(activations) && births == old(births) + [id]
      ensures Contents() == old(Contents()) + [Erase(a.(id := id))]
    {
      hide Consistent, Chronicle;
      ConsistentFacts(State());
      if nextSeq == U64_MAX { RebaseSequences(); }
      id := AddNext(a);
    }

    /** File an activation under the next sequence number. */
    method AddNext(a: Activation) returns (id: ActivationId)
      requires Valid() && nextSeq < U64_MAX
      modifies this
      ensures id == old(nextId) && State() == Inserted(old(State()), a) && Valid() && id !in old(activations)
      ensures Contents() == old(Contents()) + [Erase(a.(id := id))]
    {
      hide Consistent, Chronicle, BuildKey, RuleInserted, TokenEntry;
      ConsistentFacts(State());
      InsertedConsistent(State(), a);
      id := nextId;
      var stamped := a.(id := id, sequence := nextSeq);
      nextId, nextSeq := nextId + 1, nextSeq + 1;
      var k := BuildKey(strategy, stamped);
      activations := activations[id := stamped];
      ordering := ordering[k := id];
      ruleOrdering := RuleInserted(ruleOrdering, a.rule, k, id);
      idToKey := idToKey[id := k];
      tokenToActivations := tokenToActivations[a.token := TokenEntry(tokenToActivations, a.token) + [id]];
      births := births + [id];
    }

    /** Take one live activation out of all five structures. */
    method Detach(k: AgendaKey, id: ActivationId) returns (a: Activation)
      requires id in activations && id in idToKey && idToKey[id] == k
      modifies this
      ensures a == old(activations[id]) && State() == Removed(old(State()), id) && strategy == old(strategy)
    {
      a := activations[id];
      ordering := ordering - {k};
      idToKey := idToKey - {id};
      activations := activations - {id};
      if ruleOrdering.Some? {
        ruleOrdering := Some(RuleRemoved(ruleOrdering.value, a.rule, k));
      }
      tokenToActivations := TokenRemoved(tokenToActivations, a.token, id);
      births := Without(births, id);
    }

    method Pop() returns (popped: Option<Activation>)
      requires Valid()
      modifies this
      ensures old(Valid()) && PopOf(strategy, old(births), old(activations), Anyone, popped, births, activations)
      ensures Valid() && strategy == old(strategy)
    {
      hide Consistent, PopOf, Removed, Least;
      ConsistentFacts(State());
      if ordering == map[] {
        PopFindsNobody(State(), Anyone);
        return None;
      }
      var k := FirstKey(ordering);
      PopRemoves(State(), Anyone, ordering.Keys, k);
      var a := Detach(k, ordering[k]);
      popped := Some(a);
    }

    /** The linear scan: the first activation in key order that the predicate admits. */
    method PopMatching(admits: Activation -> bool) returns (popped: Option<Activation>)
      requires Valid()
      modifies this
      ensures old(Valid()) && PopOf(strategy, old(births), old(activations), admits, popped, births, activations)
      ensures Valid() && strategy == old(strategy)
    {
      hide Consistent, PopOf, Removed;
      ConsistentFacts(State());
      var rest := ordering;
      while rest != map[]
        invariant rest.Keys <= ordering.Keys && (forall j :: j in rest ==> rest[j] == ordering[j])
        invariant State() == old(State())
        invariant forall j :: j in ordering && ordering[j] in activations && j !in rest ==> !admits(activations[ordering[j]])
        decreases |rest.Keys|
      {
        var k := FirstKey(rest);
        var id := ordering[k];
        if admits(activations[id]) {
          ghost var keys := set j | j in ordering && ordering[j] in activations && admits(activations[ordering[j]]);
          PopRemoves(State(), admits, keys, k);
          var a := Detach(k, id);
          return Some(a);
        }
        rest := rest - {k};
      }
      PopFindsNobody(State(), admits);
      popped := None;
    }

    /** The indexed form for predicates on rules: the first entry if it is eligible, else the least head
        among the eligible rules of the lazily built index. */
    method PopMatchingRule(admits: RuleId -> bool) returns (popped: Option<Activation>)
      requires Valid()
      modifies this
      ensures old(Valid()) && PopOf(strategy, old(births), old(activations), (a: Activation) => admits(a.rule), popped, births, activations)
      ensures Valid() && strategy == old(strategy)
    {
      hide Consistent, PopOf, Removed;
      ConsistentFacts(State());
      ghost var eligible := (a: Activation) => admits(a.rule);
      if ordering == map[] {
        PopFindsNobody(State(), eligible);
        return None;
      }
      var first := FirstKey(ordering);
      if admits(activations[ordering[first]].rule) {
        ghost var keys := set j | j in ordering && ordering[j] in activations && eligible(activations[ordering[j]]);
        PopRemoves(State(), eligible, keys, first);
        var a := Detach(first, ordering[first]);
        return Some(a);
      }
      EnsureRuleIndex();
      popped := PopHead(admits);
    }

    method EnsureRuleIndex()
      requires Valid()
      modifies this`ruleOrdering
      ensures Valid() && ruleOrdering.Some?
    {
      hide Consistent;
      ConsistentFacts(State());
      if ruleOrdering.None? {
        var built := BuildRuleIndex(ordering, activations);
        IndexBuilt(State(), built);
        ruleOrdering := Some(built);
      }
    }

    /** Pop the least head among the eligible rules of the index. */
    method PopHead(admits: RuleId -> bool) returns (popped: Option<Activation>)
      requires Valid() && ruleOrdering.Some?
      modifies this
      ensures old(Valid()) && PopOf(strategy, old(births), old(activations), (a: Activation) => admits(a.rule), popped, births, activations)
      ensures Valid() && strategy == old(strategy)
    {
      hide Consistent, PopOf, Removed;
      IndexProjects(State());
      ghost var eligible := (a: Activation) => admits(a.rule);
      var best := LeastHead(ruleOrdering.value, admits);
      if best.None? {
        PopFindsNobody(State(), eligible);
        return None;
      }
      ghost var keys := set j | j in ordering && ordering[j] in activations && eligible(activations[ordering[j]]);
      PopRemoves(State(), eligible, keys, best.value);
      var a := Detach(best.value, ordering[best.value]);
      popped := Some(a);
    }

    /** Retract a token's activations, oldest first. */
    method RemoveActivationsForToken(t: TokenId) returns (removed: seq<Activation>)
      requires Valid()
      modifies this
      ensures Valid() && strategy == old(strategy) && old(Valid())
      ensures var gone := OfToken(old(births), old(activations), t);
        && births == WithoutAll(old(births), gone) && activations == old(activations) - Members(gone)
        && (forall id :: id in gone <==> id in old(activations) && old(activations)[id].token == t)
        && removed == Live(gone, old(activations))
        && (forall i, j :: 0 <= i < j < |gone| ==> InOrder(old(births), gone[i], gone[j]))
        && Survivors(old(births), gone, births)
    {
      hide Consistent, Removed, TokensOk, OfToken, Live, WithoutAll, InOrder, Survivors;
      ghost var b := State();
      OfTokenOrder(births, activations, t);
      WithoutAllSurvives(births, OfToken(births, activations, t));
      TokenEntryIs(b, t);
      removed := [];
      NoneRemoved(b);
      if t !in tokenToActivations { return; }
      var ids := tokenToActivations[t];
      tokenToActivations := tokenToActivations - {t};
      ghost var g := b;
      for i := 0 to |ids|
        invariant Consistent(g) && State() == g.(tokens := g.tokens - {t}) && g.strategy == b.strategy
        invariant g.births == WithoutAll(b.births, ids[..i]) && g.acts == b.acts - Members(ids[..i])
        invariant removed == Live(ids[..i], b.acts)
      {
        var id := ids[i];
        RetractOne(b, g, ids, i, t);
        g := Removed(g, id);
        var k := idToKey[id];
        idToKey := idToKey - {id};
        ordering := ordering - {k};
        if ruleOrdering.Some? {
          ruleOrdering := Some(RuleRemoved(ruleOrdering.value, activations[id].rule, k));
        }
        removed := removed + [activations[id]];
        activations := activations - {id};
        births := Without(births, id);
      }
      assert ids[..|ids|] == ids;
      TokenGone(b, g, ids, t);
    }

    /** Retract a rule's activations, in whatever order the slot table lists them. */
    method RemoveActivationsForRule(rule: RuleId) returns (removed: seq<Activation>, ghost gone: seq<ActivationId>)
      requires Valid()
      modifies this
      ensures Valid() && strategy == old(strategy) && old(Valid())
      ensures NoDuplicates(gone) && forall id :: id in gone <==> id in old(activations) && old(activations)[id].rule == rule
      ensures births == WithoutAll(old(births), gone) && activations == old(activations) - Members(gone)
      ensures removed == Live(gone, old(activations)) && Survivors(old(births), gone, births)
    {
      hide Consistent, Removed, Live, WithoutAll, Survivors;
      ghost var b := State();
      var ids := IdsOfRule(activations, rule);
      gone := ids;
      if ruleOrdering.Some? { ruleOrdering := Some(ruleOrdering.value - {rule}); }
      removed := [];
      NoneRemoved(b);
      ghost var g := b;
      for i := 0 to |ids|
        invariant Consistent(g) && g.strategy == b.strategy
        invariant State() == g.(rules := if g.rules.None? then None else Some(g.rules.value - {rule}))
        invariant g.births == WithoutAll(b.births, ids[..i]) && g.acts == b.acts - Members(ids[..i])
        invariant removed == Live(ids[..i], b.acts)
      {
        var id := ids[i];
        RetireOne(b, g, ids, i, rule);
        g := Removed(g, id);
        var k := idToKey[id];
        idToKey := idToKey - {id};
        ordering := ordering - {k};
        var a := activations[id];
        removed := removed + [a];
        activations := activations - {id};
        tokenToActivations := TokenRemoved(tokenToActivations, a.token, id);
        births := Without(births, id);
      }
      assert ids[..|ids|] == ids;
      WithoutAllSurvives(b.births, ids);
      RuleGone(b, g, ids, rule);
    }

    /** Change the conflict resolution strategy: every activation stays, under its new key. */
    method SetStrategy(next: Strategy) returns (previous: Strategy)
      requires Valid()
      modifies this
      ensures Valid() && strategy == next && previous == old(strategy)
      ensures births == old(births) && activations == old(activations) && Contents() == old(Contents())
    {
      hide Consistent, Chronicle;
      previous := strategy;
      if previous != next {
        SequencesDiffer(State());
        var ids, keyed := BuildKeys(next, activations);
        RestrategizedConsistent(State(), next, ids, keyed);
        strategy, ruleOrdering, idToKey, ordering := next, None, ids, keyed;
      }
    }

    method Clear()
      requires Valid()
      modifies this
      ensures Valid() && births == [] && strategy == old(strategy)
    {
      hide Consistent;
      ruleOrdering, ordering, activations, idToKey, tokenToActivations := None, map[], map[], map[], map[];
      nextSeq, births := 0, [];
      EmptyConsistent(strategy, nextId);
    }

    /** The live activations in firing order, without consuming them. */
    method IterOrdered() returns (listed: seq<Activation>)
      requires Valid()
      ensures SortedFor(strategy, listed, activations)
    {
      hide Consistent, Listing, SortedFor;
      ConsistentFacts(State());
      KeysMatch(State());
      ListNothing(State());
      listed := [];
      var rest := ordering;
      while rest != map[]
        invariant rest.Keys <= ordering.Keys && (forall k :: k in rest ==> rest[k] == ordering[k])
        invariant Listing(strategy, listed, ordering, activations, rest.Keys)
        decreases |rest.Keys|
      {
        var k := FirstKey(rest);
        ListNext(strategy, listed, ordering, activations, rest.Keys, k);
        listed := listed + [activations[ordering[k]]];
        rest := rest - {k};
      }
      ListedAll(State(), listed);
    }

    /** Number the live activations afresh from zero, oldest first: their order of birth is kept. */
    method RebaseSequences()
      requires Valid() && |births| < U32_MAX
      modifies this
      ensures Valid() && births == old(births) && Contents() == old(Contents()) && nextSeq == |births|
      ensures strategy == old(strategy) && nextId == old(nextId) && activations.Keys == old(activations.Keys)
    {
      hide Consistent, Chronicle, BirthsOk;
      ghost var b := State();
      RebasedDistinct(b);
      var chronological := Chronology(activations, births, nextSeq);
      var renumbered := Renumber(chronological, activations);
      var ids, keyed := BuildKeys(strategy, renumbered);
      RebasedConsistent(b, ids, keyed);
      ruleOrdering, activations, nextSeq, idToKey, ordering := None, renumbered, |chronological|, ids, keyed;
    }
  }

  lemma EmptyConsistent(strategy: Strategy, nextId: ActivationId)
    ensures Consistent(Book(strategy, [], map[], map[], map[], map[], None, 0, nextId))
  {
    assert forall t :: OfToken([], map[], t) == [];
  }

  // ----- removing several -----

  function Members(ids: seq<ActivationId>): set<ActivationId> { set id | id in ids }

  function WithoutAll(s: seq<ActivationId>, ids: seq<ActivationId>): seq<ActivationId> {
    if ids == [] then s else Without(WithoutAll(s, ids[..|ids| - 1]), ids[|ids| - 1])
  }

  /** `left` lists what of `s` is not in `gone`, in its old order. */
  ghost predicate Survivors(s: seq<ActivationId>, gone: seq<ActivationId>, left: seq<ActivationId>) {
    && (forall id :: id in left <==> id in s && id !in gone)
    && forall i, j :: 0 <= i < j < |left| ==> InOrder(s, left[i], left[j])
  }

  lemma {:induction false} WithoutAllSurvives(s: seq<ActivationId>, gone: seq<ActivationId>)
    ensures Survivors(s, gone, WithoutAll(s, gone))
  {
    if gone == [] {
      forall i, j | 0 <= i < j < |s| ensures InOrder(s, s[i], s[j]) {}
    } else {
      var before, x := gone[..|gone| - 1], gone[|gone| - 1];
      assert gone == before + [x];
      WithoutAllSurvives(s, before);
      var some := WithoutAll(s, before);
      WithoutMembers(some, x);
      WithoutKeepsOrder(some, x);
      forall i, j | 0 <= i < j < |Without(some, x)| ensures InOrder(s, Without(some, x)[i], Without(some, x)[j]) {
        assert InOrder(some, Without(some, x)[i], Without(some, x)[j]);
      }
    }
  }

  method IdsOfRule(acts: Activations, rule: RuleId) returns (ids: seq<ActivationId>)
    ensures NoDuplicates(ids) && forall id :: id in ids <==> id in acts && acts[id].rule == rule
  {
    ids := [];
    var pending := acts.Keys;
    while pending != {}
      invariant pending <= acts.Keys && NoDuplicates(ids)
      invariant forall id :: id in ids <==> id in acts && id !in pending && acts[id].rule == rule
    {
      var id :| id in pending;
      pending := pending - {id};
      if acts[id].rule == rule { ids := ids + [id]; }
    }
  }

  lemma NoneRemoved(b: Book)
    ensures WithoutAll(b.births, []) == b.births && b.acts - Members([]) == b.acts && Live([], b.acts) == []
  {
  }

  lemma TokenEntryIs(b: Book, t: TokenId)
    requires Consistent(b)
    ensures TokenEntry(b.tokens, t) == OfToken(b.births, b.acts, t)
    ensures NoDuplicates(TokenEntry(b.tokens, t)) && forall id :: id in TokenEntry(b.tokens, t) <==> id in b.acts && b.acts[id].token == t
  {
    OfTokenMembers(b.births, b.acts, t);
  }

  lemma SingleOut(b: Book, g: Book, ids: seq<ActivationId>, i: nat)
    requires Consistent(g) && NoDuplicates(ids) && i < |ids| && ids[i] in b.acts
    requires g.births == WithoutAll(b.births, ids[..i]) && g.acts == b.acts - Members(ids[..i])
    ensures ids[i] in g.acts && ids[i] in g.ids && g.acts[ids[i]] == b.acts[ids[i]] && ids[i] in b.acts
    ensures var h := Removed(g, ids[i]);
      Consistent(h) && h.births == WithoutAll(b.births, ids[..i + 1]) && h.acts == b.acts - Members(ids[..i + 1])
      && h.strategy == g.strategy
  {
    StillLive(b, g, ids, i);
    ConsistentFacts(g);
    hide Consistent, TokenRemoved, RuleRemoved;
    var id := ids[i];
    var at :| 0 <= at < |g.births| && g.births[at] == id;
    RemovedConsistent(g, at);
  }

  lemma StillLive(b: Book, g: Book, ids: seq<ActivationId>, i: nat)
    requires NoDuplicates(ids) && i < |ids| && ids[i] in b.acts && g.acts == b.acts - Members(ids[..i])
    ensures ids[i] in g.acts && g.acts[ids[i]] == b.acts[ids[i]]
    ensures ids[..i + 1][..i] == ids[..i] && ids[..i + 1][i] == ids[i]
    ensures g.acts - {ids[i]} == b.acts - Members(ids[..i + 1])
  {
    assert ids[..i + 1] == ids[..i] + [ids[i]];
    assert ids[i] !in ids[..i];
    assert Members(ids[..i + 1]) == Members(ids[..i]) + {ids[i]};
  }

  lemma RemovedElsewhere(g: Book, id: ActivationId)
    requires id in g.acts && id in g.ids
    ensures Removed(g, id).tokens - {g.acts[id].token} == g.tokens - {g.acts[id].token}
    ensures g.rules.Some? ==> Removed(g, id).rules.Some? && Removed(g, id).rules.value - {g.acts[id].rule} == g.rules.value - {g.acts[id].rule}
  {
  }

  lemma LiveSnoc(ids: seq<ActivationId>, acts: Activations, i: nat)
    requires i < |ids| && forall id :: id in ids ==> id in acts
    ensures (forall id :: id in ids[..i + 1] ==> id in acts) && Live(ids[..i + 1], acts) == Live(ids[..i], acts) + [acts[ids[i]]]
  {
    assert forall id :: id in ids[..i + 1] ==> id in ids;
  }

  lemma RetractOne(b: Book, g: Book, ids: seq<ActivationId>, i: nat, t: TokenId)
    requires Consistent(b) && Consistent(g) && ids == TokenEntry(b.tokens, t) && i < |ids|
    requires g.births == WithoutAll(b.births, ids[..i]) && g.acts == b.acts - Members(ids[..i])
    ensures ids[i] in g.acts && ids[i] in g.ids && ids[i] in b.acts && g.acts[ids[i]] == b.acts[ids[i]]
    ensures var h := Removed(g, ids[i]);
      && Consistent(h) && h.births == WithoutAll(b.births, ids[..i + 1]) && h.acts == b.acts - Members(ids[..i + 1])
      && h.strategy == g.strategy && h.tokens - {t} == g.tokens - {t}
      && h == g.(births := Without(g.births, ids[i]), acts := g.acts - {ids[i]}, ids := g.ids - {ids[i]}, tokens := h.tokens,
                 ordering := g.ordering - {g.ids[ids[i]]},
                 rules := if g.rules.None? then None else Some(RuleRemoved(g.rules.value, g.acts[ids[i]].rule, g.ids[ids[i]])))
    ensures (forall id :: id in ids[..i + 1] ==> id in b.acts) && Live(ids[..i + 1], b.acts) == Live(ids[..i], b.acts) + [b.acts[ids[i]]]
  {
    hide Consistent, TokenRemoved, RuleRemoved;
    TokenEntryIs(b, t);
    assert ids[i] in ids;
    SingleOut(b, g, ids, i);
    RemovedElsewhere(g, ids[i]);
    LiveSnoc(ids, b.acts, i);
  }

  lemma TokenGone(b: Book, g: Book, ids: seq<ActivationId>, t: TokenId)
    requires Consistent(b) && Consistent(g) && ids == TokenEntry(b.tokens, t)
    requires g.acts == b.acts - Members(ids)
    ensures g.tokens - {t} == g.tokens
  {
    hide Consistent;
    TokenEntryIs(b, t);
    TokenEntryIs(g, t);
    NoEmptyEntries(g);
  }

  /** Every listed token and every indexed rule has a live activation. */
  lemma NoEmptyEntries(g: Book)
    requires Consistent(g)
    ensures forall t :: t in g.tokens ==> exists id :: id in TokenEntry(g.tokens, t)
    ensures g.rules.Some? ==> forall rule :: rule in g.rules.value ==> exists id :: id in g.acts && g.acts[id].rule == rule
  {
    TokensNotEmpty(g);
    if g.rules.Some? {
      IndexProjects(g);
      hide Consistent;
      forall rule | rule in g.rules.value ensures exists id :: id in g.acts && g.acts[id].rule == rule {
        assert g.rules.value[rule].Keys != {};
        var k :| k in g.rules.value[rule];
        assert g.acts[g.ordering[k]].rule == rule;
      }
    }
  }

  lemma TokensNotEmpty(g: Book)
    requires Consistent(g)
    ensures forall t :: t in g.tokens ==> exists id :: id in TokenEntry(g.tokens, t)
  {
    hide BirthsOk, KeysOk, RulesOk, OfToken;
    forall t | t in g.tokens ensures exists id :: id in TokenEntry(g.tokens, t) {
      assert g.tokens[t][0] in TokenEntry(g.tokens, t);
    }
  }

  lemma RetireOne(b: Book, g: Book, ids: seq<ActivationId>, i: nat, rule: RuleId)
    requires Consistent(g) && NoDuplicates(ids) && i < |ids| && forall id :: id in ids <==> id in b.acts && b.acts[id].rule == rule
    requires g.births == WithoutAll(b.births, ids[..i]) && g.acts == b.acts - Members(ids[..i])
    ensures ids[i] in g.acts && ids[i] in g.ids && ids[i] in b.acts && g.acts[ids[i]] == b.acts[ids[i]]
    ensures var h := Removed(g, ids[i]);
      && Consistent(h) && h.births == WithoutAll(b.births, ids[..i + 1]) && h.acts == b.acts - Members(ids[..i + 1])
      && h.strategy == g.strategy && (h.rules.None? <==> g.rules.None?)
      && (h.rules.Some? ==> h.rules.value - {rule} == g.rules.value - {rule})
      && h == g.(births := Without(g.births, ids[i]), acts := g.acts - {ids[i]}, ids := g.ids - {ids[i]}, rules := h.rules,
                 ordering := g.ordering - {g.ids[ids[i]]}, tokens := TokenRemoved(g.tokens, g.acts[ids[i]].token, ids[i]))
    ensures (forall id :: id in ids[..i + 1] ==> id in b.acts) && Live(ids[..i + 1], b.acts) == Live(ids[..i], b.acts) + [b.acts[ids[i]]]
  {
    hide Consistent, TokenRemoved, RuleRemoved;
    assert ids[i] in ids;
    SingleOut(b, g, ids, i);
    RemovedElsewhere(g, ids[i]);
    LiveSnoc(ids, b.acts, i);
  }

  lemma RuleGone(b: Book, g: Book, ids: seq<ActivationId>, rule: RuleId)
    requires Consistent(g) && (forall id :: id in ids <==> id in b.acts && b.acts[id].rule == rule) && g.acts == b.acts - Members(ids)
    ensures g.rules.Some? ==> g.rules.value - {rule} == g.rules.value
  {
    NoEmptyEntries(g);
  }

  // ----- strategies and listings -----

  lemma SequencesDiffer(b: Book)
    requires Consistent(b)
    ensures forall i, j :: i in b.acts && j in b.acts && i != j ==> b.acts[i].sequence != b.acts[j].sequence
  {
    forall i, j | i in b.acts && j in b.acts && i != j ensures b.acts[i].sequence != b.acts[j].sequence {
      assert i in b.births && j in b.births;
      var x :| 0 <= x < |b.births| && b.births[x] == i;
      var y :| 0 <= y < |b.births| && b.births[y] == j;
      if x < y { Older(b.births, b.acts, b.next, x, y); } else { Older(b.births, b.acts, b.next, y, x); }
    }
  }

  lemma RestrategizedConsistent(b: Book, strategy: Strategy, ids: map<ActivationId, AgendaKey>, ordering: Ordering)
    requires Consistent(b) && KeysOk(strategy, b.acts, ids, ordering)
    ensures var after := b.(strategy := strategy, ids := ids, ordering := ordering, rules := None);
      Consistent(after) && Chronicle(after) == Chronicle(b)
  {
  }

  lemma KeysMatch(b: Book)
    requires Consistent(b)
    ensures forall k :: k in b.ordering ==> b.ordering[k] in b.acts && BuildKey(b.strategy, b.acts[b.ordering[k]]) == k
    ensures forall id :: id in b.acts ==> exists k :: k in b.ordering && b.ordering[k] == id
  {
    forall id | id in b.acts ensures exists k :: k in b.ordering && b.ordering[k] == id {
      assert b.ids[id] in b.ordering && b.ordering[b.ids[id]] == id;
    }
  }

  /** The live activations, strictly sorted by key. */
  ghost predicate SortedFor(strategy: Strategy, listed: seq<Activation>, acts: Activations) {
    && (forall a :: a in listed <==> exists id :: id in acts && acts[id] == a)
    && (forall i, j :: 0 <= i < j < |listed| ==> KeyLess(BuildKey(strategy, listed[i]), BuildKey(strategy, listed[j])))
  }

  /** `listed` holds the activations of the keys outside `rest`, in key order and before all of `rest`. */
  ghost predicate Listing(strategy: Strategy, listed: seq<Activation>, ordering: Ordering, acts: Activations, rest: set<AgendaKey>) {
    && (forall k :: k in ordering ==> ordering[k] in acts && BuildKey(strategy, acts[ordering[k]]) == k)
    && (forall a :: a in listed ==> ListedKey(strategy, ordering, acts, rest, a))
    && (forall k :: k in ordering && k !in rest ==> acts[ordering[k]] in listed)
    && (forall i, k :: 0 <= i < |listed| && k in rest ==> KeyLess(BuildKey(strategy, listed[i]), k))
    && (forall i, j :: 0 <= i < j < |listed| ==> KeyLess(BuildKey(strategy, listed[i]), BuildKey(strategy, listed[j])))
  }

  ghost predicate ListedKey(strategy: Strategy, ordering: Ordering, acts: Activations, rest: set<AgendaKey>, a: Activation) {
    var k := BuildKey(strategy, a);
    k in ordering && k !in rest && ordering[k] in acts && acts[ordering[k]] == a
  }

  lemma ListNothing(b: Book)
    requires Consistent(b)
    ensures Listing(b.strategy, [], b.ordering, b.acts, b.ordering.Keys)
  {
    KeysMatch(b);
  }

  lemma ListNext(strategy: Strategy, listed: seq<Activation>, ordering: Ordering, acts: Activations, rest: set<AgendaKey>, k: AgendaKey)
    requires Listing(strategy, listed, ordering, acts, rest) && rest <= ordering.Keys && Least(k, rest)
    ensures ordering[k] in acts && Listing(strategy, listed + [acts[ordering[k]]], ordering, acts, rest - {k})
  {
    var a := acts[ordering[k]];
    assert BuildKey(strategy, a) == k;
    var more := listed + [a];
    forall x | x in more ensures ListedKey(strategy, ordering, acts, rest - {k}, x) {
      if x in listed { assert ListedKey(strategy, ordering, acts, rest, x); }
    }
  }

  lemma ListedAll(b: Book, listed: seq<Activation>)
    requires Consistent(b) && Listing(b.strategy, listed, b.ordering, b.acts, {})
    ensures SortedFor(b.strategy, listed, b.acts)
  {
    KeysMatch(b);
    forall a ensures a in listed <==> exists id :: id in b.acts && b.acts[id] == a {
      if a in listed { assert ListedKey(b.strategy, b.ordering, b.acts, {}, a); }
      if id :| id in b.acts && b.acts[id] == a {
        var k :| k in b.ordering && b.ordering[k] == id;
        assert b.acts[b.ordering[k]] in listed;
      }
    }
  }

  // ----- popping -----

  predicate Anyone(a: Activation) { true }

  /** Taking the activation of a least eligible key out of a consistent agenda is the specified pop. */
  lemma PopRemoves(b: Book, admits: Activation -> bool, keys: set<AgendaKey>, k: AgendaKey)
    requires Consistent(b) && Least(k, keys)
    requires forall j :: j in keys <==> j in b.ordering && b.ordering[j] in b.acts && admits(b.acts[b.ordering[j]])
    ensures forall id :: id in b.births ==> id in b.acts
    ensures k in b.ordering && b.ordering[k] in b.acts && b.ordering[k] in b.ids && b.ids[b.ordering[k]] == k
    ensures var left := Removed(b, b.ordering[k]);
      Consistent(left) && PopOf(b.strategy, b.births, b.acts, admits, Some(b.acts[b.ordering[k]]), left.births, left.acts)
  {
    ConsistentFacts(b);
    var at := LeastIsBest(b.strategy, b.births, b.acts, b.ids, b.ordering, b.next, admits, keys, k);
    RemovedConsistent(b, at);
  }

  lemma PopFindsNobody(b: Book, admits: Activation -> bool)
    requires Consistent(b) && forall j :: j in b.ordering && b.ordering[j] in b.acts ==> !admits(b.acts[b.ordering[j]])
    ensures forall id :: id in b.births ==> id in b.acts
    ensures PopOf(b.strategy, b.births, b.acts, admits, None, b.births, b.acts)
  {
    ConsistentFacts(b);
    NobodyEligible(b.strategy, b.births, b.acts, b.ids, b.ordering, b.next, admits);
  }

  // ----- rebasing -----

  /** The ids sorted by sequence number: their order of birth. */
  method Chronology(acts: Activations, ghost births: seq<ActivationId>, ghost next: nat) returns (sorted: seq<ActivationId>)
    requires BirthsOk(births, acts, next)
    ensures sorted == births
  {
    BirthsAreLive(births, acts, next);
    hide BirthsOk;
    sorted := [];
    var pending := acts.Keys;
    while pending != {}
      invariant sorted <= births && pending <= acts.Keys
      invariant forall id :: id in pending <==> id in births[|sorted|..]
      decreases |births| - |sorted|
    {
      var id := OldestOf(pending, acts);
      OldestIsNext(births, acts, next, |sorted|, id);
      sorted := sorted + [id];
      pending := pending - {id};
    }
    SuffixMember(births, |sorted|);
  }

  lemma SuffixMember(s: seq<nat>, n: nat)
    ensures n < |s| ==> s[n] in s[n..]
  {
    if n < |s| { assert s[n..][0] == s[n]; }
  }

  lemma Older(births: seq<ActivationId>, acts: Activations, next: nat, i: nat, j: nat)
    requires BirthsOk(births, acts, next) && i < j < |births|
    ensures births[i] in acts && births[j] in acts && acts[births[i]].sequence < acts[births[j]].sequence && births[i] != births[j]
  {
  }

  /** The smallest sequence among the remaining births is the next birth's. */
  lemma OldestIsNext(births: seq<ActivationId>, acts: Activations, next: nat, at: nat, id: ActivationId)
    requires BirthsOk(births, acts, next) && at <= |births| && id in births[at..]
    requires forall x :: x in births[at..] ==> acts[id].sequence <= acts[x].sequence
    ensures at < |births| && id == births[at]
    ensures forall x :: x in births[at + 1..] <==> x in births[at..] && x != id
  {
    var i :| 0 <= i < |births[at..]| && births[at..][i] == id;
    var rest := births[at + 1..];
    assert births[at..] == [births[at]] + rest;
    var found: nat := at + i;
    if at < found { Older(births, acts, next, at, found); }
    forall x | x in rest ensures x != births[at] {
      var k :| 0 <= k < |rest| && rest[k] == x;
      Older(births, acts, next, at, at + 1 + k);
    }
  }

  method OldestOf(pending: set<ActivationId>, acts: Activations) returns (id: ActivationId)
    requires pending != {} && pending <= acts.Keys
    ensures id in pending && forall x :: x in pending ==> acts[id].sequence <= acts[x].sequence
  {
    id :| id in pending;
    var rest := pending - {id};
    while rest != {}
      invariant rest <= pending && id in pending
      invariant forall x :: x in pending - rest ==> acts[id].sequence <= acts[x].sequence
    {
      var x :| x in rest;
      if acts[x].sequence < acts[id].sequence { id := x; }
      rest := rest - {x};
    }
  }

  ghost function Rebased(births: seq<ActivationId>, acts: Activations, n: nat): Activations
    requires n <= |births| && forall id :: id in births ==> id in acts
  {
    if n == 0 then acts
    else Rebased(births, acts, n - 1)[births[n - 1] := acts[births[n - 1]].(sequence := n - 1)]
  }

  method Renumber(births: seq<ActivationId>, acts: Activations) returns (renumbered: Activations)
    requires NoDuplicates(births) && forall id :: id in births ==> id in acts
    ensures renumbered == Rebased(births, acts, |births|)
  {
    renumbered := acts;
    for n := 0 to |births|
      invariant renumbered == Rebased(births, acts, n)
    {
      RebasedAt(births, acts, n);
      renumbered := renumbered[births[n] := renumbered[births[n]].(sequence := n)];
    }
  }

  lemma {:induction false} RebasedAt(births: seq<ActivationId>, acts: Activations, n: nat)
    requires NoDuplicates(births) && n <= |births| && forall id :: id in births ==> id in acts
    ensures Rebased(births, acts, n).Keys == acts.Keys
    ensures forall i :: 0 <= i < |births| ==>
      Rebased(births, acts, n)[births[i]] == if i < n then acts[births[i]].(sequence := i) else acts[births[i]]
  {
    if n > 0 { RebasedAt(births, acts, n - 1); }
  }

  lemma RebasedDistinct(b: Book)
    requires Consistent(b)
    ensures BirthsOk(b.births, b.acts, b.next) && NoDuplicates(b.births) && forall id :: id in b.births ==> id in b.acts
    ensures var after := Rebased(b.births, b.acts, |b.births|);
      after.Keys == b.acts.Keys && forall i, j :: i in after && j in after && i != j ==> after[i].sequence != after[j].sequence
  {
    RebasedAt(b.births, b.acts, |b.births|);
    var after := Rebased(b.births, b.acts, |b.births|);
    forall i, j | i in after && j in after && i != j ensures after[i].sequence != after[j].sequence {
      assert i in b.births && j in b.births;
      var x :| 0 <= x < |b.births| && b.births[x] == i;
      var y :| 0 <= y < |b.births| && b.births[y] == j;
      assert after[b.births[x]].sequence == x && after[b.births[y]].sequence == y;
    }
  }

  lemma RebasedConsistent(b: Book, ids: map<ActivationId, AgendaKey>, ordering: Ordering)
    requires Consistent(b) && |b.births| <= U64_MAX && forall id :: id in b.births ==> id in b.acts
    requires KeysOk(b.strategy, Rebased(b.births, b.acts, |b.births|), ids, ordering)
    ensures var after := b.(acts := Rebased(b.births, b.acts, |b.births|), ids := ids, ordering := ordering, rules := None, next := |b.births|);
      Consistent(after) && Chronicle(after) == Chronicle(b)
  {
    hide BirthsOk, KeysOk, TokensOk, Rebased, Consistent, Chronicle;
    var acts := Rebased(b.births, b.acts, |b.births|);
    RebasedBirths(b);
    RebasedTokens(b, acts);
    RekeyedConsistent(b, acts, ids, ordering);
    RebasedList(b.births, b.acts);
    SameChronicle(b, b.(acts := acts, ids := ids, ordering := ordering, rules := None, next := |b.births|));
  }

  lemma RekeyedConsistent(b: Book, acts: Activations, ids: map<ActivationId, AgendaKey>, ordering: Ordering)
    requires Consistent(b) && |b.births| <= U64_MAX && BirthsOk(b.births, acts, |b.births|) && TokensOk(b.births, acts, b.tokens)
    requires KeysOk(b.strategy, acts, ids, ordering) && acts.Keys == b.acts.Keys
    ensures Consistent(b.(acts := acts, ids := ids, ordering := ordering, rules := None, next := |b.births|))
  {
    hide BirthsOk, KeysOk, TokensOk;
    assert forall id :: id in acts ==> id in b.acts;
  }

  lemma SameChronicle(a: Book, b: Book)
    requires Consistent(a) && Consistent(b) && (forall id :: id in a.births ==> id in a.acts) && (forall id :: id in b.births ==> id in b.acts)
    requires Erased(Live(a.births, a.acts)) == Erased(Live(b.births, b.acts))
    ensures Chronicle(a) == Chronicle(b)
  {
  }

  lemma RebasedBirths(b: Book)
    requires Consistent(b) && forall id :: id in b.births ==> id in b.acts
    ensures BirthsOk(b.births, Rebased(b.births, b.acts, |b.births|), |b.births|)
    ensures Rebased(b.births, b.acts, |b.births|).Keys == b.acts.Keys && NoDuplicates(b.births)
  {
    RebasedAt(b.births, b.acts, |b.births|);
    var acts := Rebased(b.births, b.acts, |b.births|);
    forall id | id in acts ensures acts[id].id == id && acts[id].sequence < |b.births| {
      assert id in b.births;
      var i :| 0 <= i < |b.births| && b.births[i] == id;
      assert acts[b.births[i]] == b.acts[b.births[i]].(sequence := i);
    }
  }

  lemma RebasedTokens(b: Book, acts: Activations)
    requires Consistent(b) && forall id :: id in b.births ==> id in b.acts
    requires acts == Rebased(b.births, b.acts, |b.births|)
    ensures TokensOk(b.births, acts, b.tokens)
  {
    RebasedAt(b.births, b.acts, |b.births|);
    forall id | id in b.births ensures id in acts && acts[id].token == b.acts[id].token {
      var i :| 0 <= i < |b.births| && b.births[i] == id;
      assert acts[b.births[i]] == b.acts[b.births[i]].(sequence := i);
    }
    forall t ensures TokenEntry(b.tokens, t) == OfToken(b.births, acts, t) {
      OfTokenCongruent(b.births, b.acts, acts, t);
      assert TokenEntry(b.tokens, t) == OfToken(b.births, b.acts, t);
    }
  }

  lemma RebasedList(births: seq<ActivationId>, acts: Activations)
    requires NoDuplicates(births) && forall id :: id in births ==> id in acts
    ensures forall id :: id in births ==> id in Rebased(births, acts, |births|)
    ensures Erased(Live(births, Rebased(births, acts, |births|))) == Erased(Live(births, acts))
  {
    RebasedAt(births, acts, |births|);
  }

  // ----- draining -----

  /** `popped` is what popping until empty yields. */
  ghost predicate Drains(strategy: Strategy, births: seq<ActivationId>, acts: Activations, popped: seq<Activation>)
    decreases |popped|
  {
    && (forall id :: id in births ==> id in acts)
    && if popped == [] then births == []
       else exists at :: 0 <= at < |births| && PopsAt(strategy, births, acts, popped[0], at)
                         && Drains(strategy, Without(births, births[at]), acts - {births[at]}, popped[1..])
  }

  ghost predicate PopsAt(strategy: Strategy, births: seq<ActivationId>, acts: Activations, popped: Activation, at: nat)
    requires at < |births| && forall id :: id in births ==> id in acts
  {
    Removes(strategy, births, acts, Eligible(births, acts, Anyone), at, popped, Without(births, births[at]), acts - {births[at]})
  }

  lemma PoppedIsLeast(strategy: Strategy, births: seq<ActivationId>, acts: Activations, next: nat, at: nat, id: ActivationId)
    requires BirthsOk(births, acts, next) && at < |births| && PopsAt(strategy, births, acts, acts[births[at]], at)
    requires id in acts && id != births[at]
    ensures KeyLess(BuildKey(strategy, acts[births[at]]), BuildKey(strategy, acts[id]))
  {
    var i :| 0 <= i < |births| && births[i] == id;
    assert i in Eligible(births, acts, Anyone);
    LiveIncreases(births, acts, next);
    KeyOrderIsBirthOrder(strategy, Live(births, acts), at, i);
  }

  /** Draining yields the live activations sorted by salience, strategy, complexity and sequence. */
  lemma {:induction false} DrainIsSorted(strategy: Strategy, births: seq<ActivationId>, acts: Activations, next: nat, popped: seq<Activation>)
    requires BirthsOk(births, acts, next) && Drains(strategy, births, acts, popped)
    ensures SortedFor(strategy, popped, acts)
    decreases |popped|
  {
    if popped == [] {
      assert forall id :: id !in acts;
    } else {
      var at :| 0 <= at < |births| && PopsAt(strategy, births, acts, popped[0], at)
                && Drains(strategy, Without(births, births[at]), acts - {births[at]}, popped[1..]);
      BirthsAfterRemove(births, acts, next, at);
      DrainIsSorted(strategy, Without(births, births[at]), acts - {births[at]}, next, popped[1..]);
      PrependSorted(strategy, births, acts, next, at, popped);
    }
  }

  lemma PrependSorted(strategy: Strategy, births: seq<ActivationId>, acts: Activations, next: nat, at: nat, popped: seq<Activation>)
    requires BirthsOk(births, acts, next) && at < |births| && popped != [] && PopsAt(strategy, births, acts, popped[0], at)
    requires SortedFor(strategy, popped[1..], acts - {births[at]})
    ensures SortedFor(strategy, popped, acts)
  {
    var first, rest := popped[0], popped[1..];
    assert popped == [first] + rest && first == acts[births[at]];
    forall a | a in rest ensures KeyLess(BuildKey(strategy, first), BuildKey(strategy, a)) {
      var id :| id in acts - {births[at]} && (acts - {births[at]})[id] == a;
      PoppedIsLeast(strategy, births, acts, next, at, id);
    }
    forall a ensures a in popped <==> exists id :: id in acts && acts[id] == a {
      if a in rest {
        var id :| id in acts - {births[at]} && (acts - {births[at]})[id] == a;
        assert acts[id] == a;
      }
      if id :| id in acts && acts[id] == a {
        if id != births[at] { assert (acts - {births[at]})[id] == a; }
      }
    }
  }

  predicate StrictlySorted(strategy: Strategy, listed: seq<Activation>) {
    forall i, j :: 0 <= i < j < |listed| ==> KeyLess(BuildKey(strategy, listed[i]), BuildKey(strategy, listed[j]))
  }

  lemma HeadIsLeast(strategy: Strategy, listed: seq<Activation>, a: Activation)
    requires StrictlySorted(strategy, listed) && a in listed
    ensures a == listed[0] || KeyLess(BuildKey(strategy, listed[0]), BuildKey(strategy, a))
    ensures StrictlySorted(strategy, listed[1..]) && listed[0] !in listed[1..]
  {
    var i :| 0 <= i < |listed| && listed[i] == a;
    var rest := listed[1..];
    forall j | 0 <= j < |rest| ensures rest[j] != listed[0] {
      KeyOrderIsTotal(BuildKey(strategy, listed[0]), BuildKey(strategy, listed[j + 1]), BuildKey(strategy, listed[0]));
    }
  }

  /** There is one sorted listing: draining, inspecting in order and a fresh sort agree. */
  lemma {:induction false} SortedListingIsUnique(strategy: Strategy, a: seq<Activation>, b: seq<Activation>)
    requires StrictlySorted(strategy, a) && StrictlySorted(strategy, b) && forall x :: x in a <==> x in b
    ensures a == b
  {
    if b != [] { assert b[0] in b; }
    if a != [] {
      assert a[0] in a && a[0] in b;
      var x, y := a[0], b[0];
      assert y in b && y in a;
      HeadIsLeast(strategy, a, y);
      HeadIsLeast(strategy, b, x);
      KeyOrderIsTotal(BuildKey(strategy, x), BuildKey(strategy, y), BuildKey(strategy, x));
      var p, q := a[1..], b[1..];
      assert a == [x] + p && b == [x] + q;
      forall z | z in p ensures z in q { assert z in a && z != x && z in b; }
      forall z | z in q ensures z in p { assert z in b && z != x && z in a; }
      SortedListingIsUnique(strategy, p, q);
    }
  }
}
