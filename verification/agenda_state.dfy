/** The five-way agenda invariant, on values, and how insertion and removal keep each part. */
module AgendaState {
  import opened Syntax
  import opened Sequences
  import opened AgendaOrder

  type Activations = map<ActivationId, Activation>
  type Ordering = map<AgendaKey, ActivationId>
  type RuleOrdering = map<RuleId, Ordering>
  type TokenIndex = map<TokenId, seq<ActivationId>>

  /** `births` lists the live ids oldest first; sequences grow along it and stay below the counter. */
  ghost predicate BirthsOk(births: seq<ActivationId>, acts: Activations, next: nat) {
    && NoDuplicates(births) && (forall id :: id in acts <==> id in births)
    && (forall id :: id in acts ==> acts[id].id == id && acts[id].sequence < next)
    && (forall i, j :: 0 <= i < j < |births| ==> acts[births[i]].sequence < acts[births[j]].sequence)
  }

  /** `ordering` and `ids` are mutually inverse over exactly the live activations, under the strategy's keys. */
  ghost predicate KeysOk(strategy: Strategy, acts: Activations, ids: map<ActivationId, AgendaKey>, ordering: Ordering) {
    && ids.Keys == acts.Keys
    && (forall id :: id in acts ==> ids[id] == BuildKey(strategy, acts[id]) && ids[id] in ordering && ordering[ids[id]] == id)
    && (forall k :: k in ordering ==> ordering[k] in acts && ids[ordering[k]] == k)
  }

  function OfToken(births: seq<ActivationId>, acts: Activations, t: TokenId): seq<ActivationId> {
    if births == [] then []
    else
      var last := |births| - 1;
      OfToken(births[..last], acts, t) + (if births[last] in acts && acts[births[last]].token == t then [births[last]] else [])
  }

  function TokenEntry(index: TokenIndex, t: TokenId): seq<ActivationId> {
    if t in index then index[t] else []
  }

  /** The token index partitions the live activations, oldest first, without empty entries. */
  ghost predicate TokensOk(births: seq<ActivationId>, acts: Activations, index: TokenIndex) {
    && (forall t :: TokenEntry(index, t) == OfToken(births, acts, t))
    && (forall t :: t in index ==> index[t] != [])
  }

  function RuleEntry(index: RuleOrdering, rule: RuleId, k: AgendaKey): Option<ActivationId> {
    if rule in index && k in index[rule] then Some(index[rule][k]) else None
  }

  /** The rule index is the projection of `ordering`, apart from the rules in `except`, which it leaves out. */
  ghost predicate ProjectsExcept(index: RuleOrdering, ordering: Ordering, acts: Activations, except: set<RuleId>) {
    && (forall rule, k :: RuleEntry(index, rule, k) ==
          if k in ordering && ordering[k] in acts && acts[ordering[k]].rule == rule && rule !in except then Some(ordering[k]) else None)
    && (forall rule :: rule in index ==> index[rule] != map[])
  }

  ghost predicate RulesOk(rules: Option<RuleOrdering>, ordering: Ordering, acts: Activations) {
    rules.Some? ==> ProjectsExcept(rules.value, ordering, acts, {})
  }

  function Live(births: seq<ActivationId>, acts: Activations): seq<Activation>
    requires forall id :: id in births ==> id in acts
  {
    seq(|births|, i requires 0 <= i < |births| => acts[births[i]])
  }

  lemma LiveIncreases(births: seq<ActivationId>, acts: Activations, next: nat)
    requires BirthsOk(births, acts, next)
    ensures Increasing(Live(births, acts))
  {
  }

  // ----- tokens -----

  lemma {:induction false} OfTokenMembers(births: seq<ActivationId>, acts: Activations, t: TokenId)
    ensures forall id :: id in OfToken(births, acts, t) <==> id in births && id in acts && acts[id].token == t
    ensures NoDuplicates(births) ==> NoDuplicates(OfToken(births, acts, t))
  {
    if births != [] {
      var last := |births| - 1;
      assert births == births[..last] + [births[last]];
      OfTokenMembers(births[..last], acts, t);
    }
  }

  /** A token's activations are listed oldest first. */
  lemma {:induction false} OfTokenOrder(births: seq<ActivationId>, acts: Activations, t: TokenId)
    ensures forall i, j :: 0 <= i < j < |OfToken(births, acts, t)| ==>
      InOrder(births, OfToken(births, acts, t)[i], OfToken(births, acts, t)[j])
  {
    hide InOrder;
    if births != [] {
      var before, x := births[..|births| - 1], births[|births| - 1];
      assert births == before + [x];
      var earlier, found := OfToken(before, acts, t), OfToken(births, acts, t);
      OfTokenOrder(before, acts, t);
      OfTokenMembers(before, acts, t);
      assert forall i, j :: 0 <= i < j < |earlier| ==> InOrder(before, earlier[i], earlier[j]);
      assert found == earlier || found == earlier + [x];
      forall i, j | 0 <= i < j < |found| ensures InOrder(births, found[i], found[j]) {
        assert found[i] == earlier[i] && earlier[i] in earlier;
        if j < |earlier| {
          assert found[j] == earlier[j];
          InOrderSnoc(before, x, earlier[i], earlier[j]);
        } else {
          InOrderLast(before, x, found[i]);
        }
      }
    }
  }

  lemma {:induction false} OfTokenCongruent(births: seq<ActivationId>, acts: Activations, other: Activations, t: TokenId)
    requires forall id :: id in births ==> id in acts && id in other && acts[id].token == other[id].token
    ensures OfToken(births, acts, t) == OfToken(births, other, t)
  {
    if births != [] {
      var last := |births| - 1;
      assert births[last] in births && forall id :: id in births[..last] ==> id in births;
      OfTokenCongruent(births[..last], acts, other, t);
    }
  }

  lemma {:induction false} OfTokenWithout(births: seq<ActivationId>, acts: Activations, t: TokenId, id: ActivationId)
    ensures OfToken(Without(births, id), acts, t) == Without(OfToken(births, acts, t), id)
  {
    if births != [] {
      var last := |births| - 1;
      var before, y := births[..last], births[last];
      assert births == before + [y];
      OfTokenWithout(before, acts, t, id);
      WithoutSnoc(before, y, id);
      var found := OfToken(before, acts, t);
      if y in acts && acts[y].token == t { WithoutSnoc(found, y, id); } else { assert OfToken(births, acts, t) == found; }
      if y == id {
        assert Without(births, id) == Without(before, id);
      } else {
        assert Without(births, id) == Without(before, id) + [y];
        assert (Without(before, id) + [y])[..|Without(before, id)|] == Without(before, id);
      }
    }
  }

  /** Dropping an id's entry in its token's list, and the list when it empties. */
  function TokenRemoved(index: TokenIndex, t: TokenId, id: ActivationId): TokenIndex {
    if t !in index then index
    else if Without(index[t], id) == [] then index - {t}
    else index[t := Without(index[t], id)]
  }

  function RuleRemoved(index: RuleOrdering, rule: RuleId, k: AgendaKey): RuleOrdering {
    if rule !in index then index
    else if index[rule] - {k} == map[] then index - {rule}
    else index[rule := index[rule] - {k}]
  }

  // ----- insertion -----

  lemma BirthsAfterInsert(births: seq<ActivationId>, acts: Activations, next: nat, a: Activation)
    requires BirthsOk(births, acts, next) && a.id !in acts && a.sequence == next
    ensures BirthsOk(births + [a.id], acts[a.id := a], next + 1)
    ensures Live(births + [a.id], acts[a.id := a]) == Live(births, acts) + [a]
  {
    assert a.id !in births;
    var longer, more := births + [a.id], acts[a.id := a];
    forall i, j | 0 <= i < j < |longer| ensures longer[i] != longer[j] && more[longer[i]].sequence < more[longer[j]].sequence {
      assert longer[i] == births[i] && births[i] in births;
      if j < |births| { assert longer[j] in births; }
    }
  }

  lemma KeysAfterInsert(strategy: Strategy, births: seq<ActivationId>, acts: Activations, ids: map<ActivationId, AgendaKey>, ordering: Ordering, next: nat, a: Activation)
    requires KeysOk(strategy, acts, ids, ordering) && a.id !in acts && a.sequence == next
    requires BirthsOk(births, acts, next)
    ensures var k := BuildKey(strategy, a);
      k !in ordering && KeysOk(strategy, acts[a.id := a], ids[a.id := k], ordering[k := a.id])
  {
    var k := BuildKey(strategy, a);
  }

  lemma TokensAfterInsert(births: seq<ActivationId>, acts: Activations, next: nat, index: TokenIndex, a: Activation)
    requires TokensOk(births, acts, index) && a.id !in acts && BirthsOk(births, acts, next)
    ensures TokensOk(births + [a.id], acts[a.id := a], index[a.token := TokenEntry(index, a.token) + [a.id]])
  {
    var more := index[a.token := TokenEntry(index, a.token) + [a.id]];
    forall t ensures TokenEntry(more, t) == OfToken(births + [a.id], acts[a.id := a], t) {
      assert (births + [a.id])[..|births|] == births;
      OfTokenCongruent(births, acts, acts[a.id := a], t);
      assert TokenEntry(index, t) == OfToken(births, acts, t);
    }
  }

  lemma RulesAfterInsert(strategy: Strategy, ids: map<ActivationId, AgendaKey>, index: RuleOrdering, ordering: Ordering, acts: Activations,
                         a: Activation, k: AgendaKey)
    requires ProjectsExcept(index, ordering, acts, {}) && k !in ordering && a.id !in acts && KeysOk(strategy, acts, ids, ordering)
    ensures var entries := if a.rule in index then index[a.rule] else map[];
      ProjectsExcept(index[a.rule := entries[k := a.id]], ordering[k := a.id], acts[a.id := a], {})
  {
    var entries := if a.rule in index then index[a.rule] else map[];
    var more := index[a.rule := entries[k := a.id]];
    assert k in more[a.rule];
    forall rule, j ensures RuleEntry(more, rule, j) ==
      if j in ordering[k := a.id] && ordering[k := a.id][j] in acts[a.id := a] && acts[a.id := a][ordering[k := a.id][j]].rule == rule
      then Some(ordering[k := a.id][j]) else None
    {
      assert RuleEntry(index, rule, j) ==
        if j in ordering && ordering[j] in acts && acts[ordering[j]].rule == rule then Some(ordering[j]) else None;
    }
  }

  // ----- removal -----

  /** The position, before removing position `i`, of what is now at position `j`. */
  function Skip(i: nat, j: nat): nat { if j < i then j else j + 1 }

  lemma WithoutSkips(births: seq<ActivationId>, i: nat)
    requires NoDuplicates(births) && i < |births|
    ensures var fewer := Without(births, births[i]);
      |fewer| == |births| - 1 && (forall j :: 0 <= j < |fewer| ==> fewer[j] == births[Skip(i, j)] && fewer[j] != births[i])
  {
    WithoutAt(births, i);
  }

  lemma SkipInList(live: seq<Activation>, i: nat, j: nat)
    requires i < |live| && j < |live| - 1
    ensures Skip(i, j) < |live| && (live[..i] + live[i + 1..])[j] == live[Skip(i, j)]
  {
  }

  lemma LiveAfterRemove(births: seq<ActivationId>, acts: Activations, i: nat)
    requires NoDuplicates(births) && i < |births| && forall id :: id in births ==> id in acts
    ensures forall id :: id in Without(births, births[i]) ==> id in acts - {births[i]}
    ensures Live(Without(births, births[i]), acts - {births[i]}) == Live(births, acts)[..i] + Live(births, acts)[i + 1..]
  {
    WithoutMembers(births, births[i]);
    WithoutSkips(births, i);
    hide Without, NoDuplicates;
    var fewer, left, live := Without(births, births[i]), acts - {births[i]}, Live(births, acts);
    var shorter := live[..i] + live[i + 1..];
    forall j | 0 <= j < |fewer| ensures Live(fewer, left)[j] == shorter[j] {
      SkipInList(live, i, j);
      assert births[Skip(i, j)] in births && fewer[j] in fewer;
    }
    assert |Live(fewer, left)| == |shorter|;
  }

  lemma BirthsAfterRemove(births: seq<ActivationId>, acts: Activations, next: nat, i: nat)
    requires BirthsOk(births, acts, next) && i < |births|
    ensures BirthsOk(Without(births, births[i]), acts - {births[i]}, next)
  {
    WithoutSkips(births, i);
    WithoutMembers(births, births[i]);
    WithoutDistinct(births, births[i]);
    var fewer, left := Without(births, births[i]), acts - {births[i]};
    forall j, k | 0 <= j < k < |fewer| ensures left[fewer[j]].sequence < left[fewer[k]].sequence {
      assert Skip(i, j) < Skip(i, k);
      assert births[Skip(i, j)] in acts && births[Skip(i, k)] in acts;
    }
  }

  lemma KeysAfterRemove(strategy: Strategy, acts: Activations, ids: map<ActivationId, AgendaKey>, ordering: Ordering, id: ActivationId)
    requires KeysOk(strategy, acts, ids, ordering) && id in acts
    ensures KeysOk(strategy, acts - {id}, ids - {id}, ordering - {ids[id]})
  {
  }

  lemma BirthsAreLive(births: seq<ActivationId>, acts: Activations, next: nat)
    requires BirthsOk(births, acts, next)
    ensures NoDuplicates(births) && forall id :: id in births <==> id in acts
  {
  }

  lemma TokensAfterRemove(births: seq<ActivationId>, acts: Activations, index: TokenIndex, id: ActivationId)
    requires TokensOk(births, acts, index) && id in acts && forall x :: x in births ==> x in acts
    ensures TokensOk(Without(births, id), acts - {id}, TokenRemoved(index, acts[id].token, id))
  {
    var fewer := TokenRemoved(index, acts[id].token, id);
    WithoutMembers(births, id);
    forall t ensures TokenEntry(fewer, t) == OfToken(Without(births, id), acts - {id}, t) {
      OneTokenAfterRemove(births, acts, t, id);
      assert TokenEntry(index, t) == OfToken(births, acts, t);
    }
  }

  lemma OneTokenAfterRemove(births: seq<ActivationId>, acts: Activations, t: TokenId, id: ActivationId)
    requires id in acts && forall x :: x in births ==> x in acts
    ensures var before := OfToken(births, acts, t);
      OfToken(Without(births, id), acts - {id}, t) == (if acts[id].token == t then Without(before, id) else before)
  {
    WithoutMembers(births, id);
    OfTokenWithout(births, acts, t, id);
    OfTokenMembers(births, acts, t);
    OfTokenCongruent(Without(births, id), acts, acts - {id}, t);
    if t != acts[id].token { WithoutAbsent(OfToken(births, acts, t), id); }
  }

  lemma RulesAfterRemove(strategy: Strategy, ids: map<ActivationId, AgendaKey>, index: RuleOrdering, ordering: Ordering, acts: Activations,
                         id: ActivationId, k: AgendaKey, except: set<RuleId>)
    requires ProjectsExcept(index, ordering, acts, except) && KeysOk(strategy, acts, ids, ordering) && id in acts && k == ids[id]
    ensures ProjectsExcept(if acts[id].rule in except then index else RuleRemoved(index, acts[id].rule, k), ordering - {k}, acts - {id}, except)
  {
    var rule := acts[id].rule;
    var fewer := if rule in except then index else RuleRemoved(index, rule, k);
    forall r, j ensures RuleEntry(fewer, r, j) ==
      if j in ordering - {k} && ordering[j] in acts - {id} && acts[ordering[j]].rule == r && r !in except then Some(ordering[j]) else None
    {
      assert RuleEntry(index, r, j) ==
        if j in ordering && ordering[j] in acts && acts[ordering[j]].rule == r && r !in except then Some(ordering[j]) else None;
      if rule in index && r == rule && j != k { assert j in index[rule] <==> j in index[rule] - {k}; }
    }
  }

  // ----- the whole state -----

  /** The agenda's fields, with the ghost order of birth. */
  datatype Book = Book(strategy: Strategy, births: seq<ActivationId>, acts: Activations, ids: map<ActivationId, AgendaKey>,
                       ordering: Ordering, tokens: TokenIndex, rules: Option<RuleOrdering>, next: nat, nextId: ActivationId)

  ghost predicate Consistent(b: Book) {
    && BirthsOk(b.births, b.acts, b.next) && b.next <= U64_MAX
    && KeysOk(b.strategy, b.acts, b.ids, b.ordering)
    && TokensOk(b.births, b.acts, b.tokens)
    && RulesOk(b.rules, b.ordering, b.acts)
    && forall id :: id in b.acts ==> id < b.nextId
  }

  /** The agenda as one list, oldest first, without sequence numbers. */
  ghost function Chronicle(b: Book): seq<Activation>
    requires Consistent(b)
  {
    Erased(Live(b.births, b.acts))
  }

  lemma ConsistentFacts(b: Book)
    requires Consistent(b)
    ensures b.nextId !in b.acts && b.next <= U64_MAX && b.ids.Keys == b.acts.Keys
    ensures forall id :: id in b.births <==> id in b.acts
    ensures forall k :: k in b.ordering ==> b.ordering[k] in b.acts && b.ids[b.ordering[k]] == k
    ensures (b.ordering == map[]) == (b.births == [])
  {
    if b.births != [] { assert b.births[0] in b.acts && b.ids[b.births[0]] in b.ordering; }
    if b.ordering != map[] {
      assert b.ordering.Keys != {};
      var k :| k in b.ordering;
      assert b.ordering[k] in b.acts;
    }
  }

  function RuleInserted(rules: Option<RuleOrdering>, rule: RuleId, k: AgendaKey, id: ActivationId): Option<RuleOrdering> {
    if rules.None? then None
    else Some(rules.value[rule := (if rule in rules.value then rules.value[rule] else map[])[k := id]])
  }

  /** `a` joins as the youngest activation. */
  function Inserted(b: Book, a: Activation): Book {
    var stamped := a.(id := b.nextId, sequence := b.next);
    var k := BuildKey(b.strategy, stamped);
    b.(births := b.births + [stamped.id], acts := b.acts[stamped.id := stamped], ids := b.ids[stamped.id := k],
       ordering := b.ordering[k := stamped.id], tokens := b.tokens[a.token := TokenEntry(b.tokens, a.token) + [stamped.id]],
       rules := RuleInserted(b.rules, a.rule, k, stamped.id), next := b.next + 1, nextId := b.nextId + 1)
  }

  lemma InsertedConsistent(b: Book, a: Activation)
    requires Consistent(b) && b.next < U64_MAX
    ensures Consistent(Inserted(b, a)) && Chronicle(Inserted(b, a)) == Chronicle(b) + [Erase(a.(id := b.nextId))]
  {
    hide BirthsOk, KeysOk, TokensOk, ProjectsExcept, OrderOf;
    var stamped := a.(id := b.nextId, sequence := b.next);
    var k := BuildKey(b.strategy, stamped);
    BirthsAfterInsert(b.births, b.acts, b.next, stamped);
    KeysAfterInsert(b.strategy, b.births, b.acts, b.ids, b.ordering, b.next, stamped);
    TokensAfterInsert(b.births, b.acts, b.next, b.tokens, stamped);
    if b.rules.Some? { RulesAfterInsert(b.strategy, b.ids, b.rules.value, b.ordering, b.acts, stamped, k); }
  }

  /** The activation with this id leaves all five structures. */
  function Removed(b: Book, id: ActivationId): Book
    requires id in b.acts && id in b.ids
  {
    b.(births := Without(b.births, id), acts := b.acts - {id}, ids := b.ids - {id}, ordering := b.ordering - {b.ids[id]},
       tokens := TokenRemoved(b.tokens, b.acts[id].token, id),
       rules := if b.rules.None? then None else Some(RuleRemoved(b.rules.value, b.acts[id].rule, b.ids[id])))
  }

  lemma RemovedConsistent(b: Book, at: nat)
    requires Consistent(b) && at < |b.births|
    ensures b.births[at] in b.acts && b.births[at] in b.ids
    ensures Consistent(Removed(b, b.births[at]))
    ensures Chronicle(Removed(b, b.births[at])) == Chronicle(b)[..at] + Chronicle(b)[at + 1..]
  {
    hide BirthsOk, KeysOk, TokensOk, ProjectsExcept, TokenRemoved, RuleRemoved;
    ConsistentFacts(b);
    var id := b.births[at];
    assert id in b.births;
    BirthsAfterRemove(b.births, b.acts, b.next, at);
    BirthsAreLive(b.births, b.acts, b.next);
    LiveAfterRemove(b.births, b.acts, at);
    KeysAfterRemove(b.strategy, b.acts, b.ids, b.ordering, id);
    TokensAfterRemove(b.births, b.acts, b.tokens, id);
    if b.rules.Some? { RulesAfterRemove(b.strategy, b.ids, b.rules.value, b.ordering, b.acts, id, b.ids[id], {}); }
    ErasedParts(Live(b.births, b.acts), at);
  }

  lemma ErasedParts(live: seq<Activation>, at: nat)
    requires at < |live|
    ensures Erased(live[..at] + live[at + 1..]) == Erased(live)[..at] + Erased(live)[at + 1..]
  {
  }
}
