/** What index requests select, and that an indexed lookup misses no fact a join test would accept, whatever the split. */
module Indexing {
  import opened Syntax
  import opened Sequences
  import opened Network
  import opened WellFormed
  import opened Compile
  import opened Meaning
  import opened Evaluation
  import opened JoinMeaning
  import opened ConcreteWorlds
  import opened AlphaMemories
  import opened BetaMemories
  import opened Splits

  // ----- passing splits -----

  /** The splits that pass every test of the plan, in search order. */
  function PassingSplits(r: Runtime, plan: SequencePlan, fact: Fact, splits: seq<Fields>): seq<Fields> {
    if splits == [] then []
    else (if AllTests(r, plan.tests, slot => LogicalField(fact, splits[0], slot)) then [splits[0]] else [])
         + PassingSplits(r, plan, fact, splits[1..])
  }

  lemma {:induction false} PassingMembers(r: Runtime, plan: SequencePlan, fact: Fact, splits: seq<Fields>, s: Fields)
    ensures s in PassingSplits(r, plan, fact, splits) <==>
      s in splits && forall k :: 0 <= k < |plan.tests| ==> FieldTest(r, plan.tests[k], slot => LogicalField(fact, s, slot))
  {
    if splits != [] {
      assert splits == [splits[0]] + splits[1..];
      PassingMembers(r, plan, fact, splits[1..], s);
      AllTestsIsForall(r, plan.tests, slot => LogicalField(fact, splits[0], slot));
    }
  }

  /** How a fact reads under each passing split. */
  function SplitViews(r: Runtime, fact: Fact, plan: SequencePlan): seq<View> {
    var passing := PassingSplits(r, plan, fact, SplitsOf(plan, fact));
    seq(|passing|, i requires 0 <= i < |passing| => ((slot: SlotIndex) => LogicalField(fact, passing[i], slot)))
  }

  /** `s` is a projection of the fact that passes the plan's tests, and the view reads it. */
  ghost predicate ReadsSplit(r: Runtime, fact: Fact, plan: SequencePlan, view: View, s: Fields) {
    && s in SplitsOf(plan, fact) && IsProjection(plan.segments, fact, s)
    && (forall j :: 0 <= j < |plan.tests| ==> FieldTest(r, plan.tests[j], slot => LogicalField(fact, s, slot)))
    && forall slot :: view(slot) == LogicalField(fact, s, slot)
  }

  /** A view reads some projection of the fact that passes the plan's tests. */
  lemma ViewsAreProjections(r: Runtime, fact: Fact, plan: SequencePlan, k: nat)
    requires k < |SplitViews(r, fact, plan)|
    ensures exists s :: ReadsSplit(r, fact, plan, SplitViews(r, fact, plan)[k], s)
  {
    var splits := SplitsOf(plan, fact);
    var s := PassingSplits(r, plan, fact, splits)[k];
    PassingMembers(r, plan, fact, splits, s);
    SplitsAreProjections(plan.segments, fact, s);
    assert ReadsSplit(r, fact, plan, SplitViews(r, fact, plan)[k], s);
  }

  /** The world of concrete tests, concrete join comparisons and concrete splits. */
  function FullyConcrete(facts: map<FactId, Fact>, r: Runtime, condition: (RuleId, nat, seq<Choice>) -> bool): World {
    Concrete(facts, r, (fact, plan) => SplitViews(r, fact, plan), (test, a, b) => JoinCompare(r, test, a, b), condition)
  }

  /** In that world a compiled rule matches exactly what its conditions ask for, and equality is equality. */
  lemma CompiledMeansFully(e: Engine, cx: Context, conditions: seq<Condition>, salience: int, complexity: nat,
                           facts: map<FactId, Fact>, r: Runtime, condition: (RuleId, nat, seq<Choice>) -> bool, m: seq<Choice>)
    requires EngineWf(e, {}) && Accepted(conditions) && AllRegistered(conditions, cx.ids) && Injective(cx.ids)
    ensures var w, (e1, terminal) := FullyConcrete(facts, r, condition), CompileRule(e, cx, conditions, salience, complexity);
      && Coherent(w) && EqualityIsEquality(w) && terminal in e1.beta.nodes
      && (Denotes(w, e1, e1.beta.nodes[terminal].parent, m) <==> Holds(w, cx.rule, conditions, [], [], m))
  {
    var w := FullyConcrete(facts, r, condition);
    CompiledMeansConcretely(e, cx, conditions, salience, complexity, facts, r, (fact, plan) => SplitViews(r, fact, plan),
                            (test, a, b) => JoinCompare(r, test, a, b), condition, m);
    hide CompileRule, Denotes, Coherent;
    ConcreteEqualityIsEquality(w, r);
  }

  // ----- index requests -----

  /** The physical slot a join test's field has in every split, if any. */
  function Physical(sequence: Option<SequencePlan>, slot: SlotIndex): Option<SlotIndex> {
    if sequence.None? then Some(slot) else PhysicalSelector(sequence.value, slot)
  }

  predicate Selects(tests: seq<JoinTest>, sequence: Option<SequencePlan>, slot: SlotIndex, v: VarId, j: nat) {
    j < |tests| && tests[j].test == Plain(Eq) && tests[j].variable == v && Physical(sequence, tests[j].slot) == Some(slot)
  }

  /** What is indexed: the variables of exactly the equality tests on a field with a fixed physical slot, at that slot. */
  lemma {:induction false} IndexableAreEqualities(tests: seq<JoinTest>, sequence: Option<SequencePlan>, slot: SlotIndex, v: VarId)
    ensures (slot, v) in IndexableTests(tests, sequence) <==> exists j: nat :: Selects(tests, sequence, slot, v, j)
  {
    if tests != [] {
      IndexableAreEqualities(tests[1..], sequence, slot, v);
      if j: nat :| Selects(tests[1..], sequence, slot, v, j) { assert Selects(tests, sequence, slot, v, j + 1); }
      if j: nat :| Selects(tests, sequence, slot, v, j) {
        if j > 0 { assert Selects(tests[1..], sequence, slot, v, j - 1); }
      }
      assert Selects(tests, sequence, slot, v, 0) <==> (slot, v) in IndexableTests([tests[0]], sequence);
      assert [tests[0]][1..] == [];
    }
  }

  /** An ordered plan has fixed slots up to its first capture, a template plan at its scalar slots. */
  lemma OrderedSelectorsAreLeadingSingles(plan: SequencePlan, i: nat, slot: SlotIndex)
    requires plan.IsOrdered()
    ensures PhysicalSelector(plan, Ordered(i)) == Some(slot) <==>
      slot == Ordered(i) && i < |plan.segments[0].fields| && forall k :: 0 <= k <= i ==> plan.segments[0].fields[k] == Single
  {
  }

  lemma {:induction false} TemplateSelectorsAreScalars(segments: seq<Segment>, position: nat, slot: SlotIndex)
    ensures ScalarSelector(segments, position) == Some(slot) <==>
      exists j: nat, i: nat :: Covers(segments, position, j, i) && segments[j].source.TemplateScalar?
                               && slot == Template(segments[j].source.index)
  {
    if segments != [] {
      var here := |segments[0].fields|;
      if position < here {
        assert Covers(segments, position, 0, position);
        forall j: nat, i: nat | Covers(segments, position, j, i) ensures j == 0 {}
      } else {
        var left := position - here;
        TemplateSelectorsAreScalars(segments[1..], left, slot);
        if j: nat, i: nat :| Covers(segments[1..], left, j, i) && segments[1..][j].source.TemplateScalar?
                             && slot == Template(segments[1..][j].source.index) {
          assert Covers(segments, position, j + 1, i) && segments[j + 1] == segments[1..][j];
        }
        if j: nat, i: nat :| Covers(segments, position, j, i) && segments[j].source.TemplateScalar?
                             && slot == Template(segments[j].source.index) {
          assert j > 0 && Covers(segments[1..], left, j - 1, i) && segments[1..][j - 1] == segments[j];
        }
      }
    }
  }

  /** The field an indexed test reads is the physical field of the fact, under the fact's one view or any split. */
  lemma SelectorReadsFact(r: Runtime, fact: Fact, sequence: Option<SequencePlan>, view: View, slot: SlotIndex)
    requires sequence.Some? ==> PlanOk(sequence.value) && fact.entry.OrderedRelation? == sequence.value.IsOrdered()
    requires if sequence.None? then forall s :: view(s) == SlotValue(fact, s) else view in SplitViews(r, fact, sequence.value)
    requires Physical(sequence, slot).Some?
    ensures view(slot) == SlotValue(fact, Physical(sequence, slot).value)
  {
    if sequence.Some? {
      var plan := sequence.value;
      var k :| 0 <= k < |SplitViews(r, fact, plan)| && SplitViews(r, fact, plan)[k] == view;
      ViewsAreProjections(r, fact, plan, k);
      var s :| ReadsSplit(r, fact, plan, view, s);
      SelectorReadsLogicalField(plan, fact, s, slot);
    }
  }

  /** No lookup misses: a fact that passes an indexed equality test under some view is listed under the token's binding
      at the indexed slot, when the binding has a key. */
  lemma LookupFindsEveryMatch(w: World, r: Runtime, facts: seq<FactId>, records: map<FactId, Fact>, f: FactId, sequence: Option<SequencePlan>,
                              view: View, test: JoinTest, env: Env, found: seq<FactId>)
    requires EqualityIsEquality(w) && f in facts && f in records && test.test == Plain(Eq) && TestPasses(w, test, view, env)
    requires sequence.Some? ==> PlanOk(sequence.value) && records[f].entry.OrderedRelation? == sequence.value.IsOrdered()
    requires if sequence.None? then forall s :: view(s) == SlotValue(records[f], s) else view in SplitViews(r, records[f], sequence.value)
    requires Physical(sequence, test.slot).Some?
    requires ListsHolders(facts, records, Physical(sequence, test.slot).value, env[test.variable], found)
    ensures f in found
  {
    SelectorReadsFact(r, records[f], sequence, view, test.slot);
    SlotValueIsField(records[f], Physical(sequence, test.slot).value, env[test.variable]);
  }

  /** Nor from the other side: a token that passes an equality test is listed under the value the fact's view reads. */
  lemma LookupFindsEveryToken(w: World, tokens: seq<TokenId>, records: map<TokenId, Env>, t: TokenId, view: View, test: JoinTest,
                              found: seq<TokenId>)
    requires EqualityIsEquality(w) && t in tokens && t in records && test.test == Plain(Eq) && TestPasses(w, test, view, records[t])
    requires ListsBound(tokens, records, test.variable, view(test.slot).value, found)
    ensures t in found
  {
  }
}
