/** The meaning theorems over concrete tests: what a compiled rule matches when facts are tested by `Evaluate`. */
module ConcreteWorlds {
  import opened Syntax
  import opened Network
  import opened WellFormed
  import opened Compile
  import opened Meaning
  import opened Evaluation
  import opened JoinMeaning

  /** The world's constant tests are the concrete ones. */
  ghost predicate TestsWith(w: World, r: Runtime) {
    forall fact, test :: w.test(fact, test) <==> Evaluate(r, test, fact)
  }

  /** Over concrete tests a world is coherent exactly when the runtime admits every fact that splits. */
  lemma ConcreteIsCoherent(w: World, r: Runtime)
    requires TestsWith(w, r)
    ensures Coherent(w) <==> forall fact, plan :: |w.splits(fact, plan)| > 0 ==> r.admits(fact, plan)
  {
    forall fact, plan ensures w.test(fact, ConstantTest(Ordered(0), Sequence(plan))) <==> r.admits(fact, plan) {
      assert Evaluate(r, ConstantTest(Ordered(0), Sequence(plan)), fact) <==> r.admits(fact, plan);
    }
  }

  /** The runtime whose sequence test asks for a split. */
  function Admitting(r: Runtime, splits: (Fact, SequencePlan) -> seq<View>): Runtime {
    r.(admits := (fact, plan) => |splits(fact, plan)| > 0)
  }

  /** A world built from a runtime's tests and the splits its sequence test asks for. */
  function Concrete(facts: map<FactId, Fact>, r: Runtime, splits: (Fact, SequencePlan) -> seq<View>,
                    compare: (JoinTestType, Value, Value) -> bool, condition: (RuleId, nat, seq<Choice>) -> bool): World
  {
    var admitting := Admitting(r, splits);
    World(facts, (fact, test) => Evaluate(admitting, test, fact), splits, compare, condition)
  }

  /** Over any facts, splits and evaluators, a compiled rule matches what its conditions ask for when the constant
      tests are evaluated concretely: nothing is left to assume about the world. */
  lemma CompiledMeansConcretely(e: Engine, cx: Context, conditions: seq<Condition>, salience: int, complexity: nat,
                                facts: map<FactId, Fact>, r: Runtime, splits: (Fact, SequencePlan) -> seq<View>,
                                compare: (JoinTestType, Value, Value) -> bool, condition: (RuleId, nat, seq<Choice>) -> bool, m: seq<Choice>)
    requires EngineWf(e, {}) && Accepted(conditions) && AllRegistered(conditions, cx.ids) && Injective(cx.ids)
    ensures var w, (e1, terminal) := Concrete(facts, r, splits, compare, condition), CompileRule(e, cx, conditions, salience, complexity);
      && Coherent(w) && terminal in e1.beta.nodes
      && (Denotes(w, e1, e1.beta.nodes[terminal].parent, m) <==> Holds(w, cx.rule, conditions, [], [], m))
  {
    var w := Concrete(facts, r, splits, compare, condition);
    ConcreteIsCoherent(w, Admitting(r, splits));
    CompilationPreservesMeaning(e, cx, conditions, salience, complexity, w, m);
  }

  /** A pattern that asks for nothing but its entry type and its constant tests. */
  predicate TestsOnly(p: Pattern) {
    p.Positive() && p.sequence.None? && p.variableSlots == [] && p.negatedVariableSlots == []
  }

  /** A rule of one such pattern fires for exactly the facts of its entry type that pass every test. */
  lemma TestsDecideMatches(e: Engine, cx: Context, p: Pattern, salience: int, complexity: nat, w: World, r: Runtime, f: FactId)
    requires EngineWf(e, {}) && Accepted([PatternCE(p)]) && AllRegistered([PatternCE(p)], cx.ids) && Injective(cx.ids)
    requires TestsWith(w, r) && Coherent(w) && TestsOnly(p)
    ensures var (e1, terminal) := CompileRule(e, cx, [PatternCE(p)], salience, complexity);
      && terminal in e1.beta.nodes
      && (Denotes(w, e1, e1.beta.nodes[terminal].parent, [Chosen(f, 0)]) <==>
            f in w.facts && w.facts[f].entry == p.entry
            && forall k :: 0 <= k < |p.constantTests| ==> Evaluate(r, p.constantTests[k], w.facts[f]))
  {
    CompilationPreservesMeaning(e, cx, [PatternCE(p)], salience, complexity, w, [Chosen(f, 0)]);
    OneChoiceHolds(w, cx.rule, p, Chosen(f, 0));
  }

  lemma OneChoiceHolds(w: World, rule: RuleId, p: Pattern, c: Choice)
    requires TestsOnly(p)
    ensures Holds(w, rule, [PatternCE(p)], [], [], [c]) <==> Satisfies(w, p, [], c)
  {
    assert [PatternCE(p)][1..] == [] && [c][1..] == [];
  }

  /** The pattern `(relation ?slot&:(>= ?slot lo)&:(< ?slot hi))`, told by constant tests. */
  function RangePattern(entry: EntryType, slot: SlotIndex, lo: int, hi: int): Pattern {
    Pattern(entry, [ConstantTest(slot, Key(Ge, Integer(lo))), ConstantTest(slot, Key(Lt, Integer(hi)))], None, [], [], false, false)
  }

  lemma RangeAccepted(entry: EntryType, slot: SlotIndex, lo: int, hi: int)
    ensures Accepted([PatternCE(RangePattern(entry, slot, lo, hi))])
    ensures forall ids: VarIds :: AllRegistered([PatternCE(RangePattern(entry, slot, lo, hi))], ids)
  {
    var tests, none: seq<ConstantTest> := RangePattern(entry, slot, lo, hi).constantTests, [];
    var low, high := tests[0], tests[1];
    assert tests[1..] == [high] && [high][1..] == none;
    assert SingleTestCount(low) == 1 && SingleTestCount(high) == 1 && TestCount(none) == 0;
    assert TestAllowed(low, false) && TestAllowed(high, false) && NestingAllowed(none, false);
    assert TestCount([high]) == 1 && FieldCountTests([high]) == 0 && NestingAllowed([high], false);
    assert TestCount(tests) == 2 && FieldCountTests(tests) == 0 && NestingAllowed(tests, false);
    var c, rest: seq<Condition> := PatternCE(RangePattern(entry, slot, lo, hi)), [];
    assert [c][1..] == rest;
    assert TestsOkIn(c) && TestsOk(rest) && WellStructuredIn(c, false) && WellStructured(rest, false);
    assert ConditionCount(rest) == 0 && ConditionCount([c]) == 1;
    forall ids: VarIds ensures AllRegistered([c], ids) { assert RegisteredIn(c, ids) && AllRegistered(rest, ids); }
  }

  /** Down to numbers: the rule of a range pattern fires for an integer field exactly when it lies in the range. */
  lemma RangeRuleMatchesRange(e: Engine, cx: Context, entry: EntryType, slot: SlotIndex, lo: int, hi: int, salience: int, complexity: nat,
                              w: World, r: Runtime, f: FactId, value: int)
    requires EngineWf(e, {}) && Injective(cx.ids) && TestsWith(w, r) && Coherent(w)
    requires f in w.facts && w.facts[f].entry == entry && SlotValue(w.facts[f], slot) == Some(Integer(value))
    ensures var p := RangePattern(entry, slot, lo, hi);
      && AllRegistered([PatternCE(p)], cx.ids)
      && var (e1, terminal) := CompileRule(e, cx, [PatternCE(p)], salience, complexity);
         && terminal in e1.beta.nodes
         && (Denotes(w, e1, e1.beta.nodes[terminal].parent, [Chosen(f, 0)]) <==> lo <= value < hi)
  {
    var p := RangePattern(entry, slot, lo, hi);
    RangeAccepted(entry, slot, lo, hi);
    TestsDecideMatches(e, cx, p, salience, complexity, w, r, f);
    hide CompileRule, Accepted, AllRegistered, EngineWf, Denotes, Coherent, TestsWith;
    var field := s => SlotValue(w.facts[f], s);
    assert p.constantTests == [ConstantTest(slot, Key(Ge, Integer(lo))), ConstantTest(slot, Key(Lt, Integer(hi)))];
    assert Evaluate(r, p.constantTests[0], w.facts[f]) <==> lo <= value;
    assert Evaluate(r, p.constantTests[1], w.facts[f]) <==> value < hi;
    IntegerTests(r, slot, value, lo, Ge, field);
    IntegerTests(r, slot, value, hi, Lt, field);
  }

  /** One test for a key. */
  function KeyPattern(entry: EntryType, slot: SlotIndex, key: Value): Pattern {
    Pattern(entry, [ConstantTest(slot, Key(Eq, key))], None, [], [], false, false)
  }

  lemma KeyAccepted(entry: EntryType, slot: SlotIndex, key: Value)
    ensures Accepted([PatternCE(KeyPattern(entry, slot, key))])
    ensures forall ids: VarIds :: AllRegistered([PatternCE(KeyPattern(entry, slot, key))], ids)
  {
    var tests, none: seq<ConstantTest> := KeyPattern(entry, slot, key).constantTests, [];
    assert tests[1..] == none;
    assert SingleTestCount(tests[0]) == 1 && TestCount(none) == 0;
    assert TestAllowed(tests[0], false) && NestingAllowed(none, false);
    assert TestCount(tests) == 1 && FieldCountTests(tests) == 0 && NestingAllowed(tests, false);
    var c, rest: seq<Condition> := PatternCE(KeyPattern(entry, slot, key)), [];
    assert [c][1..] == rest;
    assert TestsOkIn(c) && TestsOk(rest) && WellStructuredIn(c, false) && WellStructured(rest, false);
    assert ConditionCount(rest) == 0 && ConditionCount([c]) == 1;
    forall ids: VarIds ensures AllRegistered([c], ids) { assert RegisteredIn(c, ids) && AllRegistered(rest, ids); }
  }

  /** The rule of a pattern that tests one slot for an atomic key fires for exactly the live facts of its entry type
      that hold that key there. */
  lemma KeyRuleMatchesKey(e: Engine, cx: Context, entry: EntryType, slot: SlotIndex, key: Value, salience: int, complexity: nat,
                          w: World, r: Runtime, f: FactId)
    requires EngineWf(e, {}) && Injective(cx.ids) && TestsWith(w, r) && Coherent(w) && Atomic(key)
    ensures var p := KeyPattern(entry, slot, key);
      && AllRegistered([PatternCE(p)], cx.ids)
      && var (e1, terminal) := CompileRule(e, cx, [PatternCE(p)], salience, complexity);
         && terminal in e1.beta.nodes
         && (Denotes(w, e1, e1.beta.nodes[terminal].parent, [Chosen(f, 0)]) <==>
               f in w.facts && w.facts[f].entry == entry && FieldIs(w.facts[f], slot, key))
  {
    var p := KeyPattern(entry, slot, key);
    KeyAccepted(entry, slot, key);
    TestsDecideMatches(e, cx, p, salience, complexity, w, r, f);
    hide CompileRule, Accepted, AllRegistered, EngineWf, Denotes, Coherent, TestsWith;
    assert p.constantTests == [ConstantTest(slot, Key(Eq, key))];
    if f in w.facts {
      KeyTests(r, slot, key, w.facts[f]);
      assert Evaluate(r, p.constantTests[0], w.facts[f]) <==> FieldIs(w.facts[f], slot, key);
    }
  }

  // ----- concrete joins -----

  /** The world's join comparisons are the concrete ones. */
  ghost predicate ComparesWith(w: World, r: Runtime) {
    forall test, a, b :: w.compare(test, a, b) <==> JoinCompare(r, test, a, b)
  }

  lemma ConcreteEqualityIsEquality(w: World, r: Runtime)
    requires ComparesWith(w, r)
    ensures EqualityIsEquality(w)
  {
    forall a, b | w.compare(Plain(Eq), a, b) ensures a == b { JoinEqualityTests(r, a, b); }
  }

  /** A rule that names one variable in two patterns matches exactly the pairs of fitting facts that hold the same value,
      other than void, in the two slots. */
  lemma SharedVariableJoins(e: Engine, cx: Context, p: Pattern, s: SlotIndex, x: Symbol, q: Pattern, t: SlotIndex,
                            salience: int, complexity: nat, w: World, r: Runtime, f: FactId, g: FactId)
    requires Binds(p, s, x) && p.Positive() && Binds(q, t, x) && q.Positive()
    requires Compilable(e, cx, [PatternCE(p), PatternCE(q)], w) && ComparesWith(w, r)
    ensures var (e1, terminal) := CompileRule(e, cx, [PatternCE(p), PatternCE(q)], salience, complexity);
      && terminal in e1.beta.nodes
      && (Denotes(w, e1, e1.beta.nodes[terminal].parent, [Chosen(f, 0), Chosen(g, 0)]) <==>
            Fits(w, p, f) && Fits(w, q, g) && exists v :: FieldIs(w.facts[f], s, v) && FieldIs(w.facts[g], t, v) && !v.Void?)
  {
    CompiledJoin(e, cx, p, s, x, q, t, Plain(Eq), salience, complexity, w, f, g);
    hide CompileRule, Compilable, Denotes;
    if Fits(w, p, f) && Fits(w, q, g) { EqualFields(w, r, w.facts[f], s, w.facts[g], t); }
  }

  lemma EqualFields(w: World, r: Runtime, first: Fact, s: SlotIndex, second: Fact, t: SlotIndex)
    requires ComparesWith(w, r)
    ensures FieldsRelate(w, Plain(Eq), first, s, second, t) <==> exists v :: FieldIs(first, s, v) && FieldIs(second, t, v) && !v.Void?
  {
    if FieldsRelate(w, Plain(Eq), first, s, second, t) {
      var u, v :| FieldIs(first, s, u) && FieldIs(second, t, v) && w.compare(Plain(Eq), v, u);
      JoinEqualityTests(r, v, u);
    }
    if v :| FieldIs(first, s, v) && FieldIs(second, t, v) && !v.Void? { JoinEqualityTests(r, v, v); }
  }
}
