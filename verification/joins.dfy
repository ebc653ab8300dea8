/** What shared variables ask for, told by fields and comparisons: joins, negations, existentials and conjunctions
    over two patterns, and the agreement of all mentions of a variable in any rule. */
module JoinMeaning {
  import opened Syntax
  import opened Network
  import opened WellFormed
  import opened Compile
  import opened Meaning

  // ----- one pattern -----

  /** A pattern over whole facts that names variable `x` at one slot and binds nothing else. */
  predicate Binds(p: Pattern, slot: SlotIndex, x: Symbol) {
    p.sequence.None? && p.variableSlots == [(slot, x)] && p.negatedVariableSlots == []
  }

  /** A pattern over whole facts whose one mention of a variable compares: by name with equality, or by a test. */
  predicate Compares(q: Pattern, slot: SlotIndex, x: Symbol, test: JoinTestType) {
    q.sequence.None? && (
      || (q.variableSlots == [(slot, x)] && q.negatedVariableSlots == [] && test == Plain(Eq))
      || (q.variableSlots == [] && q.negatedVariableSlots == [(slot, x, test)]))
  }

  /** The fact is live, of the pattern's entry type, and passes its constant tests. */
  predicate Fits(w: World, p: Pattern, f: FactId) {
    f in w.facts && w.facts[f].entry == p.entry && forall k :: 0 <= k < |p.constantTests| ==> w.test(w.facts[f], p.constantTests[k])
  }

  /** Both fields exist and the second stands in the relation to the first. */
  ghost predicate FieldsRelate(w: World, test: JoinTestType, first: Fact, s: SlotIndex, second: Fact, t: SlotIndex) {
    exists u, v :: FieldIs(first, s, u) && FieldIs(second, t, v) && w.compare(test, v, u)
  }

  lemma RelatedIsFields(w: World, test: JoinTestType, first: Fact, s: SlotIndex, second: Fact, t: SlotIndex)
    ensures Related(w, test, SlotValue(second, t), SlotValue(first, s)) <==> FieldsRelate(w, test, first, s, second, t)
  {
    if Related(w, test, SlotValue(second, t), SlotValue(first, s)) {
      SlotValueIsField(first, s, SlotValue(first, s).value);
      SlotValueIsField(second, t, SlotValue(second, t).value);
    }
    if FieldsRelate(w, test, first, s, second, t) {
      var u, v :| FieldIs(first, s, u) && FieldIs(second, t, v) && w.compare(test, v, u);
      SlotValueIsField(first, s, u);
      SlotValueIsField(second, t, v);
    }
  }

  /** Taken first, such a pattern asks for nothing but a fitting fact. */
  lemma FirstFits(w: World, p: Pattern, s: SlotIndex, x: Symbol, c: Choice)
    requires Binds(p, s, x)
    ensures Satisfies(w, p, [], c) <==> c.Chosen? && c.split == 0 && Fits(w, p, c.fact)
  {
    assert forall y :: !Mentioned([], y);
  }

  function After(w: World, p: Pattern, f: FactId): Trail
    requires p.sequence.None? && f in w.facts
  {
    [(p, ViewOf(w, None, Chosen(f, 0)))]
  }

  lemma LookupAfter(w: World, p: Pattern, s: SlotIndex, x: Symbol, f: FactId)
    requires Binds(p, s, x) && f in w.facts
    ensures Mentioned(After(w, p, f), x) && Lookup(After(w, p, f), x) == SlotValue(w.facts[f], s)
  {
    assert p.variableSlots[0].1 == x;
    assert After(w, p, f)[0].0.Mentions(x);
  }

  /** After it, a pattern that mentions its variable asks for a fitting fact whose field relates to the first one's. */
  lemma SecondRelates(w: World, p: Pattern, s: SlotIndex, x: Symbol, f: FactId, q: Pattern, t: SlotIndex, test: JoinTestType, c: Choice)
    requires Binds(p, s, x) && Compares(q, t, x, test) && f in w.facts
    ensures Satisfies(w, q, After(w, p, f), c) <==>
      c.Chosen? && c.split == 0 && Fits(w, q, c.fact) && FieldsRelate(w, test, w.facts[f], s, w.facts[c.fact], t)
  {
    LookupAfter(w, p, s, x, f);
    if ViewExists(w, None, c) {
      var view := ViewOf(w, None, c);
      RelatedIsFields(w, test, w.facts[f], s, w.facts[c.fact], t);
      assert VariablesAgree(w, q, view, After(w, p, f)) <==> Related(w, test, view(t), Lookup(After(w, p, f), x)) by {
        if |q.variableSlots| == 1 { assert q.variableSlots[0] == (t, x); } else { assert q.negatedVariableSlots[0] == (t, x, test); }
      }
    }
  }

  // ----- two patterns -----

  /** `g` fits the second pattern and its field relates to that of `f`. */
  ghost predicate Partner(w: World, s: SlotIndex, f: FactId, q: Pattern, t: SlotIndex, test: JoinTestType, g: FactId)
    requires f in w.facts
  {
    Fits(w, q, g) && FieldsRelate(w, test, w.facts[f], s, w.facts[g], t)
  }

  lemma HoldsAfterFirst(w: World, rule: RuleId, p: Pattern, s: SlotIndex, x: Symbol, c: Condition, f: FactId, second: Choice)
    requires Binds(p, s, x) && p.Positive()
    ensures Holds(w, rule, [PatternCE(p), c], [], [], [Chosen(f, 0), second]) <==>
      Fits(w, p, f) && HoldsOne(w, rule, c, [Chosen(f, 0)], After(w, p, f), second)
  {
    var conditions, m := [PatternCE(p), c], [Chosen(f, 0), second];
    assert conditions[1..] == [c] && [c][1..] == [] && m[1..] == [second] && [second][1..] == [];
    assert [] + [Chosen(f, 0)] == [Chosen(f, 0)];
    FirstFits(w, p, s, x, Chosen(f, 0));
    if Fits(w, p, f) {
      assert Extended(w, PatternCE(p), [], Chosen(f, 0)) == After(w, p, f);
      assert Holds(w, rule, [c], [Chosen(f, 0)], After(w, p, f), [second]) <==>
        HoldsOne(w, rule, c, [Chosen(f, 0)], After(w, p, f), second);
    }
  }

  /** A join: the tuples are the pairs of fitting facts whose fields relate. */
  lemma PairsHold(w: World, rule: RuleId, p: Pattern, s: SlotIndex, x: Symbol, q: Pattern, t: SlotIndex, test: JoinTestType, f: FactId, g: FactId)
    requires Binds(p, s, x) && p.Positive() && Compares(q, t, x, test) && q.Positive()
    ensures Holds(w, rule, [PatternCE(p), PatternCE(q)], [], [], [Chosen(f, 0), Chosen(g, 0)]) <==>
      Fits(w, p, f) && Partner(w, s, f, q, t, test, g)
  {
    HoldsAfterFirst(w, rule, p, s, x, PatternCE(q), f, Chosen(g, 0));
    if Fits(w, p, f) { SecondRelates(w, p, s, x, f, q, t, test, Chosen(g, 0)); }
  }

  /** A negation or an existential: whether a partner exists. */
  lemma PartnerlessHold(w: World, rule: RuleId, p: Pattern, s: SlotIndex, x: Symbol, q: Pattern, t: SlotIndex, test: JoinTestType, f: FactId)
    requires Binds(p, s, x) && p.Positive() && Compares(q, t, x, test) && !q.Positive()
    ensures Holds(w, rule, [PatternCE(p), PatternCE(q)], [], [], [Chosen(f, 0), Absent]) <==>
      Fits(w, p, f) && (q.negated <==> !exists g :: Partner(w, s, f, q, t, test, g))
  {
    HoldsAfterFirst(w, rule, p, s, x, PatternCE(q), f, Absent);
    if Fits(w, p, f) {
      forall c ensures Satisfies(w, q, After(w, p, f), c) <==> c.Chosen? && c.split == 0 && Partner(w, s, f, q, t, test, c.fact) {
        SecondRelates(w, p, s, x, f, q, t, test, c);
      }
      if g :| Partner(w, s, f, q, t, test, g) { assert Satisfies(w, q, After(w, p, f), Chosen(g, 0)); }
    }
  }

  /** A conjunction under `not`: no pair of partners, where the second pattern inside mentions the outer variable. */
  lemma PairlessHold(w: World, rule: RuleId, p: Pattern, s: SlotIndex, x: Symbol, q: Pattern, t: SlotIndex, test: JoinTestType,
                     r: Pattern, u: SlotIndex, other: JoinTestType, f: FactId)
    requires Binds(p, s, x) && p.Positive() && Compares(q, t, x, test) && q.Positive() && Compares(r, u, x, other) && r.Positive()
    ensures Holds(w, rule, [PatternCE(p), NccCE([PatternCE(q), PatternCE(r)])], [], [], [Chosen(f, 0), Absent]) <==>
      Fits(w, p, f) && !exists g, h :: Partner(w, s, f, q, t, test, g) && Partner(w, s, f, r, u, other, h)
  {
    HoldsAfterFirst(w, rule, p, s, x, NccCE([PatternCE(q), PatternCE(r)]), f, Absent);
    if Fits(w, p, f) {
      var before := [Chosen(f, 0)];
      forall m: seq<Choice> | StartsWith(m, before) && Holds(w, rule, [PatternCE(q), PatternCE(r)], before, After(w, p, f), m[1..])
        ensures exists g, h :: Partner(w, s, f, q, t, test, g) && Partner(w, s, f, r, u, other, h)
      {
        InnerPair(w, rule, p, s, x, q, t, test, r, u, other, f, m[1..]);
        assert Partner(w, s, f, q, t, test, m[1..][0].fact) && Partner(w, s, f, r, u, other, m[1..][1].fact);
      }
      if g, h :| Partner(w, s, f, q, t, test, g) && Partner(w, s, f, r, u, other, h) {
        var m := before + [Chosen(g, 0), Chosen(h, 0)];
        assert m[1..] == [Chosen(g, 0), Chosen(h, 0)] && StartsWith(m, before);
        InnerPair(w, rule, p, s, x, q, t, test, r, u, other, f, m[1..]);
      }
    }
  }

  lemma InnerPair(w: World, rule: RuleId, p: Pattern, s: SlotIndex, x: Symbol, q: Pattern, t: SlotIndex, test: JoinTestType,
                  r: Pattern, u: SlotIndex, other: JoinTestType, f: FactId, m: seq<Choice>)
    requires Binds(p, s, x) && Compares(q, t, x, test) && q.Positive() && Compares(r, u, x, other) && r.Positive() && f in w.facts
    ensures Holds(w, rule, [PatternCE(q), PatternCE(r)], [Chosen(f, 0)], After(w, p, f), m) <==>
      && |m| == 2 && m[0].Chosen? && m[0].split == 0 && m[1].Chosen? && m[1].split == 0
      && Partner(w, s, f, q, t, test, m[0].fact) && Partner(w, s, f, r, u, other, m[1].fact)
  {
    var conditions := [PatternCE(q), PatternCE(r)];
    assert conditions[1..] == [PatternCE(r)] && [PatternCE(r)][1..] == [];
    if m != [] {
      SecondRelates(w, p, s, x, f, q, t, test, m[0]);
      if m[0].Chosen? && m[0].split == 0 && Fits(w, q, m[0].fact) {
        var trail := After(w, p, f) + [(q, ViewOf(w, None, m[0]))];
        assert Extended(w, PatternCE(q), After(w, p, f), m[0]) == trail;
        if |m| >= 2 {
          ThirdRelates(w, p, s, x, f, q, m[0], r, u, other, m[1]);
          assert m[1..][0] == m[1];
        }
        OneHolds(w, rule, r, [Chosen(f, 0)] + [m[0]], trail, m[1..]);
      }
    }
  }

  lemma OneHolds(w: World, rule: RuleId, r: Pattern, before: seq<Choice>, trail: Trail, rest: seq<Choice>)
    requires r.Positive()
    ensures Holds(w, rule, [PatternCE(r)], before, trail, rest) <==> |rest| == 1 && Satisfies(w, r, trail, rest[0])
  {
    assert [PatternCE(r)][1..] == [];
  }

  /** What is bound first stays bound: later patterns add nothing to its value. */
  lemma ThirdRelates(w: World, p: Pattern, s: SlotIndex, x: Symbol, f: FactId, q: Pattern, d: Choice, r: Pattern, u: SlotIndex,
                     other: JoinTestType, c: Choice)
    requires Binds(p, s, x) && q.sequence.None? && Compares(r, u, x, other) && f in w.facts && ViewExists(w, None, d)
    ensures Satisfies(w, r, After(w, p, f) + [(q, ViewOf(w, None, d))], c) <==>
      c.Chosen? && c.split == 0 && Fits(w, r, c.fact) && FieldsRelate(w, other, w.facts[f], s, w.facts[c.fact], u)
  {
    var trail := After(w, p, f) + [(q, ViewOf(w, None, d))];
    LookupAfter(w, p, s, x, f);
    LookupSnoc(After(w, p, f), q, ViewOf(w, None, d), x);
    if ViewExists(w, None, c) {
      var view := ViewOf(w, None, c);
      RelatedIsFields(w, other, w.facts[f], s, w.facts[c.fact], u);
      assert VariablesAgree(w, r, view, trail) <==> Related(w, other, view(u), Lookup(trail, x)) by {
        if |r.variableSlots| == 1 { assert r.variableSlots[0] == (u, x); } else { assert r.negatedVariableSlots[0] == (u, x, other); }
      }
    }
  }

  // ----- what compiled rules match -----

  /** A compiled join of two patterns on a variable matches exactly the pairs of fitting facts whose fields relate;
      named twice, the variable asks for the equality comparison. */
  lemma CompiledJoin(e: Engine, cx: Context, p: Pattern, s: SlotIndex, x: Symbol, q: Pattern, t: SlotIndex, test: JoinTestType,
                     salience: int, complexity: nat, w: World, f: FactId, g: FactId)
    requires Binds(p, s, x) && p.Positive() && Compares(q, t, x, test) && q.Positive()
    requires Compilable(e, cx, [PatternCE(p), PatternCE(q)], w)
    ensures var (e1, terminal) := CompileRule(e, cx, [PatternCE(p), PatternCE(q)], salience, complexity);
      && terminal in e1.beta.nodes
      && (Denotes(w, e1, e1.beta.nodes[terminal].parent, [Chosen(f, 0), Chosen(g, 0)]) <==>
            Fits(w, p, f) && Fits(w, q, g) && FieldsRelate(w, test, w.facts[f], s, w.facts[g], t))
  {
    CompilationPreservesMeaning(e, cx, [PatternCE(p), PatternCE(q)], salience, complexity, w, [Chosen(f, 0), Chosen(g, 0)]);
    PairsHold(w, cx.rule, p, s, x, q, t, test, f, g);
  }

  /** With a negated second pattern the rule matches the fitting facts without such a partner, with an existential
      one those with a partner. */
  lemma CompiledNegation(e: Engine, cx: Context, p: Pattern, s: SlotIndex, x: Symbol, q: Pattern, t: SlotIndex, test: JoinTestType,
                         salience: int, complexity: nat, w: World, f: FactId)
    requires Binds(p, s, x) && p.Positive() && Compares(q, t, x, test) && !q.Positive()
    requires Compilable(e, cx, [PatternCE(p), PatternCE(q)], w)
    ensures var (e1, terminal) := CompileRule(e, cx, [PatternCE(p), PatternCE(q)], salience, complexity);
      && terminal in e1.beta.nodes
      && (Denotes(w, e1, e1.beta.nodes[terminal].parent, [Chosen(f, 0), Absent]) <==>
            Fits(w, p, f) && (q.negated <==> !exists g :: Partner(w, s, f, q, t, test, g)))
  {
    CompilationPreservesMeaning(e, cx, [PatternCE(p), PatternCE(q)], salience, complexity, w, [Chosen(f, 0), Absent]);
    PartnerlessHold(w, cx.rule, p, s, x, q, t, test, f);
  }

  /** With a negated conjunction of two patterns it matches the fitting facts without a pair of partners. */
  lemma CompiledConjunction(e: Engine, cx: Context, p: Pattern, s: SlotIndex, x: Symbol, q: Pattern, t: SlotIndex, test: JoinTestType,
                            r: Pattern, u: SlotIndex, other: JoinTestType, salience: int, complexity: nat, w: World, f: FactId)
    requires Binds(p, s, x) && p.Positive() && Compares(q, t, x, test) && q.Positive() && Compares(r, u, x, other) && r.Positive()
    requires Compilable(e, cx, [PatternCE(p), NccCE([PatternCE(q), PatternCE(r)])], w)
    ensures var (e1, terminal) := CompileRule(e, cx, [PatternCE(p), NccCE([PatternCE(q), PatternCE(r)])], salience, complexity);
      && terminal in e1.beta.nodes
      && (Denotes(w, e1, e1.beta.nodes[terminal].parent, [Chosen(f, 0), Absent]) <==>
            Fits(w, p, f) && !exists g, h :: Partner(w, s, f, q, t, test, g) && Partner(w, s, f, r, u, other, h))
  {
    CompilationPreservesMeaning(e, cx, [PatternCE(p), NccCE([PatternCE(q), PatternCE(r)])], salience, complexity, w, [Chosen(f, 0), Absent]);
    PairlessHold(w, cx.rule, p, s, x, q, t, test, r, u, other, f);
  }

  /** A predicate condition after a pattern is asked of the rule's own id, its own index and the facts chosen so far. */
  lemma CompiledPredicate(e: Engine, cx: Context, p: Pattern, s: SlotIndex, x: Symbol, index: nat, salience: int, complexity: nat,
                          w: World, f: FactId)
    requires Binds(p, s, x) && p.Positive() && Compilable(e, cx, [PatternCE(p), PredicateCE(index)], w)
    ensures var (e1, terminal) := CompileRule(e, cx, [PatternCE(p), PredicateCE(index)], salience, complexity);
      && terminal in e1.beta.nodes
      && (Denotes(w, e1, e1.beta.nodes[terminal].parent, [Chosen(f, 0), Absent]) <==>
            Fits(w, p, f) && w.condition(cx.rule, index, [Chosen(f, 0)]))
  {
    CompilationPreservesMeaning(e, cx, [PatternCE(p), PredicateCE(index)], salience, complexity, w, [Chosen(f, 0), Absent]);
    HoldsAfterFirst(w, cx.rule, p, s, x, PredicateCE(index), f, Absent);
  }

  /** A pattern with a sequence plan matches a fitting fact once for each of its splits. */
  lemma CompiledSequence(e: Engine, cx: Context, p: Pattern, salience: int, complexity: nat, w: World, f: FactId, k: nat)
    requires p.Positive() && p.sequence.Some? && p.variableSlots == [] && p.negatedVariableSlots == []
    requires Compilable(e, cx, [PatternCE(p)], w)
    ensures var (e1, terminal) := CompileRule(e, cx, [PatternCE(p)], salience, complexity);
      && terminal in e1.beta.nodes
      && (Denotes(w, e1, e1.beta.nodes[terminal].parent, [Chosen(f, k)]) <==>
            Fits(w, p, f) && k < |w.splits(w.facts[f], p.sequence.value)|)
  {
    CompilationPreservesMeaning(e, cx, [PatternCE(p)], salience, complexity, w, [Chosen(f, k)]);
    OneHolds(w, cx.rule, p, [], [], [Chosen(f, k)]);
  }

  /** What the meaning theorems ask of an engine, a rule and a world. */
  ghost predicate Compilable(e: Engine, cx: Context, conditions: seq<Condition>, w: World) {
    EngineWf(e, {}) && Accepted(conditions) && AllRegistered(conditions, cx.ids) && Injective(cx.ids) && Coherent(w)
  }

  // ----- all mentions of a variable -----

  /** Equality comparisons admit equal values only. */
  ghost predicate EqualityIsEquality(w: World) {
    forall a, b :: w.compare(Plain(Eq), a, b) ==> a == b
  }

  /** Condition `i` is a positive pattern whose mention `a` names variable `x`. */
  predicate MentionsAt(conditions: seq<Condition>, i: nat, a: nat, x: Symbol) {
    && i < |conditions| && conditions[i].PatternCE? && conditions[i].pattern.Positive()
    && a < |conditions[i].pattern.variableSlots| && conditions[i].pattern.variableSlots[a].1 == x
  }

  /** The value the choice gives that mention. */
  function MentionValue(w: World, p: Pattern, a: nat, c: Choice): Option<Value>
    requires a < |p.variableSlots|
  {
    if ViewExists(w, p.sequence, c) then ViewOf(w, p.sequence, c)(p.variableSlots[a].0) else None
  }

  lemma ExtendedKeepsLookup(w: World, c: Condition, trail: Trail, choice: Choice, x: Symbol)
    requires Mentioned(trail, x)
    ensures Mentioned(Extended(w, c, trail, choice), x) && Lookup(Extended(w, c, trail, choice), x) == Lookup(trail, x)
  {
    if c.PatternCE? && c.pattern.Positive() && ViewExists(w, c.pattern.sequence, choice) {
      LookupSnoc(trail, c.pattern, ViewOf(w, c.pattern.sequence, choice), x);
    }
  }

  /** Every later mention of a bound variable has the value the variable was bound to. */
  lemma {:induction false} LaterMention(w: World, rule: RuleId, conditions: seq<Condition>, before: seq<Choice>, trail: Trail, m: seq<Choice>,
                                        j: nat, b: nat, x: Symbol)
    requires EqualityIsEquality(w) && Holds(w, rule, conditions, before, trail, m) && MentionsAt(conditions, j, b, x) && Mentioned(trail, x)
    ensures j < |m| && Lookup(trail, x).Some? && MentionValue(w, conditions[j].pattern, b, m[j]) == Lookup(trail, x)
    decreases j
  {
    if j == 0 {
      assert Satisfies(w, conditions[0].pattern, trail, m[0]);
    } else {
      ExtendedKeepsLookup(w, conditions[0], trail, m[0], x);
      LaterMention(w, rule, conditions[1..], before + [m[0]], Extended(w, conditions[0], trail, m[0]), m[1..], j - 1, b, x);
    }
  }

  /** In every tuple that satisfies a rule all positive mentions of a variable exist and have one value. */
  lemma {:induction false} MentionsAgree(w: World, rule: RuleId, conditions: seq<Condition>, before: seq<Choice>, trail: Trail, m: seq<Choice>,
                                         i: nat, a: nat, j: nat, b: nat, x: Symbol)
    requires EqualityIsEquality(w) && Holds(w, rule, conditions, before, trail, m) && WellStructured(conditions, false)
    requires i < j && MentionsAt(conditions, i, a, x) && MentionsAt(conditions, j, b, x)
    ensures i < |m| && j < |m|
    ensures MentionValue(w, conditions[i].pattern, a, m[i]).Some?
    ensures MentionValue(w, conditions[j].pattern, b, m[j]) == MentionValue(w, conditions[i].pattern, a, m[i])
    decreases i
  {
    var c, rest, next := conditions[0], conditions[1..], Extended(w, conditions[0], trail, m[0]);
    if i > 0 {
      MentionsAgree(w, rule, rest, before + [m[0]], next, m[1..], i - 1, a, j - 1, b, x);
    } else {
      var view := ViewOf(w, c.pattern.sequence, m[0]);
      LookupSnoc(trail, c.pattern, view, x);
      assert c.pattern.Mentions(x);
      if Mentioned(trail, x) { LaterMention(w, rule, conditions, before, trail, m, 0, a, x); }
      LaterMention(w, rule, rest, before + [m[0]], next, m[1..], j - 1, b, x);
    }
  }

  /** So it is for every tuple a compiled rule matches. */
  lemma CompiledMentionsAgree(e: Engine, cx: Context, conditions: seq<Condition>, salience: int, complexity: nat, w: World, m: seq<Choice>,
                              i: nat, a: nat, j: nat, b: nat, x: Symbol)
    requires Compilable(e, cx, conditions, w) && EqualityIsEquality(w)
    requires i < j && MentionsAt(conditions, i, a, x) && MentionsAt(conditions, j, b, x)
    ensures var (e1, terminal) := CompileRule(e, cx, conditions, salience, complexity);
      && terminal in e1.beta.nodes
      && (Denotes(w, e1, e1.beta.nodes[terminal].parent, m) ==>
            && i < |m| && j < |m| && MentionValue(w, conditions[i].pattern, a, m[i]).Some?
            && MentionValue(w, conditions[j].pattern, b, m[j]) == MentionValue(w, conditions[i].pattern, a, m[i]))
  {
    CompilationPreservesMeaning(e, cx, conditions, salience, complexity, w, m);
    if Holds(w, cx.rule, conditions, [], [], m) { MentionsAgree(w, cx.rule, conditions, [], [], m, i, a, j, b, x); }
  }
}
