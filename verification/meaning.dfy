/** What a compiled node matches, what the conditions of a rule ask for, and that the two agree. */
module Meaning {
  import opened Syntax
  import opened Sequences
  import opened Network
  import opened WellFormed
  import opened Compile

  /** How a fact's fields read under one positional split; a fact without a plan has one view. */
  type View = SlotIndex -> Option<Value>

  /** What matching depends on besides the graph: the live facts and the runtime's evaluators. */
  datatype World = World(
    facts: map<FactId, Fact>,
    test: (Fact, ConstantTest) -> bool,
    splits: (Fact, SequencePlan) -> seq<View>,
    compare: (JoinTestType, Value, Value) -> bool,
    condition: (RuleId, nat, seq<Choice>) -> bool)

  /** One step of a match: the fact (and split) a join consumed, or nothing for a filter. */
  datatype Choice = Chosen(fact: FactId, split: nat) | Absent

  predicate StartsWith(r: seq<Choice>, before: seq<Choice>) { before <= r }

  function Views(w: World, fact: Fact, sequence: Option<SequencePlan>): seq<View> {
    if sequence.None? then [(slot: SlotIndex) => SlotValue(fact, slot)] else w.splits(fact, sequence.value)
  }

  predicate ViewExists(w: World, sequence: Option<SequencePlan>, c: Choice) {
    c.Chosen? && c.fact in w.facts && c.split < |Views(w, w.facts[c.fact], sequence)|
  }

  function ViewOf(w: World, sequence: Option<SequencePlan>, c: Choice): View
    requires ViewExists(w, sequence, c)
  {
    Views(w, w.facts[c.fact], sequence)[c.split]
  }

  /** The alpha filter ending a sequence path admits every fact with a split. */
  ghost predicate Coherent(w: World) {
    forall fact, plan :: |w.splits(fact, plan)| > 0 ==> w.test(fact, ConstantTest(Ordered(0), Sequence(plan)))
  }

  // ----- the graph's reading: one term at a time -----

  predicate TestPasses(w: World, t: JoinTest, view: View, env: Env) {
    view(t.slot).Some? && t.variable in env && w.compare(t.test, view(t.slot).value, env[t.variable])
  }

  predicate TestsPass(w: World, tests: seq<JoinTest>, view: View, env: Env) {
    tests == [] || (TestPasses(w, tests[0], view, env) && TestsPass(w, tests[1..], view, env))
  }

  /** A candidate of the alpha memory for `path` that passes the join tests. */
  predicate Joins(w: World, path: AlphaPathKey, tests: seq<JoinTest>, sequence: Option<SequencePlan>, env: Env, c: Choice) {
    && ViewExists(w, sequence, c) && Passes(w.test, w.facts[c.fact], path)
    && TestsPass(w, tests, ViewOf(w, sequence, c), env)
  }

  function Extract(view: View, bindings: seq<(SlotIndex, VarId)>, env: Env): Env {
    if bindings == [] then env
    else
      var value := view(bindings[0].0);
      Extract(view, bindings[1..], if value.Some? then env[bindings[0].1 := value.value] else env)
  }

  /** The bindings a match of `t` carries. */
  function EnvOf(w: World, t: Term, m: seq<Choice>): Env
    decreases t
  {
    if t.Start? || m == [] then map[]
    else
      var last := |m| - 1;
      match t
      case JoinTerm(up, _, _, sequence, bindings) =>
        if ViewExists(w, sequence, m[last])
        then Extract(ViewOf(w, sequence, m[last]), bindings, EnvOf(w, up, m[..last]))
        else map[]
      case NegativeTerm(up, _, _, _) => EnvOf(w, up, m[..last])
      case ExistsTerm(up, _, _, _) => EnvOf(w, up, m[..last])
      case PredicateTerm(up, _, _) => EnvOf(w, up, m[..last])
      case NccTerm(up, _) => EnvOf(w, up, m[..last])
  }

  /** The matches held at a node that stands for `t`: one choice for each step from the root. */
  ghost predicate Accepts(w: World, t: Term, m: seq<Choice>)
    decreases t, 1
  {
    if t.Start? then m == []
    else m != [] && Accepts(w, t.up, m[..|m| - 1]) && AcceptsLast(w, t, m[..|m| - 1], m[|m| - 1])
  }

  /** What the last operation of `t` asks of its choice, given the match `before` of its parent. */
  ghost predicate AcceptsLast(w: World, t: Term, before: seq<Choice>, choice: Choice)
    requires !t.Start?
    decreases t, 0
  {
    match t
    case JoinTerm(up, path, tests, sequence, _) => Joins(w, path, tests, sequence, EnvOf(w, up, before), choice)
    case NegativeTerm(up, path, tests, sequence) =>
      choice == Absent && !exists c :: Joins(w, path, tests, sequence, EnvOf(w, up, before), c)
    case ExistsTerm(up, path, tests, sequence) =>
      choice == Absent && exists c :: Joins(w, path, tests, sequence, EnvOf(w, up, before), c)
    case PredicateTerm(_, rule, index) => choice == Absent && w.condition(rule, index, before)
    case NccTerm(_, sub) =>
      choice == Absent && !exists r {:trigger StartsWith(r, before)} :: StartsWith(r, before) && Accepts(w, sub, r)
  }

  /** The matches of node `n` over the facts of `w`. */
  ghost predicate Denotes(w: World, e: Engine, n: NodeId, m: seq<Choice>) {
    exists t :: Represents(e.paths, e.beta.nodes, n, t) && Accepts(w, t, m)
  }

  // ----- the conditions' reading: binder and later occurrences, no ids and no graph -----

  /** The positive patterns matched so far with the views they matched through. */
  type Trail = seq<(Pattern, View)>

  ghost predicate Mentioned(trail: Trail, x: Symbol) {
    exists k :: 0 <= k < |trail| && trail[k].0.Mentions(x)
  }

  ghost function SlotOf(p: Pattern, x: Symbol): SlotIndex
    requires p.Mentions(x)
  {
    var k :| 0 <= k < |p.variableSlots| && p.variableSlots[k].1 == x;
    p.variableSlots[k].0
  }

  /** A variable's value is the field its first positive occurrence selects. */
  ghost function Lookup(trail: Trail, x: Symbol): Option<Value> {
    if trail == [] then None
    else if trail[0].0.Mentions(x) then trail[0].1(SlotOf(trail[0].0, x))
    else Lookup(trail[1..], x)
  }

  predicate Related(w: World, test: JoinTestType, left: Option<Value>, right: Option<Value>) {
    left.Some? && right.Some? && w.compare(test, left.value, right.value)
  }

  /** Later occurrences equal the binder, comparisons hold, and other variables are free. */
  ghost predicate VariablesAgree(w: World, p: Pattern, view: View, trail: Trail) {
    && (forall k :: 0 <= k < |p.variableSlots| && Mentioned(trail, p.variableSlots[k].1) ==>
          Related(w, EQUAL, view(p.variableSlots[k].0), Lookup(trail, p.variableSlots[k].1)))
    && (forall k :: 0 <= k < |p.negatedVariableSlots| ==>
          Related(w, p.negatedVariableSlots[k].2, view(p.negatedVariableSlots[k].0), Lookup(trail, p.negatedVariableSlots[k].1)))
  }

  ghost predicate Satisfies(w: World, p: Pattern, trail: Trail, c: Choice) {
    && ViewExists(w, p.sequence, c)
    && w.facts[c.fact].entry == p.entry
    && (forall k :: 0 <= k < |p.constantTests| ==> w.test(w.facts[c.fact], p.constantTests[k]))
    && VariablesAgree(w, p, ViewOf(w, p.sequence, c), trail)
  }

  /** The conditions hold for the choices `rest`, after `before` was chosen along `trail`. */
  ghost predicate Holds(w: World, rule: RuleId, conditions: seq<Condition>, before: seq<Choice>, trail: Trail, rest: seq<Choice>)
    decreases conditions
  {
    if conditions == [] then rest == []
    else
      && rest != [] && HoldsOne(w, rule, conditions[0], before, trail, rest[0])
      && Holds(w, rule, conditions[1..], before + [rest[0]], Extended(w, conditions[0], trail, rest[0]), rest[1..])
  }

  ghost predicate HoldsOne(w: World, rule: RuleId, c: Condition, before: seq<Choice>, trail: Trail, choice: Choice)
    decreases c
  {
    match c
    case PatternCE(p) =>
      if p.Positive() then Satisfies(w, p, trail, choice)
      else choice == Absent && (p.negated <==> !exists x :: Satisfies(w, p, trail, x))
    case PredicateCE(index) => choice == Absent && w.condition(rule, index, before)
    case NccCE(subs) =>
      choice == Absent && !exists r {:trigger StartsWith(r, before)} ::
        StartsWith(r, before) && Holds(w, rule, subs, before, trail, r[|before|..])
  }

  function Extended(w: World, c: Condition, trail: Trail, choice: Choice): Trail {
    if c.PatternCE? && c.pattern.Positive() && ViewExists(w, c.pattern.sequence, choice)
    then trail + [(c.pattern, ViewOf(w, c.pattern.sequence, choice))]
    else trail
  }

  // ----- bindings carried by a match are the binders' values -----

  predicate Injective(ids: VarIds) {
    forall x, y :: x in ids && y in ids && ids[x] == ids[y] ==> x == y
  }

  ghost predicate Agrees(ids: VarIds, bound: set<Symbol>, env: Env, trail: Trail) {
    && (forall x :: x in bound <==> Mentioned(trail, x))
    && (forall x :: x in ids ==> (ids[x] in env <==> Lookup(trail, x).Some?))
    && (forall x :: x in ids && ids[x] in env ==> Lookup(trail, x) == Some(env[ids[x]]))
  }

  lemma {:induction false} LookupMentioned(trail: Trail, x: Symbol)
    ensures !Mentioned(trail, x) ==> Lookup(trail, x) == None
  {
    if trail != [] && !Mentioned(trail, x) {
      assert !trail[0].0.Mentions(x);
      assert forall k :: 0 <= k < |trail[1..]| ==> trail[1..][k] == trail[k + 1];
      LookupMentioned(trail[1..], x);
    }
  }

  lemma {:induction false} LookupSnoc(trail: Trail, p: Pattern, view: View, x: Symbol)
    ensures Mentioned(trail + [(p, view)], x) <==> Mentioned(trail, x) || p.Mentions(x)
    ensures Lookup(trail + [(p, view)], x) ==
              if Mentioned(trail, x) then Lookup(trail, x)
              else if p.Mentions(x) then view(SlotOf(p, x)) else None
  {
    var longer := trail + [(p, view)];
    assert longer[|trail|] == (p, view);
    assert forall k :: 0 <= k < |trail| ==> longer[k] == trail[k];
    if trail != [] {
      assert longer[1..] == trail[1..] + [(p, view)];
      assert forall k :: 0 <= k < |trail[1..]| ==> trail[1..][k] == trail[k + 1];
      LookupSnoc(trail[1..], p, view, x);
      if Mentioned(trail, x) && !trail[0].0.Mentions(x) {
        var k :| 0 <= k < |trail| && trail[k].0.Mentions(x);
        assert trail[1..][k - 1] == trail[k];
      }
    }
  }

  /** Extraction sets exactly the slots' variables that exist in the view, and nothing else. */
  lemma {:induction false} ExtractOther(view: View, slots: seq<(SlotIndex, Symbol)>, ids: VarIds, bound: set<Symbol>, env: Env, x: Symbol)
    requires forall k :: 0 <= k < |slots| ==> slots[k].1 in ids
    requires Injective(ids) && x in ids
    requires x in bound || forall k :: 0 <= k < |slots| ==> slots[k].1 != x
    ensures var env' := Extract(view, Extractions(slots, ids, bound), env);
      (ids[x] in env' <==> ids[x] in env) && (ids[x] in env ==> env'[ids[x]] == env[ids[x]])
  {
    if slots != [] {
      var rest := Extractions(slots[1..], ids, bound);
      if slots[0].1 in bound {
        assert Extractions(slots, ids, bound) == rest;
        ExtractOther(view, slots[1..], ids, bound, env, x);
      } else {
        assert Extractions(slots, ids, bound)[1..] == rest;
        var value := view(slots[0].0);
        ExtractOther(view, slots[1..], ids, bound, if value.Some? then env[ids[slots[0].1] := value.value] else env, x);
      }
    }
  }

  lemma {:induction false} ExtractNew(view: View, slots: seq<(SlotIndex, Symbol)>, ids: VarIds, bound: set<Symbol>, env: Env,
                                      x: Symbol, slot: SlotIndex)
    requires forall k :: 0 <= k < |slots| ==> slots[k].1 in ids
    requires Injective(ids) && x in ids && x !in bound
    requires forall k :: 0 <= k < |slots| && slots[k].1 == x ==> slots[k].0 == slot
    requires ids[x] in env ==> view(slot) == Some(env[ids[x]])
    requires (exists k :: 0 <= k < |slots| && slots[k].1 == x) || ids[x] in env || view(slot) == None
    ensures var env' := Extract(view, Extractions(slots, ids, bound), env);
      (ids[x] in env' <==> view(slot).Some?) && (ids[x] in env' ==> view(slot) == Some(env'[ids[x]]))
  {
    if slots != [] {
      var rest := Extractions(slots[1..], ids, bound);
      var value := view(slots[0].0);
      assert forall k :: 0 <= k < |slots[1..]| ==> slots[1..][k] == slots[k + 1];
      if slots[0].1 in bound {
        assert Extractions(slots, ids, bound) == rest;
        if k :| 0 <= k < |slots| && slots[k].1 == x { assert slots[1..][k - 1] == slots[k]; }
        ExtractNew(view, slots[1..], ids, bound, env, x, slot);
      } else {
        assert Extractions(slots, ids, bound)[1..] == rest;
        var env1 := if value.Some? then env[ids[slots[0].1] := value.value] else env;
        if slots[0].1 != x {
          if k :| 0 <= k < |slots| && slots[k].1 == x { assert slots[1..][k - 1] == slots[k]; }
        }
        ExtractNew(view, slots[1..], ids, bound, env1, x, slot);
      }
    }
  }

  lemma AgreesAfter(cx: Context, p: Pattern, bound: set<Symbol>, env: Env, trail: Trail, view: View)
    requires Registered(p, cx.ids) && Injective(cx.ids) && SingleSlotPerVariable(p) && p.Positive()
    requires Agrees(cx.ids, bound, env, trail)
    ensures Agrees(cx.ids, BoundBy(PatternCE(p), bound), Extract(view, Extractions(p.variableSlots, cx.ids, bound), env),
                   trail + [(p, view)])
  {
    var ids := cx.ids;
    var env' := Extract(view, Extractions(p.variableSlots, ids, bound), env);
    var longer := trail + [(p, view)];
    forall x ensures x in BoundBy(PatternCE(p), bound) <==> Mentioned(longer, x) {
      LookupSnoc(trail, p, view, x);
    }
    forall x | x in ids
      ensures (ids[x] in env' <==> Lookup(longer, x).Some?) && (ids[x] in env' ==> Lookup(longer, x) == Some(env'[ids[x]]))
    {
      LookupSnoc(trail, p, view, x);
      if x in bound || !p.Mentions(x) {
        ExtractOther(view, p.variableSlots, ids, bound, env, x);
        LookupMentioned(trail, x);
      } else {
        LookupMentioned(trail, x);
        ExtractNew(view, p.variableSlots, ids, bound, env, x, SlotOf(p, x));
      }
    }
  }

  // ----- join tests are the variables' conditions -----

  lemma {:induction false} TestsPassConcat(w: World, a: seq<JoinTest>, b: seq<JoinTest>, view: View, env: Env)
    ensures TestsPass(w, a + b, view, env) <==> TestsPass(w, a, view, env) && TestsPass(w, b, view, env)
  {
    if a == [] {
      assert a + b == b;
    } else {
      assert (a + b)[1..] == a[1..] + b;
      TestsPassConcat(w, a[1..], b, view, env);
    }
  }

  ghost predicate EqualitiesHold(w: World, slots: seq<(SlotIndex, Symbol)>, view: View, trail: Trail) {
    forall k :: 0 <= k < |slots| && Mentioned(trail, slots[k].1) ==>
      Related(w, EQUAL, view(slots[k].0), Lookup(trail, slots[k].1))
  }

  lemma {:induction false} EqualitiesAgree(w: World, slots: seq<(SlotIndex, Symbol)>, ids: VarIds, bound: set<Symbol>, view: View,
                                           env: Env, trail: Trail)
    requires forall k :: 0 <= k < |slots| ==> slots[k].1 in ids
    requires Agrees(ids, bound, env, trail)
    ensures TestsPass(w, EqualityTests(slots, ids, bound), view, env) <==> EqualitiesHold(w, slots, view, trail)
  {
    if slots != [] {
      var rest := EqualityTests(slots[1..], ids, bound);
      EqualitiesAgree(w, slots[1..], ids, bound, view, env, trail);
      assert EqualitiesHold(w, slots, view, trail) <==>
               (Mentioned(trail, slots[0].1) ==> Related(w, EQUAL, view(slots[0].0), Lookup(trail, slots[0].1)))
               && EqualitiesHold(w, slots[1..], view, trail) by {
        assert forall k :: 0 <= k < |slots[1..]| ==> slots[1..][k] == slots[k + 1];
        assert forall k :: 1 <= k < |slots| ==> slots[k] == slots[1..][k - 1];
      }
      if slots[0].1 in bound {
        assert EqualityTests(slots, ids, bound)[1..] == rest;
      } else {
        assert EqualityTests(slots, ids, bound) == rest;
      }
    }
  }

  ghost predicate ComparisonsHold(w: World, slots: seq<(SlotIndex, Symbol, JoinTestType)>, view: View, trail: Trail) {
    forall k :: 0 <= k < |slots| ==> Related(w, slots[k].2, view(slots[k].0), Lookup(trail, slots[k].1))
  }

  lemma {:induction false} ComparisonsAgree(w: World, slots: seq<(SlotIndex, Symbol, JoinTestType)>, ids: VarIds, bound: set<Symbol>,
                                            view: View, env: Env, trail: Trail)
    requires forall k :: 0 <= k < |slots| ==> slots[k].1 in ids
    requires Agrees(ids, bound, env, trail)
    ensures TestsPass(w, ComparisonTests(slots, ids), view, env) <==> ComparisonsHold(w, slots, view, trail)
  {
    if slots != [] {
      ComparisonsAgree(w, slots[1..], ids, bound, view, env, trail);
      assert ComparisonTests(slots, ids)[1..] == ComparisonTests(slots[1..], ids);
      assert ComparisonsHold(w, slots, view, trail) <==>
               Related(w, slots[0].2, view(slots[0].0), Lookup(trail, slots[0].1))
               && ComparisonsHold(w, slots[1..], view, trail) by {
        assert forall k :: 0 <= k < |slots[1..]| ==> slots[1..][k] == slots[k + 1];
        assert forall k :: 1 <= k < |slots| ==> slots[k] == slots[1..][k - 1];
      }
    }
  }

  lemma JoinsSatisfies(w: World, cx: Context, p: Pattern, bound: set<Symbol>, env: Env, trail: Trail, c: Choice)
    requires Registered(p, cx.ids) && Agrees(cx.ids, bound, env, trail) && Coherent(w)
    ensures Joins(w, PathKey(p), JoinTests(p, cx.ids, bound), p.sequence, env, c) <==> Satisfies(w, p, trail, c)
  {
    if ViewExists(w, p.sequence, c) {
      var view := ViewOf(w, p.sequence, c);
      TestsPassConcat(w, EqualityTests(p.variableSlots, cx.ids, bound), ComparisonTests(p.negatedVariableSlots, cx.ids), view, env);
      EqualitiesAgree(w, p.variableSlots, cx.ids, bound, view, env, trail);
      ComparisonsAgree(w, p.negatedVariableSlots, cx.ids, bound, view, env, trail);
      PathAgrees(w, p, w.facts[c.fact], c.split);
    }
  }

  lemma PathAgrees(w: World, p: Pattern, fact: Fact, split: nat)
    requires Coherent(w) && split < |Views(w, fact, p.sequence)|
    ensures Passes(w.test, fact, PathKey(p)) <==>
              fact.entry == p.entry && forall k :: 0 <= k < |p.constantTests| ==> w.test(fact, p.constantTests[k])
  {
    var tests := PathKey(p).tests;
    assert forall k :: 0 <= k < |p.constantTests| ==> tests[k] == p.constantTests[k];
    assert forall k :: |p.constantTests| <= k < |tests| ==>
      p.sequence.Some? && tests[k] == ConstantTest(Ordered(0), Sequence(p.sequence.value));
  }

  // ----- compilation preserves meaning -----

  function Depth(t: Term): nat {
    if t.Start? then 0 else 1 + Depth(t.up)
  }

  lemma {:induction false} AcceptsDepth(w: World, t: Term, m: seq<Choice>)
    requires Accepts(w, t, m)
    ensures |m| == Depth(t)
    decreases t
  {
    if !t.Start? { AcceptsDepth(w, t.up, m[..|m| - 1]); }
  }

  /** A match of a longer chain starts with a match of the shorter one. */
  lemma {:induction false} AcceptsPrefix(w: World, cx: Context, conditions: seq<Condition>, up: Term, bound: set<Symbol>, m: seq<Choice>)
    requires AllRegistered(conditions, cx.ids) && Accepts(w, TermOf(cx, conditions, up, bound), m)
    ensures |m| == Depth(up) + |conditions| && Accepts(w, up, m[..Depth(up)])
    decreases conditions
  {
    if conditions == [] {
      AcceptsDepth(w, up, m);
      assert m[..|m|] == m;
    } else {
      var t := TermOfOne(cx, conditions[0], up, bound);
      AcceptsPrefix(w, cx, conditions[1..], t, BoundBy(conditions[0], bound), m);
      assert t.up == up;
      assert m[..Depth(t)][..Depth(up)] == m[..Depth(up)];
    }
  }

  /** The variables bound at compile time and the bindings at match time both follow the trail. */
  ghost predicate Synchronized(w: World, cx: Context, up: Term, bound: set<Symbol>, before: seq<Choice>, trail: Trail) {
    Accepts(w, up, before) && Agrees(cx.ids, bound, EnvOf(w, up, before), trail)
  }

  lemma {:induction false} OneAgrees(w: World, cx: Context, c: Condition, nested: bool, up: Term, bound: set<Symbol>,
                                     before: seq<Choice>, trail: Trail, choice: Choice)
    requires RegisteredIn(c, cx.ids) && Injective(cx.ids) && Coherent(w) && WellStructuredIn(c, nested)
    requires Synchronized(w, cx, up, bound, before, trail)
    ensures Accepts(w, TermOfOne(cx, c, up, bound), before + [choice]) <==> HoldsOne(w, cx.rule, c, before, trail, choice)
    decreases c
  {
    var m := before + [choice];
    assert m[|m| - 1] == choice && m[..|m| - 1] == before;
    match c
    case PatternCE(p) => PatternAgrees(w, cx, p, up, bound, before, trail, choice);
    case PredicateCE(_) =>
    case NccCE(subs) => NccAgrees(w, cx, subs, up, bound, before, trail, choice);
  }

  lemma PatternAgrees(w: World, cx: Context, p: Pattern, up: Term, bound: set<Symbol>, before: seq<Choice>, trail: Trail,
                      choice: Choice)
    requires Registered(p, cx.ids) && Coherent(w) && Synchronized(w, cx, up, bound, before, trail)
    ensures AcceptsLast(w, TermOfOne(cx, PatternCE(p), up, bound), before, choice)
        <==> HoldsOne(w, cx.rule, PatternCE(p), before, trail, choice)
  {
    forall x { JoinsSatisfies(w, cx, p, bound, EnvOf(w, up, before), trail, x); }
  }

  lemma {:induction false} NccAgrees(w: World, cx: Context, subs: seq<Condition>, up: Term, bound: set<Symbol>,
                                     before: seq<Choice>, trail: Trail, choice: Choice)
    requires AllRegistered(subs, cx.ids) && Injective(cx.ids) && Coherent(w) && WellStructured(subs, true)
    requires Synchronized(w, cx, up, bound, before, trail)
    ensures AcceptsLast(w, NccTerm(up, TermOf(cx, subs, up, bound)), before, choice)
        <==> HoldsOne(w, cx.rule, NccCE(subs), before, trail, choice)
    decreases subs, 3
  {
    var sub := TermOf(cx, subs, up, bound);
    forall r | StartsWith(r, before) ensures Accepts(w, sub, r) <==> Holds(w, cx.rule, subs, before, trail, r[|before|..]) {
      assert r == before + r[|before|..];
      SeqAgrees(w, cx, subs, true, up, bound, before, trail, r[|before|..]);
    }
  }

  lemma {:induction false} SeqAgrees(w: World, cx: Context, conditions: seq<Condition>, nested: bool, up: Term, bound: set<Symbol>,
                                     before: seq<Choice>, trail: Trail, rest: seq<Choice>)
    requires AllRegistered(conditions, cx.ids) && Injective(cx.ids) && Coherent(w) && WellStructured(conditions, nested)
    requires Synchronized(w, cx, up, bound, before, trail)
    ensures Accepts(w, TermOf(cx, conditions, up, bound), before + rest) <==> Holds(w, cx.rule, conditions, before, trail, rest)
    decreases conditions, 2
  {
    AcceptsDepth(w, up, before);
    if conditions == [] {
      if Accepts(w, up, before + rest) { AcceptsDepth(w, up, before + rest); }
      assert rest == [] ==> before + rest == before;
    } else if rest == [] {
      if Accepts(w, TermOf(cx, conditions, up, bound), before + rest) {
        AcceptsPrefix(w, cx, conditions, up, bound, before + rest);
      }
    } else {
      StepAgrees(w, cx, conditions, nested, up, bound, before, trail, rest);
    }
  }

  lemma {:induction false} StepAgrees(w: World, cx: Context, conditions: seq<Condition>, nested: bool, up: Term, bound: set<Symbol>,
                                      before: seq<Choice>, trail: Trail, rest: seq<Choice>)
    requires AllRegistered(conditions, cx.ids) && Injective(cx.ids) && Coherent(w) && WellStructured(conditions, nested)
    requires Synchronized(w, cx, up, bound, before, trail) && conditions != [] && rest != []
    ensures Accepts(w, TermOf(cx, conditions, up, bound), before + rest) <==> Holds(w, cx.rule, conditions, before, trail, rest)
    decreases conditions, 1
  {
    hide HoldsOne, AcceptsLast, BoundBy, Extended;
    var c := conditions[0];
    var t := TermOfOne(cx, c, up, bound);
    var next := before + [rest[0]];
    assert next + rest[1..] == before + rest;
    AcceptsDepth(w, up, before);
    OneAgrees(w, cx, c, nested, up, bound, before, trail, rest[0]);
    if Accepts(w, t, next) {
      StaysSynchronized(w, cx, c, nested, up, bound, before, trail, rest[0]);
      SeqAgrees(w, cx, conditions[1..], nested, t, BoundBy(c, bound), next, Extended(w, c, trail, rest[0]), rest[1..]);
    } else if Accepts(w, TermOf(cx, conditions, up, bound), before + rest) {
      AcceptsPrefix(w, cx, conditions[1..], t, BoundBy(c, bound), before + rest);
    }
  }

  lemma StaysSynchronized(w: World, cx: Context, c: Condition, nested: bool, up: Term, bound: set<Symbol>,
                          before: seq<Choice>, trail: Trail, choice: Choice)
    requires RegisteredIn(c, cx.ids) && Injective(cx.ids) && WellStructuredIn(c, nested)
    requires Synchronized(w, cx, up, bound, before, trail)
    requires Accepts(w, TermOfOne(cx, c, up, bound), before + [choice])
    ensures Synchronized(w, cx, TermOfOne(cx, c, up, bound), BoundBy(c, bound), before + [choice], Extended(w, c, trail, choice))
  {
    var m := before + [choice];
    assert m[|m| - 1] == choice && m[..|m| - 1] == before;
    if c.PatternCE? && c.pattern.Positive() {
      AgreesAfter(cx, c.pattern, bound, EnvOf(w, up, before), trail, ViewOf(w, c.pattern.sequence, choice));
    }
  }

  /** The term of a rule accepts exactly the choices of facts that satisfy its conditions. */
  lemma TermMeaning(cx: Context, conditions: seq<Condition>, w: World, m: seq<Choice>)
    requires AllRegistered(conditions, cx.ids) && Injective(cx.ids) && Coherent(w) && WellStructured(conditions, false)
    ensures Accepts(w, TermOf(cx, conditions, Start, {}), m) <==> Holds(w, cx.rule, conditions, [], [], m)
  {
    SeqAgrees(w, cx, conditions, false, Start, {}, [], [], m);
    assert [] + m == m;
  }

  /** Compilation preserves meaning: over any facts, the new terminal receives exactly the choices of
      facts that satisfy the rule's conditions, whatever the graph and caches held before. */
  lemma CompilationPreservesMeaning(e: Engine, cx: Context, conditions: seq<Condition>, salience: int, complexity: nat,
                                    w: World, m: seq<Choice>)
    requires EngineWf(e, {}) && Accepted(conditions) && AllRegistered(conditions, cx.ids) && Injective(cx.ids) && Coherent(w)
    ensures var (e1, terminal) := CompileRule(e, cx, conditions, salience, complexity);
      && terminal in e1.beta.nodes
      && (Denotes(w, e1, e1.beta.nodes[terminal].parent, m) <==> Holds(w, cx.rule, conditions, [], [], m))
  {
    CompileRuleOk(e, cx, conditions, salience, complexity);
    TermMeaning(cx, conditions, w, m);
    var (e1, terminal) := CompileRule(e, cx, conditions, salience, complexity);
    TermDecidesDenotation(w, e1, e1.beta.nodes[terminal].parent, TermOf(cx, conditions, Start, {}), m);
  }

  lemma TermDecidesDenotation(w: World, e: Engine, n: NodeId, t: Term, m: seq<Choice>)
    requires Represents(e.paths, e.beta.nodes, n, t)
    ensures Denotes(w, e, n, m) <==> Accepts(w, t, m)
  {
    if s :| Represents(e.paths, e.beta.nodes, n, s) && Accepts(w, s, m) {
      RepresentsUnique(e.paths, e.beta.nodes, n, s, t);
    }
  }

  /** Sharing is invisible: compiled into two different engines, with whatever caches, one rule gets
      terminals with the same matches. */
  lemma SharingIsInvisible(e: Engine, f: Engine, cx: Context, conditions: seq<Condition>, salience: int, complexity: nat,
                           w: World, m: seq<Choice>)
    requires EngineWf(e, {}) && EngineWf(f, {}) && AllRegistered(conditions, cx.ids)
    ensures var (e1, te) := CompileRule(e, cx, conditions, salience, complexity);
      var (f1, tf) := CompileRule(f, cx, conditions, salience, complexity);
      && te in e1.beta.nodes && tf in f1.beta.nodes
      && (Denotes(w, e1, e1.beta.nodes[te].parent, m) <==> Denotes(w, f1, f1.beta.nodes[tf].parent, m))
  {
    CompileRuleOk(e, cx, conditions, salience, complexity);
    CompileRuleOk(f, cx, conditions, salience, complexity);
    var (e1, te) := CompileRule(e, cx, conditions, salience, complexity);
    var (f1, tf) := CompileRule(f, cx, conditions, salience, complexity);
    TermDecidesDenotation(w, e1, e1.beta.nodes[te].parent, TermOf(cx, conditions, Start, {}), m);
    TermDecidesDenotation(w, f1, f1.beta.nodes[tf].parent, TermOf(cx, conditions, Start, {}), m);
  }

  /** Compiling another rule leaves the matches of every old node as they were. */
  lemma CompilationKeepsOldMeanings(e: Engine, cx: Context, conditions: seq<Condition>, salience: int, complexity: nat,
                                    w: World, n: NodeId, t: Term, m: seq<Choice>)
    requires EngineWf(e, {}) && AllRegistered(conditions, cx.ids) && Represents(e.paths, e.beta.nodes, n, t)
    ensures var e1 := CompileRule(e, cx, conditions, salience, complexity).0;
      Represents(e1.paths, e1.beta.nodes, n, t) && (Denotes(w, e1, n, m) <==> Denotes(w, e, n, m))
  {
    CompileRuleOk(e, cx, conditions, salience, complexity);
    var e1 := CompileRule(e, cx, conditions, salience, complexity).0;
    ExtendedRepresents(e, e1, n, t);
    TermDecidesDenotation(w, e, n, t, m);
    TermDecidesDenotation(w, e1, n, t, m);
  }
}
