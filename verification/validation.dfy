/** The compiler's rule validation: worklists and recursion that decide exactly `Accepted`. */
module Validation {
  import opened Syntax

  lemma {:induction false} ConditionCountConcat(a: seq<Condition>, b: seq<Condition>)
    ensures ConditionCount(a + b) == ConditionCount(a) + ConditionCount(b)
    ensures TestsOk(a + b) <==> TestsOk(a) && TestsOk(b)
  {
    if a == [] {
      assert a + b == b;
    } else {
      assert (a + b)[1..] == a[1..] + b;
      ConditionCountConcat(a[1..], b);
    }
  }

  /** Popping the last pending condition. */
  lemma ConditionCountLast(pending: seq<Condition>)
    requires pending != []
    ensures var c, rest := pending[|pending| - 1], pending[..|pending| - 1];
      && ConditionCount(pending) == ConditionCount(rest) + 1 + (if c.NccCE? then ConditionCount(c.subconditions) else 0)
      && (TestsOk(pending) <==> TestsOk(rest) && TestsOkIn(c))
  {
    var c, rest := pending[|pending| - 1], pending[..|pending| - 1];
    assert pending == rest + [c] && [c][1..] == [];
    ConditionCountConcat(rest, [c]);
  }

  lemma {:induction false} NestingAllowedConcat(a: seq<ConstantTest>, b: seq<ConstantTest>, nested: bool)
    ensures NestingAllowed(a + b, nested) <==> NestingAllowed(a, nested) && NestingAllowed(b, nested)
  {
    if a == [] {
      assert a + b == b;
    } else {
      assert (a + b)[1..] == a[1..] + b;
      NestingAllowedConcat(a[1..], b, nested);
    }
  }

  /** A pending test with whether it stands inside a disjunction. */
  datatype Pending = Pending(test: ConstantTest, nested: bool)

  function AllowedAll(pending: seq<Pending>): bool {
    pending == [] || (TestAllowed(pending[|pending| - 1].test, pending[|pending| - 1].nested) && AllowedAll(pending[..|pending| - 1]))
  }

  function Weight(pending: seq<Pending>): nat {
    if pending == [] then 0
    else SingleTestCount(pending[|pending| - 1].test) + Weight(pending[..|pending| - 1])
  }

  function Tagged(tests: seq<ConstantTest>, nested: bool): seq<Pending> {
    seq(|tests|, i requires 0 <= i < |tests| => Pending(tests[i], nested))
  }

  lemma {:induction false} TaggedAppended(pending: seq<Pending>, tests: seq<ConstantTest>, nested: bool)
    ensures AllowedAll(pending + Tagged(tests, nested)) <==> AllowedAll(pending) && NestingAllowed(tests, nested)
    ensures Weight(pending + Tagged(tests, nested)) == Weight(pending) + TestCount(tests)
  {
    var all := pending + Tagged(tests, nested);
    if tests == [] {
      assert all == pending;
    } else {
      var last, before := tests[|tests| - 1], tests[..|tests| - 1];
      assert tests == before + [last] && [last][1..] == [];
      assert all[..|all| - 1] == pending + Tagged(before, nested) && all[|all| - 1] == Pending(last, nested);
      TaggedAppended(pending, before, nested);
      NestingAllowedConcat(before, [last], nested);
      TestCountConcat(before, [last]);
    }
  }

  lemma {:induction false} BranchesAllowedSnoc(branches: seq<Branch>, branch: Branch)
    ensures BranchesAllowed(branches + [branch]) <==> BranchesAllowed(branches) && NestingAllowed(branch.tests, true)
  {
    if branches == [] {
      assert branches + [branch] == [branch] && [branch][1..] == [];
    } else {
      assert (branches + [branch])[1..] == branches[1..] + [branch];
      BranchesAllowedSnoc(branches[1..], branch);
    }
  }

  /** Whole-fact constraints are refused inside disjunctions, found with a worklist. */
  method CheckNesting(tests: seq<ConstantTest>) returns (ok: bool)
    ensures ok <==> NestingAllowed(tests, false)
  {
    var pending := Tagged(tests, false);
    TaggedAppended([], tests, false);
    assert [] + Tagged(tests, false) == pending;
    while pending != []
      invariant AllowedAll(pending) <==> NestingAllowed(tests, false)
      decreases Weight(pending)
    {
      var item := pending[|pending| - 1];
      pending := pending[..|pending| - 1];
      if item.test.test.Any? {
        var branches := item.test.test.branches;
        ghost var rest := pending;
        for i := 0 to |branches|
          invariant AllowedAll(pending) <==> AllowedAll(rest) && BranchesAllowed(branches[..i])
          invariant Weight(pending) <= Weight(rest) + BranchCount(branches[..i])
        {
          assert branches[..i + 1] == branches[..i] + [branches[i]];
          BranchesAllowedSnoc(branches[..i], branches[i]);
          BranchCountSnoc(branches[..i], branches[i]);
          TaggedAppended(pending, branches[i].tests, true);
          pending := pending + Tagged(branches[i].tests, true);
        }
        assert branches[..|branches|] == branches;
      } else if item.nested && (item.test.test.OrderedFieldCount? || item.test.test.Sequence?) {
        return false;
      }
    }
    ok := true;
  }

  method CountFieldCounts(tests: seq<ConstantTest>) returns (count: nat)
    ensures count == FieldCountTests(tests)
  {
    count := 0;
    for i := 0 to |tests|
      invariant count + FieldCountTests(tests[i..]) == FieldCountTests(tests)
    {
      assert tests[i..][1..] == tests[i + 1..];
      if tests[i].test.OrderedFieldCount? { count := count + 1; }
    }
  }

  lemma {:induction false} FieldCountsAreTests(tests: seq<ConstantTest>)
    ensures FieldCountTests(tests) <= TestCount(tests)
  {
    if tests != [] { FieldCountsAreTests(tests[1..]); }
  }

  // ----- sequence plans -----

  lemma {:induction false} SelectorsOkConcat(plan: SequencePlan, a: seq<ConstantTest>, b: seq<ConstantTest>)
    ensures SelectorsOk(plan, a + b) <==> SelectorsOk(plan, a) && SelectorsOk(plan, b)
  {
    if a == [] {
      assert a + b == b;
    } else {
      assert (a + b)[1..] == a[1..] + b;
      SelectorsOkConcat(plan, a[1..], b);
    }
  }

  lemma {:induction false} BranchSelectorsSnoc(plan: SequencePlan, branches: seq<Branch>, branch: Branch)
    ensures BranchSelectorsOk(plan, branches + [branch]) <==> BranchSelectorsOk(plan, branches) && SelectorsOk(plan, branch.tests)
  {
    if branches == [] {
      assert branches + [branch] == [branch] && [branch][1..] == [];
    } else {
      assert (branches + [branch])[1..] == branches[1..] + [branch];
      BranchSelectorsSnoc(plan, branches[1..], branch);
    }
  }

  /** The branches of a disjunction join the worklist. */
  method PushBranches(plan: SequencePlan, pending: seq<ConstantTest>, branches: seq<Branch>) returns (more: seq<ConstantTest>)
    ensures SelectorsOk(plan, more) <==> SelectorsOk(plan, pending) && BranchSelectorsOk(plan, branches)
    ensures TestCount(more) <= TestCount(pending) + BranchCount(branches)
  {
    more := pending;
    for i := 0 to |branches|
      invariant SelectorsOk(plan, more) <==> SelectorsOk(plan, pending) && BranchSelectorsOk(plan, branches[..i])
      invariant TestCount(more) <= TestCount(pending) + BranchCount(branches[..i])
    {
      assert branches[..i + 1] == branches[..i] + [branches[i]];
      BranchSelectorsSnoc(plan, branches[..i], branches[i]);
      BranchCountSnoc(branches[..i], branches[i]);
      SelectorsOkConcat(plan, more, branches[i].tests);
      TestCountConcat(more, branches[i].tests);
      more := more + branches[i].tests;
    }
    assert branches[..|branches|] == branches;
  }

  /** The worklist over a plan's tests finds every selector outside the projection and every whole-fact test. */
  method CheckSelectors(plan: SequencePlan) returns (ok: bool)
    ensures ok <==> SelectorsOk(plan, plan.tests)
  {
    var pending := plan.tests;
    while pending != []
      invariant SelectorsOk(plan, pending) <==> SelectorsOk(plan, plan.tests)
      decreases TestCount(pending)
    {
      var test, rest := pending[|pending| - 1], pending[..|pending| - 1];
      assert pending == rest + [test] && [test][1..] == [];
      SelectorsOkConcat(plan, rest, [test]);
      TestCountConcat(rest, [test]);
      if !plan.ValidSlot(test.slot) { return false; }
      match test.test {
        case Any(branches) => pending := PushBranches(plan, rest, branches);
        case OrderedFieldCount(_, _) => return false;
        case Sequence(_) => return false;
        case OtherSlot(_, slot) =>
          if !plan.ValidSlot(slot) { return false; }
          pending := rest;
        case OtherSlotOffset(_, slot, _) =>
          if !plan.ValidSlot(slot) { return false; }
          pending := rest;
        case Key(_, _) => pending := rest;
        case EqualAny(_) => pending := rest;
      }
    }
    ok := true;
  }

  /** Each template slot feeds at most one segment, found with a set of seen slots. */
  method CheckSources(segments: seq<Segment>) returns (ok: bool)
    ensures ok <==> SourcesOk(segments)
  {
    var seen: set<nat> := {};
    for i := 0 to |segments|
      invariant SourcesOk(segments[..i])
      invariant forall x :: x in seen <==> exists k :: 0 <= k < i && !segments[k].source.AllFields? && segments[k].source.index == x
    {
      var source := segments[i].source;
      if source.AllFields? || (source.TemplateScalar? && segments[i].fields != [Single]) { return false; }
      if source.index in seen { return false; }
      seen := seen + {source.index};
    }
    assert segments[..|segments|] == segments;
    ok := true;
  }

  method ValidatePlan(plan: SequencePlan) returns (ok: bool)
    ensures ok <==> PlanOk(plan)
  {
    if plan.segments == [] { return false; }
    if !plan.IsOrdered() {
      var sources := CheckSources(plan.segments);
      if !sources { return false; }
    }
    var count := ConstantTestCount(plan.tests);
    if count > MAX_ALPHA_TESTS { return false; }
    ok := CheckSelectors(plan);
  }

  method ValidatePatternTests(p: Pattern) returns (ok: bool)
    ensures ok <==> PatternTestsOk(p)
    ensures p.sequence.None? ==>
      (ok <==> FieldCountTests(p.constantTests) <= 1 && TestCount(p.constantTests) <= 64 + FieldCountTests(p.constantTests)
               && NoneWhole(p.constantTests, false))
  {
    NestingByPosition(p.constantTests);
    var fieldCounts := CountFieldCounts(p.constantTests);
    if fieldCounts > 1 { return false; }
    var count := ConstantTestCount(p.constantTests);
    FieldCountsAreTests(p.constantTests);
    if count - fieldCounts > MAX_ALPHA_TESTS { return false; }
    var nesting := CheckNesting(p.constantTests);
    if !nesting { return false; }
    if p.sequence.Some? {
      var sequenceTests := ConstantTestCount(p.sequence.value.tests);
      if sequenceTests > MAX_ALPHA_TESTS { return false; }
      if Min(count - fieldCounts + sequenceTests, USIZE_MAX) > MAX_ALPHA_TESTS { return false; }
      var plan := p.sequence.value;
      var valid := ValidatePlan(plan);
      if !valid || plan.IsOrdered() != p.entry.OrderedRelation? { return false; }
      if exists k | 0 <= k < |p.variableSlots| :: !plan.ValidSlot(p.variableSlots[k].0) { return false; }
      if exists k | 0 <= k < |p.negatedVariableSlots| :: !plan.ValidSlot(p.negatedVariableSlots[k].0) { return false; }
    }
    ok := true;
  }

  method ValidatePatternStructure(p: Pattern, allowExists: bool) returns (ok: bool)
    ensures ok <==> (p.exists_ ==> allowExists) && SingleSlotPerVariable(p)
  {
    ok := p.exists_ ==> allowExists;
    var slots: map<Symbol, SlotIndex> := map[];
    for i := 0 to |p.variableSlots|
      invariant forall x :: x in slots ==> exists k :: 0 <= k < i && p.variableSlots[k] == (slots[x], x)
      invariant forall k :: 0 <= k < i ==> p.variableSlots[k].1 in slots
      invariant ok ==> (p.exists_ ==> allowExists) && forall k :: 0 <= k < i ==> slots[p.variableSlots[k].1] == p.variableSlots[k].0
      invariant !ok ==> (p.exists_ && !allowExists) || !SingleSlotPerVariable(p)
    {
      var (slot, x) := p.variableSlots[i];
      if x in slots && slots[x] != slot { ok := false; }
      slots := slots[x := slot];
    }
  }

  /** The structural pass, descending into subnetworks. */
  method ValidateStructure(conditions: seq<Condition>, nested: bool) returns (ok: bool)
    ensures ok <==> WellStructured(conditions, nested)
    decreases conditions
  {
    ok := true;
    for i := 0 to |conditions|
      invariant ok && WellStructured(conditions[i..], nested) <==> WellStructured(conditions, nested)
    {
      assert conditions[i..][1..] == conditions[i + 1..];
      var here: bool;
      match conditions[i] {
        case PatternCE(p) => here := ValidatePatternStructure(p, !nested);
        case PredicateCE(_) => here := true;
        case NccCE(subs) =>
          here := false;
          if subs != [] { here := ValidateStructure(subs, true); }
      }
      ok := ok && here;
    }
  }

  /** The whole check: a bounded worklist over all conditions first, then the structural pass. */
  method ValidateConditions(conditions: seq<Condition>) returns (ok: bool)
    ensures ok <==> Accepted(conditions)
  {
    var pending := conditions;
    var count := 0;
    while pending != []
      invariant count + ConditionCount(pending) == ConditionCount(conditions) && count <= MAX_RULE_CONDITIONS
      invariant TestsOk(pending) <==> TestsOk(conditions)
      decreases ConditionCount(pending)
    {
      ConditionCountLast(pending);
      var c := pending[|pending| - 1];
      pending := pending[..|pending| - 1];
      count := count + 1;
      if count > MAX_RULE_CONDITIONS { return false; }
      match c {
        case PatternCE(p) =>
          var here := ValidatePatternTests(p);
          if !here { return false; }
        case PredicateCE(_) =>
        case NccCE(subs) =>
          ConditionCountConcat(pending, subs);
          pending := pending + subs;
      }
    }
    ok := ValidateStructure(conditions, false);
  }

  // ----- what is accepted, told by positions -----

  /** Condition `c` stands at `path`: an index into the list, then indices into the conjunctions on the way. */
  predicate StandsAt(conditions: seq<Condition>, path: seq<nat>, c: Condition)
    decreases |path|
  {
    && path != [] && path[0] < |conditions|
    && if |path| == 1 then conditions[path[0]] == c
       else conditions[path[0]].NccCE? && StandsAt(conditions[path[0]].subconditions, path[1..], c)
  }

  /** What one condition must meet: a conjunction is not empty, a pattern's tests are allowed, it is existential only at
      the top, and no variable of it stands at two slots. */
  predicate ConditionFits(c: Condition, nested: bool) {
    match c
    case PatternCE(p) => PatternTestsOk(p) && !(nested && p.exists_) && SingleSlotPerVariable(p)
    case PredicateCE(_) => true
    case NccCE(subs) => subs != []
  }

  lemma {:induction false} ElementOk(conditions: seq<Condition>, nested: bool, i: nat)
    requires TestsOk(conditions) && WellStructured(conditions, nested) && i < |conditions|
    ensures TestsOkIn(conditions[i]) && WellStructuredIn(conditions[i], nested)
    decreases i
  {
    if i > 0 { ElementOk(conditions[1..], nested, i - 1); }
  }

  lemma {:induction false} FitsAt(conditions: seq<Condition>, nested: bool, path: seq<nat>, c: Condition)
    requires TestsOk(conditions) && WellStructured(conditions, nested) && StandsAt(conditions, path, c)
    ensures ConditionFits(c, nested || |path| > 1)
    decreases |path|
  {
    ElementOk(conditions, nested, path[0]);
    if |path| > 1 { FitsAt(conditions[path[0]].subconditions, true, path[1..], c); }
  }

  /** Every condition at every depth fits, where all below the first level count as nested. */
  ghost predicate AllFit(conditions: seq<Condition>, nested: bool) {
    forall path, c :: StandsAt(conditions, path, c) ==> ConditionFits(c, nested || |path| > 1)
  }

  lemma AllFitTail(conditions: seq<Condition>, nested: bool)
    requires conditions != [] && AllFit(conditions, nested)
    ensures AllFit(conditions[1..], nested) && ConditionFits(conditions[0], nested)
    ensures conditions[0].NccCE? ==> AllFit(conditions[0].subconditions, true)
  {
    assert StandsAt(conditions, [0], conditions[0]);
    forall path, c | StandsAt(conditions[1..], path, c) ensures ConditionFits(c, nested || |path| > 1) {
      var shifted := [path[0] + 1] + path[1..];
      assert shifted[1..] == path[1..] && conditions[1..][path[0]] == conditions[path[0] + 1];
      assert StandsAt(conditions, shifted, c);
    }
    if conditions[0].NccCE? {
      forall path, c | StandsAt(conditions[0].subconditions, path, c) ensures ConditionFits(c, true) {
        assert ([0] + path)[1..] == path;
        assert StandsAt(conditions, [0] + path, c);
      }
    }
  }

  lemma {:induction false} FittingIsOk(conditions: seq<Condition>, nested: bool)
    requires AllFit(conditions, nested)
    ensures TestsOk(conditions) && WellStructured(conditions, nested)
    decreases conditions
  {
    if conditions != [] {
      AllFitTail(conditions, nested);
      FittingIsOk(conditions[1..], nested);
      if conditions[0].NccCE? { FittingIsOk(conditions[0].subconditions, true); }
    }
  }

  /** A rule is accepted exactly when it has at most 64 conditions in all and every condition, at whatever depth, fits. */
  lemma AcceptedByPosition(conditions: seq<Condition>)
    ensures Accepted(conditions) <==> ConditionCount(conditions) <= 64 && AllFit(conditions, false)
  {
    if Accepted(conditions) {
      forall path, c | StandsAt(conditions, path, c) ensures ConditionFits(c, |path| > 1) { FitsAt(conditions, false, path, c); }
    }
    if AllFit(conditions, false) { FittingIsOk(conditions, false); }
  }

  /** Test `t` stands at `path`: an index into the tests, then alternately a branch and an index into its tests. */
  predicate TestAt(tests: seq<ConstantTest>, path: seq<nat>, t: ConstantTest)
    decreases |path|
  {
    && path != [] && path[0] < |tests|
    && if |path| == 1 then tests[path[0]] == t
       else tests[path[0]].test.Any? && path[1] < |tests[path[0]].test.branches|
            && TestAt(tests[path[0]].test.branches[path[1]].tests, path[2..], t)
  }

  predicate WholeFact(t: ConstantTest) { t.test.OrderedFieldCount? || t.test.Sequence? }

  lemma {:induction false} AllowedAt(tests: seq<ConstantTest>, nested: bool, path: seq<nat>, t: ConstantTest)
    requires NestingAllowed(tests, nested) && TestAt(tests, path, t) && (nested || |path| > 1)
    ensures !WholeFact(t)
    decreases |path|
  {
    AllowedElement(tests, nested, path[0]);
    if |path| > 1 {
      BranchElement(tests[path[0]].test.branches, path[1]);
      AllowedAt(tests[path[0]].test.branches[path[1]].tests, true, path[2..], t);
    }
  }

  lemma {:induction false} AllowedElement(tests: seq<ConstantTest>, nested: bool, i: nat)
    requires NestingAllowed(tests, nested) && i < |tests|
    ensures TestAllowed(tests[i], nested)
    decreases i
  {
    if i > 0 { AllowedElement(tests[1..], nested, i - 1); }
  }

  lemma {:induction false} BranchElement(branches: seq<Branch>, i: nat)
    requires BranchesAllowed(branches) && i < |branches|
    ensures NestingAllowed(branches[i].tests, true)
    decreases i
  {
    if i > 0 { BranchElement(branches[1..], i - 1); }
  }

  /** No test at any depth below the first looks at the whole fact. */
  ghost predicate NoneWhole(tests: seq<ConstantTest>, nested: bool) {
    forall path, t :: TestAt(tests, path, t) && (nested || |path| > 1) ==> !WholeFact(t)
  }

  lemma {:induction false} NoneWholeAllowed(tests: seq<ConstantTest>, nested: bool)
    requires NoneWhole(tests, nested)
    ensures NestingAllowed(tests, nested)
    decreases tests
  {
    if tests != [] {
      assert TestAt(tests, [0], tests[0]);
      forall path, t | TestAt(tests[1..], path, t) && (nested || |path| > 1) ensures !WholeFact(t) {
        var shifted := [path[0] + 1] + path[1..];
        assert |path| > 1 ==> shifted[1] == path[1] && shifted[2..] == path[2..];
        assert TestAt(tests, shifted, t);
      }
      NoneWholeAllowed(tests[1..], nested);
      if tests[0].test.Any? {
        forall b | 0 <= b < |tests[0].test.branches| ensures NoneWhole(tests[0].test.branches[b].tests, true) {
          forall path, t | TestAt(tests[0].test.branches[b].tests, path, t) ensures !WholeFact(t) {
            assert ([0, b] + path)[2..] == path;
            assert TestAt(tests, [0, b] + path, t);
          }
        }
        NoneWholeTest(tests[0]);
      }
    }
  }

  lemma {:induction false} NoneWholeTest(t: ConstantTest)
    requires t.test.Any? && forall b :: 0 <= b < |t.test.branches| ==> NoneWhole(t.test.branches[b].tests, true)
    ensures BranchesAllowed(t.test.branches)
    decreases t
  {
    NoneWholeBranches(t.test.branches);
  }

  lemma {:induction false} NoneWholeBranches(branches: seq<Branch>)
    requires forall b :: 0 <= b < |branches| ==> NoneWhole(branches[b].tests, true)
    ensures BranchesAllowed(branches)
    decreases branches
  {
    if branches != [] {
      NoneWholeAllowed(branches[0].tests, true);
      assert forall b :: 0 <= b < |branches[1..]| ==> branches[1..][b] == branches[b + 1];
      NoneWholeBranches(branches[1..]);
    }
  }

  /** Nesting is allowed exactly when no test inside a disjunction, at whatever depth, looks at the whole fact. */
  lemma NestingByPosition(tests: seq<ConstantTest>)
    ensures NestingAllowed(tests, false) <==> NoneWhole(tests, false)
  {
    if NestingAllowed(tests, false) {
      forall path, t | TestAt(tests, path, t) && |path| > 1 ensures !WholeFact(t) { AllowedAt(tests, false, path, t); }
    }
    if NoneWhole(tests, false) { NoneWholeAllowed(tests, false); }
  }
}
