/** Rule syntax handed to the compiler: values, constant tests, patterns and
    conditional elements, together with the compiler's rule validation. */
module Syntax {

  datatype Option<+T> = None | Some(value: T)

  const U16_MAX: nat := 0xFFFF
  const U32_MAX: nat := 0xFFFF_FFFF
  const U64_MAX: nat := 0xFFFF_FFFF_FFFF_FFFF
  const USIZE_MAX: nat := 0xFFFF_FFFF_FFFF_FFFF

  type Symbol = nat
  type FactId = nat
  type TokenId = nat
  type NodeId = nat
  type VarId = nat
  type RuleId = nat

  /** A field value. Floats are kept as their bit pattern and never compared by magnitude. */
  datatype Value =
    | Integer(i: int)
    | SymbolValue(symbol: Symbol)
    | InstanceName(name: Symbol)
    | FactAddress(fact: FactId)
    | StringValue(text: string)
    | Float(bits: nat)
    | ExternalAddress(typeId: nat, token: nat)
    | Multifield(items: seq<Value>)
    | Void

  /** The hash key of an atomic value; multifields and void have none. */
  function AtomKey(v: Value): (key: Option<Value>) {
    if v.Multifield? || v.Void? then None else Some(v)
  }

  /** A value other than a multifield and void. */
  predicate Atomic(v: Value) { !v.Multifield? && !v.Void? }

  /** Atomic values are their own keys; the others have none. */
  lemma KeyIsValue(v: Value, key: Value)
    ensures AtomKey(v) == Some(key) <==> Atomic(v) && v == key
  {
  }

  datatype SlotIndex = Ordered(position: nat) | Template(position: nat)

  datatype EntryType = TemplateEntry(template: nat) | OrderedRelation(relation: Symbol)

  datatype Fact = Fact(entry: EntryType, fields: seq<Value>)

  /** The field a slot selects; `None` when the slot kind or position does not fit the fact. */
  function SlotValue(fact: Fact, slot: SlotIndex): Option<Value> {
    if fact.entry.OrderedRelation? == slot.Ordered? && slot.position < |fact.fields|
    then Some(fact.fields[slot.position])
    else None
  }

  /** The slot names a field of the fact by kind and position, and that field is `v`. */
  predicate FieldIs(fact: Fact, slot: SlotIndex, v: Value) {
    match slot
    case Ordered(i) => fact.entry.OrderedRelation? && i < |fact.fields| && fact.fields[i] == v
    case Template(i) => fact.entry.TemplateEntry? && i < |fact.fields| && fact.fields[i] == v
  }

  lemma SlotValueIsField(fact: Fact, slot: SlotIndex, v: Value)
    ensures SlotValue(fact, slot) == Some(v) <==> FieldIs(fact, slot, v)
  {
  }

  datatype Relation = Eq | Ne | Gt | Lt | Ge | Le

  datatype ConstantTest = ConstantTest(slot: SlotIndex, test: TestType)

  datatype TestType =
    | Key(relation: Relation, key: Value)
    | EqualAny(keys: seq<Value>)
    | OtherSlot(equal: bool, slot: SlotIndex)
    | OtherSlotOffset(relation: Relation, slot: SlotIndex, offset: int)
    | OrderedFieldCount(min: nat, max: Option<nat>)
    | Sequence(plan: SequencePlan)
    | Any(branches: seq<Branch>)

  /** One conjunction of a field disjunction; an empty one accepts any existing field. */
  datatype Branch = Branch(tests: seq<ConstantTest>)

  /** How many physical fields a logical field takes up. */
  datatype SequenceField = Single | Multi

  /** Where a segment's physical fields come from. */
  datatype SequenceSource = AllFields | TemplateSlot(index: nat) | TemplateScalar(index: nat)

  datatype Segment = Segment(source: SequenceSource, fields: seq<SequenceField>)

  /** A positional matching plan: its segments and the constant tests on their flattened logical fields. */
  datatype SequencePlan = SequencePlan(segments: seq<Segment>, tests: seq<ConstantTest>)
  {
    predicate IsOrdered() { |segments| == 1 && segments[0].source.AllFields? }

    function Width(): nat { TotalWidth(segments) }

    predicate ValidSlot(slot: SlotIndex) { slot.Ordered? == IsOrdered() && slot.position < Width() }
  }

  function TotalWidth(segments: seq<Segment>): nat {
    if segments == [] then 0 else |segments[0].fields| + TotalWidth(segments[1..])
  }

  /** The physical slot behind a logical field whose position never depends on a split. */
  function PhysicalSelector(plan: SequencePlan, slot: SlotIndex): Option<SlotIndex> {
    match slot
    case Ordered(position) =>
      if plan.IsOrdered() && position < |plan.segments[0].fields|
         && forall k :: 0 <= k <= position ==> plan.segments[0].fields[k].Single?
      then Some(slot) else None
    case Template(position) => ScalarSelector(plan.segments, position)
  }

  function ScalarSelector(segments: seq<Segment>, position: nat): Option<SlotIndex> {
    if segments == [] then None
    else if position < |segments[0].fields| then
      if segments[0].source.TemplateScalar? then Some(Template(segments[0].source.index)) else None
    else ScalarSelector(segments[1..], position - |segments[0].fields|)
  }

  datatype JoinTestType = Plain(relation: Relation) | Lexeme(relation: Relation) | Offset(relation: Relation, delta: int)

  const EQUAL: JoinTestType := Plain(Eq)

  datatype Pattern = Pattern(
    entry: EntryType,
    constantTests: seq<ConstantTest>,
    sequence: Option<SequencePlan>,
    variableSlots: seq<(SlotIndex, Symbol)>,
    negatedVariableSlots: seq<(SlotIndex, Symbol, JoinTestType)>,
    negated: bool,
    exists_: bool)
  {
    /** A positive pattern consumes a fact and binds variables; `negated` takes precedence. */
    predicate Positive() { !negated && !exists_ }

    predicate Mentions(x: Symbol) {
      exists k :: 0 <= k < |variableSlots| && variableSlots[k].1 == x
    }
  }

  datatype Condition =
    | PatternCE(pattern: Pattern)
    | PredicateCE(index: nat)
    | NccCE(subconditions: seq<Condition>)

  type AlphaMemoryId = nat

  /** The structural identity of an alpha path: entry type, then the tests along it. */
  datatype AlphaPathKey = AlphaPathKey(entry: EntryType, tests: seq<ConstantTest>)

  /** A fact lies on a path: its entry type and every test along it. */
  predicate Passes(test: (Fact, ConstantTest) -> bool, fact: Fact, path: AlphaPathKey) {
    fact.entry == path.entry && forall k :: 0 <= k < |path.tests| ==> test(fact, path.tests[k])
  }

  /** What a token binds. */
  type Env = map<VarId, Value>

  // ----- acceptance -----

  const MAX_RULE_CONDITIONS: nat := 64
  const MAX_ALPHA_TESTS: nat := 64

  function Min(a: nat, b: nat): nat { if a < b then a else b }

  /** Test nodes in a test forest: every test counts one, and so does every empty branch. */
  function TestCount(tests: seq<ConstantTest>): nat {
    if tests == [] then 0 else SingleTestCount(tests[0]) + TestCount(tests[1..])
  }

  function SingleTestCount(test: ConstantTest): (n: nat)
    ensures n >= 1
  {
    1 + if test.test.Any? then BranchCount(test.test.branches) else 0
  }

  function BranchCount(branches: seq<Branch>): nat {
    if branches == [] then 0
    else (if branches[0].tests == [] then 1 else 0) + TestCount(branches[0].tests) + BranchCount(branches[1..])
  }

  lemma {:induction false} TestCountConcat(a: seq<ConstantTest>, b: seq<ConstantTest>)
    ensures TestCount(a + b) == TestCount(a) + TestCount(b)
  {
    if a == [] {
      assert a + b == b;
    } else {
      assert (a + b)[1..] == a[1..] + b;
      TestCountConcat(a[1..], b);
    }
  }

  lemma {:induction false} BranchCountSnoc(branches: seq<Branch>, branch: Branch)
    ensures BranchCount(branches + [branch])
         == BranchCount(branches) + (if branch.tests == [] then 1 else 0) + TestCount(branch.tests)
  {
    if branches == [] {
      assert branches + [branch] == [branch];
      assert [branch][1..] == [];
    } else {
      assert (branches + [branch])[1..] == branches[1..] + [branch];
      BranchCountSnoc(branches[1..], branch);
    }
  }

  /** The worklist count of the source, which saturates instead of overflowing. */
  method ConstantTestCount(tests: seq<ConstantTest>) returns (count: nat)
    ensures count == Min(TestCount(tests), USIZE_MAX)
  {
    var pending := tests;
    count := 0;
    ghost var total: nat := 0;
    while pending != []
      invariant total + TestCount(pending) == TestCount(tests)
      invariant count == Min(total, USIZE_MAX)
      decreases TestCount(pending)
    {
      var last := |pending| - 1;
      var test := pending[last];
      assert pending == pending[..last] + [test];
      TestCountConcat(pending[..last], [test]);
      assert TestCount([test]) == SingleTestCount(test);
      pending := pending[..last];
      count := Min(count + 1, USIZE_MAX);
      total := total + 1;
      if test.test.Any? {
        var branches := test.test.branches;
        ghost var before, base := total, TestCount(pending);
        for i := 0 to |branches|
          invariant total + TestCount(pending) == before + base + BranchCount(branches[..i])
          invariant total >= before
          invariant count == Min(total, USIZE_MAX)
        {
          assert branches[..i + 1] == branches[..i] + [branches[i]];
          BranchCountSnoc(branches[..i], branches[i]);
          TestCountConcat(pending, branches[i].tests);
          if branches[i].tests == [] {
            count := Min(count + 1, USIZE_MAX);
            total := total + 1;
          }
          pending := pending + branches[i].tests;
        }
        assert branches[..|branches|] == branches;
      }
    }
  }

  function FieldCountTests(tests: seq<ConstantTest>): nat {
    if tests == [] then 0
    else (if tests[0].test.OrderedFieldCount? then 1 else 0) + FieldCountTests(tests[1..])
  }

  /** No whole-fact constraint occurs inside a field disjunction. */
  predicate NestingAllowed(tests: seq<ConstantTest>, nested: bool) {
    tests == [] || (TestAllowed(tests[0], nested) && NestingAllowed(tests[1..], nested))
  }

  predicate TestAllowed(test: ConstantTest, nested: bool) {
    && (nested ==> !test.test.OrderedFieldCount? && !test.test.Sequence?)
    && (test.test.Any? ==> BranchesAllowed(test.test.branches))
  }

  predicate BranchesAllowed(branches: seq<Branch>) {
    branches == [] || (NestingAllowed(branches[0].tests, true) && BranchesAllowed(branches[1..]))
  }

  /** Only an ordered plan reads a whole fact; other sources are distinct template slots, scalars with one field. */
  predicate SourcesOk(segments: seq<Segment>) {
    && (forall i :: 0 <= i < |segments| ==>
          !segments[i].source.AllFields? && (segments[i].source.TemplateScalar? ==> segments[i].fields == [Single]))
    && (forall i, j :: 0 <= i < j < |segments| && !segments[i].source.AllFields? && !segments[j].source.AllFields? ==>
          segments[i].source.index != segments[j].source.index)
  }

  /** Every selector of every nested test names a logical field, and no test looks at the whole fact. */
  predicate SelectorsOk(plan: SequencePlan, tests: seq<ConstantTest>)
    decreases tests
  {
    tests == [] || (SelectorOk(plan, tests[0]) && SelectorsOk(plan, tests[1..]))
  }

  predicate SelectorOk(plan: SequencePlan, test: ConstantTest)
    decreases test
  {
    plan.ValidSlot(test.slot) &&
    match test.test
    case Any(branches) => BranchSelectorsOk(plan, branches)
    case OrderedFieldCount(_, _) => false
    case Sequence(_) => false
    case OtherSlot(_, slot) => plan.ValidSlot(slot)
    case OtherSlotOffset(_, slot, _) => plan.ValidSlot(slot)
    case Key(_, _) => true
    case EqualAny(_) => true
  }

  predicate BranchSelectorsOk(plan: SequencePlan, branches: seq<Branch>)
    decreases branches
  {
    branches == [] || (SelectorsOk(plan, branches[0].tests) && BranchSelectorsOk(plan, branches[1..]))
  }

  predicate PlanOk(plan: SequencePlan) {
    && plan.segments != [] && (!plan.IsOrdered() ==> SourcesOk(plan.segments))
    && TestCount(plan.tests) <= MAX_ALPHA_TESTS && SelectorsOk(plan, plan.tests)
  }

  /** A plan fits the fact kind of its pattern and every variable sits on one of its logical fields. */
  predicate PlanFits(plan: SequencePlan, p: Pattern) {
    && PlanOk(plan) && plan.IsOrdered() == p.entry.OrderedRelation?
    && (forall k :: 0 <= k < |p.variableSlots| ==> plan.ValidSlot(p.variableSlots[k].0))
    && (forall k :: 0 <= k < |p.negatedVariableSlots| ==> plan.ValidSlot(p.negatedVariableSlots[k].0))
  }

  /** The limits every pattern's constant tests meet. */
  predicate PatternTestsOk(p: Pattern) {
    && FieldCountTests(p.constantTests) <= 1
    && TestCount(p.constantTests) - FieldCountTests(p.constantTests) <= MAX_ALPHA_TESTS
    && NestingAllowed(p.constantTests, false)
    && (p.sequence.Some? ==>
          && TestCount(p.sequence.value.tests) <= MAX_ALPHA_TESTS
          && TestCount(p.constantTests) - FieldCountTests(p.constantTests)
             + TestCount(p.sequence.value.tests) <= MAX_ALPHA_TESTS
          && PlanFits(p.sequence.value, p))
  }

  /** A variable symbol names at most one slot of a pattern. */
  predicate SingleSlotPerVariable(p: Pattern) {
    forall i, j | 0 <= i < |p.variableSlots| && 0 <= j < |p.variableSlots| ::
      p.variableSlots[i].1 == p.variableSlots[j].1 ==> p.variableSlots[i].0 == p.variableSlots[j].0
  }

  function ConditionCount(conditions: seq<Condition>): nat {
    if conditions == [] then 0
    else 1 + (if conditions[0].NccCE? then ConditionCount(conditions[0].subconditions) else 0)
         + ConditionCount(conditions[1..])
  }

  predicate TestsOk(conditions: seq<Condition>) {
    conditions == [] || (TestsOkIn(conditions[0]) && TestsOk(conditions[1..]))
  }

  predicate TestsOkIn(c: Condition) {
    match c
    case PatternCE(p) => PatternTestsOk(p)
    case PredicateCE(_) => true
    case NccCE(subs) => TestsOk(subs)
  }

  /** Structure rules: no empty conjunction, no `exists` inside one, one slot per variable. */
  predicate WellStructured(conditions: seq<Condition>, nested: bool) {
    conditions == [] || (WellStructuredIn(conditions[0], nested) && WellStructured(conditions[1..], nested))
  }

  predicate WellStructuredIn(c: Condition, nested: bool) {
    match c
    case PatternCE(p) => (nested ==> !p.exists_) && SingleSlotPerVariable(p)
    case PredicateCE(_) => true
    case NccCE(subs) => subs != [] && WellStructured(subs, true)
  }

  /** What `validate_conditions` accepts. */
  predicate Accepted(conditions: seq<Condition>) {
    && ConditionCount(conditions) <= MAX_RULE_CONDITIONS
    && TestsOk(conditions)
    && WellStructured(conditions, false)
  }
}
