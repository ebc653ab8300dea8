/** Constant tests on concrete facts: integers and symbols for real, float arithmetic left open. */
module Evaluation {
  import opened Syntax

  datatype Ordering = Less | Equal | Greater

  /** What the runtime does with floats, how it orders strings, and whether some split of a fact passes a sequence plan. */
  datatype Runtime = Runtime(
    compareFloats: (Value, Value) -> Option<Ordering>,
    addToFloat: (nat, int) -> nat,
    compareStrings: (string, string) -> Ordering,
    admits: (Fact, SequencePlan) -> bool)

  type Field = SlotIndex -> Option<Value>

  const I64_MIN: int := -0x8000_0000_0000_0000
  const I64_MAX: int := 0x7FFF_FFFF_FFFF_FFFF

  /** Numbers compare with numbers; nothing else compares. */
  function CompareNumeric(r: Runtime, a: Value, b: Value): Option<Ordering> {
    if a.Integer? && b.Integer? then Some(if a.i < b.i then Less else if a.i == b.i then Equal else Greater)
    else if (a.Integer? || a.Float?) && (b.Integer? || b.Float?) then r.compareFloats(a, b)
    else None
  }

  /** A 64-bit sum, or nothing on overflow and for non-numbers. */
  function AddOffset(r: Runtime, v: Value, offset: int): Option<Value> {
    match v
    case Integer(i) => if I64_MIN <= i + offset <= I64_MAX then Some(Integer(i + offset)) else None
    case Float(bits) => Some(Float(r.addToFloat(bits, offset)))
    case _ => None
  }

  predicate Meets(relation: Relation, o: Ordering) {
    match relation
    case Eq => o.Equal?
    case Ne => !o.Equal?
    case Gt => o.Greater?
    case Lt => o.Less?
    case Ge => !o.Less?
    case Le => !o.Greater?
  }

  predicate Comparable(r: Runtime, relation: Relation, a: Value, b: Value) {
    CompareNumeric(r, a, b).Some? && Meets(relation, CompareNumeric(r, a, b).value)
  }

  predicate OffsetEqual(r: Runtime, a: Value, b: Value, offset: int) {
    AddOffset(r, b, offset).Some? && Comparable(r, Eq, a, AddOffset(r, b, offset).value)
  }

  /** A field test; whole-fact tests never match here, and no test matches a missing field. */
  predicate FieldTest(r: Runtime, test: ConstantTest, field: Field)
    decreases test
  {
    field(test.slot).Some? && (
      var v := field(test.slot).value;
      match test.test
      case Key(relation, key) =>
        if relation.Eq? then AtomKey(v) == Some(key)
        else if relation.Ne? then AtomKey(v).Some? && AtomKey(v) != Some(key)
        else Comparable(r, relation, v, key)
      case EqualAny(keys) => AtomKey(v).Some? && AtomKey(v).value in keys
      case OtherSlot(equal, slot) => field(slot).Some? && (equal <==> v == field(slot).value)
      case OtherSlotOffset(relation, slot, offset) =>
        field(slot).Some? && (
          var other := field(slot).value;
          if relation.Ne? then !OffsetEqual(r, v, other, offset)
          else AddOffset(r, other, offset).Some? && Comparable(r, relation, v, AddOffset(r, other, offset).value))
      case OrderedFieldCount(_, _) => false
      case Sequence(_) => false
      case Any(branches) => SomeBranch(r, branches, field))
  }

  predicate SomeBranch(r: Runtime, branches: seq<Branch>, field: Field)
    decreases branches
  {
    branches != [] && (AllTests(r, branches[0].tests, field) || SomeBranch(r, branches[1..], field))
  }

  predicate AllTests(r: Runtime, tests: seq<ConstantTest>, field: Field)
    decreases tests
  {
    tests == [] || (FieldTest(r, tests[0], field) && AllTests(r, tests[1..], field))
  }

  predicate Evaluate(r: Runtime, test: ConstantTest, fact: Fact) {
    match test.test
    case OrderedFieldCount(min, max) =>
      fact.entry.OrderedRelation? && |fact.fields| >= min && (max.None? || |fact.fields| <= max.value)
    case Sequence(plan) => r.admits(fact, plan)
    case _ => FieldTest(r, test, slot => SlotValue(fact, slot))
  }

  // ----- join comparisons -----

  /** Equality of two join values; void is not comparable. */
  function JoinEqual(a: Value, b: Value): Option<bool> {
    if a.Void? || b.Void? then None else Some(a == b)
  }

  /** A join test between a fact's field and the token's binding. */
  predicate JoinCompare(r: Runtime, test: JoinTestType, field: Value, bound: Value) {
    match test
    case Plain(relation) =>
      if relation.Eq? then JoinEqual(field, bound) == Some(true)
      else if relation.Ne? then JoinEqual(field, bound) == Some(false)
      else Comparable(r, relation, field, bound)
    case Lexeme(relation) =>
      field.StringValue? && bound.StringValue? && Meets(relation, r.compareStrings(field.text, bound.text))
    case Offset(relation, delta) =>
      AddOffset(r, bound, delta).Some? && Comparable(r, relation, field, AddOffset(r, bound, delta).value)
  }

  // ----- what the tests mean on fields -----

  /** Equality with a key: the field is that key and atomic; inequality: it is atomic and another value. */
  lemma KeyTests(r: Runtime, slot: SlotIndex, key: Value, fact: Fact)
    ensures Evaluate(r, ConstantTest(slot, Key(Eq, key)), fact) <==> Atomic(key) && FieldIs(fact, slot, key)
    ensures Evaluate(r, ConstantTest(slot, Key(Ne, key)), fact) <==> exists v :: FieldIs(fact, slot, v) && Atomic(v) && v != key
  {
    var field := SlotValue(fact, slot);
    SlotValueIsField(fact, slot, key);
    if field.Some? {
      SlotValueIsField(fact, slot, field.value);
      KeyIsValue(field.value, key);
      KeyIsValue(field.value, field.value);
    }
    forall v | FieldIs(fact, slot, v) ensures field == Some(v) { SlotValueIsField(fact, slot, v); }
  }

  /** A test against several keys: the field is one of them and atomic. */
  lemma EqualAnyTest(r: Runtime, slot: SlotIndex, keys: seq<Value>, fact: Fact)
    ensures Evaluate(r, ConstantTest(slot, EqualAny(keys)), fact) <==> exists v :: FieldIs(fact, slot, v) && Atomic(v) && v in keys
  {
    var field := SlotValue(fact, slot);
    if field.Some? {
      SlotValueIsField(fact, slot, field.value);
      KeyIsValue(field.value, field.value);
    }
    forall v | FieldIs(fact, slot, v) ensures field == Some(v) { SlotValueIsField(fact, slot, v); }
  }

  ghost predicate SameField(fact: Fact, slot: SlotIndex, other: SlotIndex) {
    exists v :: FieldIs(fact, slot, v) && FieldIs(fact, other, v)
  }

  ghost predicate DifferentFields(fact: Fact, slot: SlotIndex, other: SlotIndex) {
    exists v, w :: FieldIs(fact, slot, v) && FieldIs(fact, other, w) && v != w
  }

  /** A test between two slots of one fact: both fields exist and are the same value, or both exist and differ. */
  lemma OtherSlotTests(r: Runtime, slot: SlotIndex, other: SlotIndex, fact: Fact)
    ensures Evaluate(r, ConstantTest(slot, OtherSlot(true, other)), fact) <==> SameField(fact, slot, other)
    ensures Evaluate(r, ConstantTest(slot, OtherSlot(false, other)), fact) <==> DifferentFields(fact, slot, other)
  {
    if SlotValue(fact, slot).Some? && SlotValue(fact, other).Some? {
      SlotValueIsField(fact, slot, SlotValue(fact, slot).value);
      SlotValueIsField(fact, other, SlotValue(fact, other).value);
    }
    forall v | FieldIs(fact, slot, v) ensures SlotValue(fact, slot) == Some(v) { SlotValueIsField(fact, slot, v); }
    forall v | FieldIs(fact, other, v) ensures SlotValue(fact, other) == Some(v) { SlotValueIsField(fact, other, v); }
  }

  /** How many fields an ordered fact has; template facts never pass. */
  lemma FieldCountTest(r: Runtime, slot: SlotIndex, min: nat, max: Option<nat>, fact: Fact)
    ensures Evaluate(r, ConstantTest(slot, OrderedFieldCount(min, max)), fact) <==>
      (exists relation :: fact.entry == OrderedRelation(relation)) && min <= |fact.fields|
      && (max == None || exists limit :: max == Some(limit) && |fact.fields| <= limit)
  {
    if fact.entry.OrderedRelation? { assert fact.entry == OrderedRelation(fact.entry.relation); }
    if max.Some? { assert max == Some(max.value); }
  }

  predicate Stands(relation: Relation, a: int, b: int) {
    match relation case Eq => a == b case Ne => a != b case Gt => a > b case Lt => a < b case Ge => a >= b case Le => a <= b
  }

  /** Between two integer slots with an offset: the relation of the numbers when the sum fits 64 bits; otherwise
      only inequality holds. */
  lemma OffsetTests(r: Runtime, slot: SlotIndex, other: SlotIndex, relation: Relation, offset: int, fact: Fact, a: int, b: int)
    requires FieldIs(fact, slot, Integer(a)) && FieldIs(fact, other, Integer(b))
    ensures Evaluate(r, ConstantTest(slot, OtherSlotOffset(relation, other, offset)), fact) <==>
      if -0x8000_0000_0000_0000 <= b + offset <= 0x7FFF_FFFF_FFFF_FFFF then Stands(relation, a, b + offset) else relation == Ne
  {
    SlotValueIsField(fact, slot, Integer(a));
    SlotValueIsField(fact, other, Integer(b));
  }

  /** Join equality is equality of values, except that void equals nothing; inequality is its negation on the rest. */
  lemma JoinEqualityTests(r: Runtime, a: Value, b: Value)
    ensures JoinCompare(r, Plain(Eq), a, b) <==> a == b && !a.Void?
    ensures JoinCompare(r, Plain(Ne), a, b) <==> a != b && !a.Void? && !b.Void?
  {
  }

  /** On integers the join tests are the relations between field and binding, with the offset on the binding; an
      offset that overflows admits nothing, inequality included. */
  lemma IntegerJoinTests(r: Runtime, relation: Relation, offset: int, a: int, b: int)
    ensures JoinCompare(r, Plain(relation), Integer(a), Integer(b)) <==> Stands(relation, a, b)
    ensures JoinCompare(r, Offset(relation, offset), Integer(a), Integer(b)) <==>
      -0x8000_0000_0000_0000 <= b + offset <= 0x7FFF_FFFF_FFFF_FFFF && Stands(relation, a, b + offset)
    ensures !JoinCompare(r, Lexeme(relation), Integer(a), Integer(b))
  {
  }

  // ----- what the tests mean together -----

  lemma {:induction false} SomeBranchIsExists(r: Runtime, branches: seq<Branch>, field: Field)
    ensures SomeBranch(r, branches, field) <==> exists k :: 0 <= k < |branches| && AllTests(r, branches[k].tests, field)
  {
    if branches != [] {
      SomeBranchIsExists(r, branches[1..], field);
      if k :| 0 <= k < |branches| && AllTests(r, branches[k].tests, field) {
        assert k > 0 ==> branches[1..][k - 1] == branches[k];
      }
      if k :| 0 <= k < |branches[1..]| && AllTests(r, branches[1..][k].tests, field) { assert branches[k + 1] == branches[1..][k]; }
    }
  }

  lemma {:induction false} AllTestsIsForall(r: Runtime, tests: seq<ConstantTest>, field: Field)
    ensures AllTests(r, tests, field) <==> forall k :: 0 <= k < |tests| ==> FieldTest(r, tests[k], field)
  {
    if tests != [] {
      AllTestsIsForall(r, tests[1..], field);
      assert forall k :: 0 <= k < |tests[1..]| ==> tests[1..][k] == tests[k + 1];
      if AllTests(r, tests, field) {
        forall k | 0 <= k < |tests| ensures FieldTest(r, tests[k], field) {
          if k > 0 { assert tests[1..][k - 1] == tests[k]; }
        }
      }
    }
  }

  predicate BranchHolds(r: Runtime, branch: Branch, field: Field) {
    forall j :: 0 <= j < |branch.tests| ==> FieldTest(r, branch.tests[j], field)
  }

  /** A field disjunction holds exactly when its own slot exists and some branch holds throughout; so an empty
      branch accepts any existing field and an empty disjunction accepts nothing. */
  lemma DisjunctionOfConjunctions(r: Runtime, slot: SlotIndex, branches: seq<Branch>, field: Field)
    ensures FieldTest(r, ConstantTest(slot, Any(branches)), field) <==>
      field(slot).Some? && exists k :: 0 <= k < |branches| && BranchHolds(r, branches[k], field)
  {
    SomeBranchIsExists(r, branches, field);
    forall k | 0 <= k < |branches|
      ensures AllTests(r, branches[k].tests, field) <==> BranchHolds(r, branches[k], field)
    {
      AllTestsIsForall(r, branches[k].tests, field);
    }
  }

  /** Inequality with a key negates equality exactly when the slot holds an atomic value. */
  lemma KeyInequalityNegates(r: Runtime, slot: SlotIndex, key: Value, field: Field)
    ensures (FieldTest(r, ConstantTest(slot, Key(Ne, key)), field) <==> !FieldTest(r, ConstantTest(slot, Key(Eq, key)), field))
      <==> field(slot).Some? && !field(slot).value.Multifield? && !field(slot).value.Void?
  {
  }

  /** Both fail on a multifield: inequality is not the negation there. */
  lemma InequalityDoesNotAlwaysNegate(r: Runtime)
    ensures var field := (slot: SlotIndex) => Some(Multifield([]));
      !FieldTest(r, ConstantTest(Ordered(0), Key(Ne, Integer(0))), field) && !FieldTest(r, ConstantTest(Ordered(0), Key(Eq, Integer(0))), field)
  {
  }

  /** `<=` negates `>`, and `>=` negates `<`, exactly when the field and the key compare as numbers. */
  lemma OrderTestsNegate(r: Runtime, slot: SlotIndex, key: Value, field: Field)
    ensures var compares := field(slot).Some? && CompareNumeric(r, field(slot).value, key).Some?;
      && ((FieldTest(r, ConstantTest(slot, Key(Le, key)), field) <==> !FieldTest(r, ConstantTest(slot, Key(Gt, key)), field)) <==> compares)
      && ((FieldTest(r, ConstantTest(slot, Key(Ge, key)), field) <==> !FieldTest(r, ConstantTest(slot, Key(Lt, key)), field)) <==> compares)
  {
  }

  /** On integers the six relations to a key are the six relations between numbers. */
  lemma IntegerTests(r: Runtime, slot: SlotIndex, a: int, b: int, relation: Relation, field: Field)
    requires field(slot) == Some(Integer(a))
    ensures FieldTest(r, ConstantTest(slot, Key(relation, Integer(b))), field) <==>
      match relation case Eq => a == b case Ne => a != b case Gt => a > b case Lt => a < b case Ge => a >= b case Le => a <= b
  {
  }

  /** Offset inequality negates offset equality exactly when both slots exist; an overflowing sum counts as different. */
  lemma OffsetInequalityNegates(r: Runtime, slot: SlotIndex, other: SlotIndex, offset: int, field: Field)
    ensures (FieldTest(r, ConstantTest(slot, OtherSlotOffset(Ne, other, offset)), field)
             <==> !FieldTest(r, ConstantTest(slot, OtherSlotOffset(Eq, other, offset)), field))
      <==> field(slot).Some? && field(other).Some?
    ensures field(slot).Some? && field(other).Some? && field(other).value.Integer?
            && !(I64_MIN <= field(other).value.i + offset <= I64_MAX) ==>
      FieldTest(r, ConstantTest(slot, OtherSlotOffset(Ne, other, offset)), field)
  {
  }
}
