/** Variable numbering for one rule, and the bindings a token carries. */
module Binding {
  import opened Syntax
  import opened Sequences
  import opened WellFormed
  import opened Compile
  import opened Meaning

  const MAX_VARIABLES: nat := U16_MAX + 1

  /** Names numbered by first occurrence; `None` when a 65,537th distinct name turns up. */
  function Numbered(names: seq<Symbol>, more: seq<Symbol>): Option<seq<Symbol>>
    decreases more
  {
    if more == [] then Some(names)
    else if more[0] in names then Numbered(names, more[1..])
    else if |names| > U16_MAX then None
    else Numbered(names + [more[0]], more[1..])
  }

  class VarMap {
    var byName: map<Symbol, VarId>
    var byId: seq<Symbol>

    /** Names and ids are mutually inverse, and every id fits sixteen bits. */
    ghost predicate Valid()
      reads this
    {
      && |byId| <= MAX_VARIABLES
      && (forall i :: 0 <= i < |byId| ==> byId[i] in byName && byName[byId[i]] == i)
      && (forall x :: x in byName ==> byName[x] < |byId| && byId[byName[x]] == x)
    }

    constructor ()
      ensures Valid() && byId == []
    {
      byName, byId := map[], [];
    }

    method GetOrCreate(name: Symbol) returns (id: Option<VarId>)
      requires Valid()
      modifies this
      ensures Valid()
      ensures id.None? <==> name !in old(byId) && |old(byId)| == MAX_VARIABLES
      ensures id.Some? ==> name in byName && byName[name] == id.value && id.value <= U16_MAX
      ensures byId == if name in old(byId) || id.None? then old(byId) else old(byId) + [name]
    {
      if name in byName {
        return Some(byName[name]);
      }
      if |byId| > U16_MAX {
        return None;
      }
      id := Some(|byId|);
      byName := byName[name := |byId|];
      byId := byId + [name];
    }

    function Lookup(name: Symbol): (id: Option<VarId>)
      requires Valid()
      reads this
      ensures id.Some? <==> name in byId
      ensures id.Some? ==> id.value < |byId| && byId[id.value] == name
    {
      if name in byName then Some(byName[name]) else None
    }

    /** Register names in order, stopping at the first that does not fit. */
    method RegisterAll(names: seq<Symbol>) returns (ok: bool)
      requires Valid()
      modifies this
      ensures Valid()
      ensures ok <==> Numbered(old(byId), names).Some?
      ensures ok ==> byId == Numbered(old(byId), names).value
    {
      ok := true;
      for i := 0 to |names|
        invariant Valid() && ok
        invariant Numbered(byId, names[i..]) == Numbered(old(byId), names)
      {
        var id := GetOrCreate(names[i]);
        assert names[i..][1..] == names[i + 1..];
        if id.None? { return false; }
      }
    }
  }

  // ----- preparing a rule's variables -----

  function SlotNames(slots: seq<(SlotIndex, Symbol)>): seq<Symbol> {
    seq(|slots|, k requires 0 <= k < |slots| => slots[k].1)
  }

  function ComparisonNames(slots: seq<(SlotIndex, Symbol, JoinTestType)>): seq<Symbol> {
    seq(|slots|, k requires 0 <= k < |slots| => slots[k].1)
  }

  function PatternNames(p: Pattern): seq<Symbol> {
    SlotNames(p.variableSlots) + ComparisonNames(p.negatedVariableSlots)
  }

  /** Every variable occurrence of the conditions, in registration order. */
  function Names(conditions: seq<Condition>): seq<Symbol> {
    if conditions == [] then [] else NamesIn(conditions[0]) + Names(conditions[1..])
  }

  function NamesIn(c: Condition): seq<Symbol> {
    match c
    case PatternCE(p) => PatternNames(p)
    case PredicateCE(_) => []
    case NccCE(subs) => Names(subs)
  }

  lemma {:induction false} NumberedConcat(names: seq<Symbol>, a: seq<Symbol>, b: seq<Symbol>)
    ensures Numbered(names, a).None? ==> Numbered(names, a + b).None?
    ensures Numbered(names, a).Some? ==> Numbered(names, a + b) == Numbered(Numbered(names, a).value, b)
    decreases a
  {
    if a == [] {
      assert a + b == b;
    } else {
      assert (a + b)[1..] == a[1..] + b;
      if a[0] in names { NumberedConcat(names, a[1..], b); }
      else { NumberedConcat(names + [a[0]], a[1..], b); }
    }
  }

  /** The recursive registration over conditions, stopping at the first overflow. */
  method RegisterConditions(conditions: seq<Condition>, variables: VarMap) returns (ok: bool)
    requires variables.Valid()
    modifies variables
    ensures variables.Valid()
    ensures ok <==> Numbered(old(variables.byId), Names(conditions)).Some?
    ensures ok ==> variables.byId == Numbered(old(variables.byId), Names(conditions)).value
    decreases conditions
  {
    if conditions == [] { return true; }
    NumberedConcat(variables.byId, NamesIn(conditions[0]), Names(conditions[1..]));
    match conditions[0] {
      case PatternCE(p) => ok := variables.RegisterAll(PatternNames(p));
      case PredicateCE(_) => ok := true;
      case NccCE(subs) => ok := RegisterConditions(subs, variables);
    }
    if ok { ok := RegisterConditions(conditions[1..], variables); }
  }

  lemma {:induction false} NumberedMembers(names: seq<Symbol>, more: seq<Symbol>)
    requires Numbered(names, more).Some?
    ensures forall x :: x in Numbered(names, more).value <==> x in names || x in more
    ensures NoDuplicates(names) ==> NoDuplicates(Numbered(names, more).value)
    ensures |names| <= MAX_VARIABLES ==> |Numbered(names, more).value| <= MAX_VARIABLES
    decreases more
  {
    if more != [] {
      assert more == [more[0]] + more[1..];
      if more[0] in names { NumberedMembers(names, more[1..]); }
      else { NumberedMembers(names + [more[0]], more[1..]); }
    }
  }

  function Distinct(names: seq<Symbol>): set<Symbol> { set x | x in names }

  lemma {:induction false} DistinctSize(names: seq<Symbol>)
    requires NoDuplicates(names)
    ensures |Distinct(names)| == |names|
  {
    if names != [] {
      var shorter := names[..|names| - 1];
      assert names == shorter + [names[|names| - 1]];
      DistinctSize(shorter);
      assert Distinct(names) == Distinct(shorter) + {names[|names| - 1]};
    }
  }

  /** Registration fails exactly when the rule has more than 65,536 distinct variables. */
  lemma {:induction false} NumberedFails(names: seq<Symbol>, more: seq<Symbol>)
    requires NoDuplicates(names) && |names| <= MAX_VARIABLES
    ensures Numbered(names, more).None? <==> |Distinct(names + more)| > MAX_VARIABLES
    decreases more
  {
    if more == [] {
      assert names + more == names;
      DistinctSize(names);
    } else if more[0] in names {
      NumberedFails(names, more[1..]);
      assert more == [more[0]] + more[1..];
      assert Distinct(names + more) == Distinct(names + more[1..]);
    } else if |names| > U16_MAX {
      var longer := names + [more[0]];
      DistinctSize(longer);
      SubsetSize(Distinct(longer), Distinct(names + more));
    } else {
      NumberedFails(names + [more[0]], more[1..]);
      assert names + more == names + [more[0]] + more[1..];
    }
  }

  lemma {:induction false} SubsetSize(a: set<Symbol>, b: set<Symbol>)
    requires a <= b
    ensures |a| <= |b|
  {
    if a != {} {
      var x :| x in a;
      SubsetSize(a - {x}, b - {x});
    }
  }

  lemma {:induction false} NamesRegistered(conditions: seq<Condition>, ids: VarIds)
    requires forall x :: x in Names(conditions) ==> x in ids
    ensures AllRegistered(conditions, ids)
    decreases conditions
  {
    if conditions != [] {
      var first := NamesIn(conditions[0]);
      assert Names(conditions) == first + Names(conditions[1..]);
      NamesRegistered(conditions[1..], ids);
      match conditions[0]
      case PatternCE(p) => PatternRegistered(p, ids);
      case PredicateCE(_) =>
      case NccCE(subs) => NamesRegistered(subs, ids);
    }
  }

  lemma PatternRegistered(p: Pattern, ids: VarIds)
    requires forall x :: x in PatternNames(p) ==> x in ids
    ensures Registered(p, ids)
  {
    forall k | 0 <= k < |p.variableSlots| ensures p.variableSlots[k].1 in ids {
      assert PatternNames(p)[k] == p.variableSlots[k].1;
    }
    forall k | 0 <= k < |p.negatedVariableSlots| ensures p.negatedVariableSlots[k].1 in ids {
      assert PatternNames(p)[|p.variableSlots| + k] == p.negatedVariableSlots[k].1;
    }
  }

  /** The complete variable map of a rule, or `None` when it has too many variables. A successful map
      answers every lookup the compiler makes, with distinct ids. */
  method PrepareVarMap(conditions: seq<Condition>) returns (variables: Option<VarMap>)
    ensures variables.None? <==> |Distinct(Names(conditions))| > MAX_VARIABLES
    ensures variables.Some? ==>
      && fresh(variables.value) && variables.value.Valid()
      && AllRegistered(conditions, variables.value.byName) && Injective(variables.value.byName)
  {
    var names := new VarMap();
    var ok := RegisterConditions(conditions, names);
    NumberedFails([], Names(conditions));
    assert [] + Names(conditions) == Names(conditions);
    if !ok { return None; }
    NumberedMembers([], Names(conditions));
    NamesRegistered(conditions, names.byName);
    return Some(names);
  }

  // ----- bindings -----

  class BindingSet {
    var bindings: seq<Option<Value>>

    /** The bound variables and their values. */
    function Bound(): Env
      reads this
    {
      map v | 0 <= v < |bindings| && bindings[v].Some? :: bindings[v].value
    }

    constructor ()
      ensures Bound() == map[]
    {
      bindings := [];
    }

    method Set(variable: VarId, value: Value)
      modifies this
      ensures Bound() == old(Bound())[variable := value]
    {
      if variable >= |bindings| {
        bindings := bindings + seq(variable + 1 - |bindings|, _ => None);
      }
      bindings := bindings[variable := Some(value)];
    }

    /** Copy what is not bound here yet: existing bindings win. */
    method ExtendFrom(other: BindingSet)
      requires other != this && |other.bindings| <= MAX_VARIABLES
      modifies this
      ensures Bound() == other.Bound() + old(Bound())
    {
      for index := 0 to |other.bindings|
        invariant Bound() == (map v | 0 <= v < index && other.bindings[v].Some? :: other.bindings[v].value) + old(Bound())
      {
        if other.bindings[index].Some? && !(index < |bindings| && bindings[index].Some?) {
          Set(index, other.bindings[index].value);
        }
      }
    }
  }
}
