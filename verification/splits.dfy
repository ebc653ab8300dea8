/** Positional splits of a fact under a sequence plan: which there are, in which order, and what a fixed selector reads. */
module Splits {
  import opened Syntax
  import opened Sequences

  /** The logical fields of one split: single values, and captures as multifields. */
  type Fields = seq<Value>

  /** The physical values a segment divides. */
  function SegmentValues(source: SequenceSource, fact: Fact): Option<seq<Value>> {
    match source
    case AllFields => if fact.entry.OrderedRelation? then Some(fact.fields) else None
    case TemplateSlot(index) =>
      if fact.entry.TemplateEntry? && index < |fact.fields|
      then Some(if fact.fields[index].Multifield? then fact.fields[index].items else [fact.fields[index]])
      else None
    case TemplateScalar(index) =>
      if fact.entry.TemplateEntry? && index < |fact.fields| then Some([fact.fields[index]]) else None
  }

  function Prepend(v: Value, splits: seq<Fields>): seq<Fields> {
    seq(|splits|, i requires 0 <= i < |splits| => [v] + splits[i])
  }

  /** The splits of one segment: a single field takes one value, a capture any number, longest first. */
  function Pieces(fields: seq<SequenceField>, values: seq<Value>): seq<Fields>
    decreases |fields|, |values| + 1
  {
    if fields == [] then (if values == [] then [[]] else [])
    else if fields[0].Single? then
      if values == [] then [] else Prepend(values[0], Pieces(fields[1..], values[1..]))
    else Captures(fields[1..], values, |values|)
  }

  /** Splits whose first field captures `length` values or fewer. */
  function Captures(rest: seq<SequenceField>, values: seq<Value>, length: nat): seq<Fields>
    requires length <= |values|
    decreases |rest| + 1, length
  {
    Prepend(Multifield(values[..length]), Pieces(rest, values[length..]))
      + if length == 0 then [] else Captures(rest, values, length - 1)
  }

  /** Every choice from the first list with every choice from the second, the first outermost. */
  function Product(outer: seq<Fields>, inner: seq<Fields>): seq<Fields> {
    if outer == [] then []
    else seq(|inner|, i requires 0 <= i < |inner| => outer[0] + inner[i]) + Product(outer[1..], inner)
  }

  function SplitsFrom(segments: seq<Segment>, fact: Fact): seq<Fields> {
    if segments == [] then [[]]
    else
      var values := SegmentValues(segments[0].source, fact);
      if values.None? then [] else Product(Pieces(segments[0].fields, values.value), SplitsFrom(segments[1..], fact))
  }

  /** All splits of a fact, in search order; a plan without segments has none. */
  function SplitsOf(plan: SequencePlan, fact: Fact): seq<Fields> {
    if plan.segments == [] then [] else SplitsFrom(plan.segments, fact)
  }

  // ----- which splits there are -----

  /** The physical values behind a list of logical fields. */
  function Flat(fields: seq<SequenceField>, split: Fields): seq<Value>
    requires |fields| == |split|
  {
    if fields == [] then []
    else (if fields[0].Multi? && split[0].Multifield? then split[0].items else [split[0]]) + Flat(fields[1..], split[1..])
  }

  /** One logical field for each pattern field, captures as multifields, and together exactly the given values. */
  ghost predicate IsSplit(fields: seq<SequenceField>, values: seq<Value>, split: Fields) {
    && |split| == |fields|
    && (forall k :: 0 <= k < |fields| && fields[k].Multi? ==> split[k].Multifield?)
    && Flat(fields, split) == values
  }

  lemma PrependMembers(v: Value, splits: seq<Fields>, s: Fields)
    ensures s in Prepend(v, splits) <==> s != [] && s[0] == v && s[1..] in splits
  {
    if s in Prepend(v, splits) {
      var i :| 0 <= i < |splits| && Prepend(v, splits)[i] == s;
      assert s[1..] == splits[i];
    }
    if s != [] && s[0] == v && s[1..] in splits {
      var i :| 0 <= i < |splits| && splits[i] == s[1..];
      assert Prepend(v, splits)[i] == s;
    }
  }

  lemma IsSplitTail(fields: seq<SequenceField>, values: seq<Value>, s: Fields)
    requires fields != [] && s != []
    ensures IsSplit(fields, values, s) <==>
      if fields[0].Single? then values != [] && s[0] == values[0] && IsSplit(fields[1..], values[1..], s[1..])
      else s[0].Multifield? && |s[0].items| <= |values| && s[0].items == values[..|s[0].items|]
           && IsSplit(fields[1..], values[|s[0].items|..], s[1..])
  {
    var rest, tail := fields[1..], s[1..];
    if |s| == |fields| {
      assert (forall k :: 0 <= k < |fields| && fields[k].Multi? ==> s[k].Multifield?) <==>
        (fields[0].Multi? ==> s[0].Multifield?) && forall k :: 0 <= k < |rest| && rest[k].Multi? ==> tail[k].Multifield? by {
        assert forall k :: 0 <= k < |rest| ==> rest[k] == fields[k + 1] && tail[k] == s[k + 1];
        assert forall k :: 1 <= k < |fields| ==> fields[k] == rest[k - 1] && s[k] == tail[k - 1];
      }
      var head := if fields[0].Multi? && s[0].Multifield? then s[0].items else [s[0]];
      assert Flat(fields, s) == head + Flat(rest, tail);
      assert (head + Flat(rest, tail))[..|head|] == head && (head + Flat(rest, tail))[|head|..] == Flat(rest, tail);
      if |head| <= |values| && head == values[..|head|] {
        assert values == head + values[|head|..];
      }
    }
  }

  /** The enumeration holds exactly the splits. */
  lemma {:induction false} PiecesAreSplits(fields: seq<SequenceField>, values: seq<Value>, s: Fields)
    ensures s in Pieces(fields, values) <==> IsSplit(fields, values, s)
    decreases |fields|, |values| + 1
  {
    if fields == [] {
      assert s in [[]] <==> s == [];
    } else if fields[0].Single? {
      if values != [] {
        PrependMembers(values[0], Pieces(fields[1..], values[1..]), s);
        if s != [] { PiecesAreSplits(fields[1..], values[1..], s[1..]); }
      }
      if s != [] { IsSplitTail(fields, values, s); }
    } else {
      CapturesAreSplits(fields, values, |values|, s);
      if s != [] { IsSplitTail(fields, values, s); }
    }
  }

  lemma {:induction false} CapturesAreSplits(fields: seq<SequenceField>, values: seq<Value>, length: nat, s: Fields)
    requires fields != [] && fields[0].Multi? && length <= |values|
    ensures s in Captures(fields[1..], values, length) <==>
      s != [] && s[0].Multifield? && |s[0].items| <= length && s[0].items == values[..|s[0].items|]
      && IsSplit(fields[1..], values[|s[0].items|..], s[1..])
    decreases |fields|, length
  {
    PrependMembers(Multifield(values[..length]), Pieces(fields[1..], values[length..]), s);
    if s != [] { PiecesAreSplits(fields[1..], values[length..], s[1..]); }
    if length > 0 { CapturesAreSplits(fields, values, length - 1, s); }
  }

  // ----- several segments -----

  lemma {:induction false} ProductMembers(outer: seq<Fields>, inner: seq<Fields>, s: Fields)
    ensures s in Product(outer, inner) <==> exists a, b :: a in outer && b in inner && s == a + b
  {
    if outer != [] {
      ProductMembers(outer[1..], inner, s);
      assert outer == [outer[0]] + outer[1..];
      var first := seq(|inner|, i requires 0 <= i < |inner| => outer[0] + inner[i]);
      if s in first {
        var i :| 0 <= i < |first| && first[i] == s;
        assert inner[i] in inner && outer[0] in outer;
      }
      if a, b :| a in outer && b in inner && s == a + b {
        if a == outer[0] {
          var i :| 0 <= i < |inner| && inner[i] == b;
          assert first[i] == s;
        } else {
          assert a in outer[1..];
        }
      }
    }
  }

  /** One part for each segment, each a split of that segment's values. */
  ghost predicate IsProjection(segments: seq<Segment>, fact: Fact, s: Fields) {
    if segments == [] then s == []
    else
      && |segments[0].fields| <= |s| && SegmentValues(segments[0].source, fact).Some?
      && IsSplit(segments[0].fields, SegmentValues(segments[0].source, fact).value, s[..|segments[0].fields|])
      && IsProjection(segments[1..], fact, s[|segments[0].fields|..])
  }

  /** The search finds exactly the projections of the fact. */
  lemma {:induction false} SplitsAreProjections(segments: seq<Segment>, fact: Fact, s: Fields)
    ensures s in SplitsFrom(segments, fact) <==> IsProjection(segments, fact, s)
  {
    if segments != [] {
      var source := SegmentValues(segments[0].source, fact);
      if source.Some? {
        var fields := segments[0].fields;
        var outer, inner := Pieces(fields, source.value), SplitsFrom(segments[1..], fact);
        ProductMembers(outer, inner, s);
        if a, b :| a in outer && b in inner && s == a + b {
          PiecesAreSplits(fields, source.value, a);
          assert s[..|fields|] == a && s[|fields|..] == b;
          SplitsAreProjections(segments[1..], fact, b);
        }
        if IsProjection(segments, fact, s) {
          var a, b := s[..|fields|], s[|fields|..];
          PiecesAreSplits(fields, source.value, a);
          SplitsAreProjections(segments[1..], fact, b);
          assert s == a + b;
        }
      }
    }
  }

  // ----- longest first -----

  /** At the first difference both have a capture and that of `a` is longer. */
  ghost predicate LongerFirst(a: Fields, b: Fields) {
    exists k :: LongerAt(a, b, k)
  }

  predicate LongerAt(a: Fields, b: Fields, k: nat) {
    && k < |a| && k < |b| && a[..k] == b[..k]
    && a[k].Multifield? && b[k].Multifield? && |a[k].items| > |b[k].items|
  }

  ghost predicate LongestFirst(splits: seq<Fields>) {
    forall i, j :: 0 <= i < j < |splits| ==> LongerFirst(splits[i], splits[j])
  }

  lemma LongerBehind(head: Fields, a: Fields, b: Fields)
    requires LongerFirst(a, b)
    ensures LongerFirst(head + a, head + b)
  {
    var k: nat :| LongerAt(a, b, k);
    assert (head + a)[..|head| + k] == head + a[..k] && (head + b)[..|head| + k] == head + b[..k];
    assert LongerAt(head + a, head + b, |head| + k);
  }

  lemma LongerBefore(a: Fields, b: Fields, x: Fields, y: Fields)
    requires LongerFirst(a, b)
    ensures LongerFirst(a + x, b + y)
  {
    var k: nat :| LongerAt(a, b, k);
    assert (a + x)[..k] == a[..k] && (b + y)[..k] == b[..k];
    assert LongerAt(a + x, b + y, k);
  }

  lemma JoinLongest(a: seq<Fields>, b: seq<Fields>)
    requires LongestFirst(a) && LongestFirst(b) && forall s, t :: s in a && t in b ==> LongerFirst(s, t)
    ensures LongestFirst(a + b)
  {
    forall i, j | 0 <= i < j < |a + b| ensures LongerFirst((a + b)[i], (a + b)[j]) {
      if i < |a| <= j { assert a[i] in a && b[j - |a|] in b; }
    }
  }

  lemma PrependLongest(v: Value, splits: seq<Fields>)
    requires LongestFirst(splits)
    ensures LongestFirst(Prepend(v, splits))
  {
    var longer := Prepend(v, splits);
    forall i, j | 0 <= i < j < |longer| ensures LongerFirst(longer[i], longer[j]) { LongerBehind([v], splits[i], splits[j]); }
  }

  /** Each capture tries its longest length first, earlier captures outermost. */
  lemma {:induction false} PiecesLongestFirst(fields: seq<SequenceField>, values: seq<Value>)
    ensures LongestFirst(Pieces(fields, values))
    decreases |fields|, |values| + 1
  {
    if fields != [] {
      if fields[0].Single? {
        if values != [] {
          PiecesLongestFirst(fields[1..], values[1..]);
          PrependLongest(values[0], Pieces(fields[1..], values[1..]));
        }
      } else {
        CapturesLongestFirst(fields, values, |values|);
      }
    }
  }

  lemma {:induction false} CapturesLongestFirst(fields: seq<SequenceField>, values: seq<Value>, length: nat)
    requires fields != [] && fields[0].Multi? && length <= |values|
    ensures LongestFirst(Captures(fields[1..], values, length))
    decreases |fields|, length
  {
    var v, rest := Multifield(values[..length]), Pieces(fields[1..], values[length..]);
    PiecesLongestFirst(fields[1..], values[length..]);
    PrependLongest(v, rest);
    if length > 0 {
      var shorter := Captures(fields[1..], values, length - 1);
      CapturesLongestFirst(fields, values, length - 1);
      forall s, t | s in Prepend(v, rest) && t in shorter ensures LongerFirst(s, t) {
        PrependMembers(v, rest, s);
        CapturesAreSplits(fields, values, length - 1, t);
        assert LongerAt(s, t, 0);
      }
      JoinLongest(Prepend(v, rest), shorter);
    }
  }

  lemma {:induction false} ProductLongest(outer: seq<Fields>, inner: seq<Fields>)
    requires LongestFirst(outer) && LongestFirst(inner)
    ensures LongestFirst(Product(outer, inner))
  {
    hide LongerFirst;
    if outer != [] {
      var rest := outer[1..];
      assert forall i :: 0 <= i < |rest| ==> rest[i] == outer[i + 1];
      ProductLongest(rest, inner);
      var first := seq(|inner|, i requires 0 <= i < |inner| => outer[0] + inner[i]);
      forall i, j | 0 <= i < j < |first| ensures LongerFirst(first[i], first[j]) { LongerBehind(outer[0], inner[i], inner[j]); }
      forall s, t | s in first && t in Product(rest, inner) ensures LongerFirst(s, t) {
        var i :| 0 <= i < |first| && first[i] == s;
        ProductMembers(rest, inner, t);
        var a, b :| a in rest && b in inner && t == a + b;
        var j :| 0 <= j < |rest| && rest[j] == a;
        LongerBefore(outer[0], outer[j + 1], inner[i], b);
      }
      JoinLongest(first, Product(rest, inner));
    }
  }

  lemma {:induction false} SplitsLongestFirst(segments: seq<Segment>, fact: Fact)
    ensures LongestFirst(SplitsFrom(segments, fact))
  {
    if segments != [] && SegmentValues(segments[0].source, fact).Some? {
      PiecesLongestFirst(segments[0].fields, SegmentValues(segments[0].source, fact).value);
      SplitsLongestFirst(segments[1..], fact);
      ProductLongest(Pieces(segments[0].fields, SegmentValues(segments[0].source, fact).value), SplitsFrom(segments[1..], fact));
    }
  }

  /** So no split is found twice. */
  lemma SplitsDistinct(segments: seq<Segment>, fact: Fact)
    ensures NoDuplicates(SplitsFrom(segments, fact))
  {
    SplitsLongestFirst(segments, fact);
    var splits := SplitsFrom(segments, fact);
    forall i, j | 0 <= i < j < |splits| ensures splits[i] != splits[j] {
      assert LongerFirst(splits[i], splits[j]);
      var k: nat :| LongerAt(splits[i], splits[j], k);
    }
  }

  // ----- reading logical fields -----

  /** The value of a logical field of a split. */
  function LogicalField(fact: Fact, split: Fields, slot: SlotIndex): Option<Value> {
    if fact.entry.OrderedRelation? == slot.Ordered? && slot.position < |split| then Some(split[slot.position]) else None
  }

  /** The first logical position of segment `j`. */
  function Start(segments: seq<Segment>, j: nat): nat
    requires j <= |segments|
  {
    if j == 0 then 0 else |segments[0].fields| + Start(segments[1..], j - 1)
  }

  /** Position `i` of segment `j` is logical position `position`. */
  predicate Covers(segments: seq<Segment>, position: nat, j: nat, i: nat) {
    j < |segments| && i < |segments[j].fields| && position == Start(segments, j) + i
  }

  /** A logical position is below the width exactly when some field of some segment stands there. */
  lemma {:induction false} WidthCoversFields(segments: seq<Segment>, position: nat)
    ensures position < TotalWidth(segments) <==> exists j: nat, i: nat :: Covers(segments, position, j, i)
  {
    if segments != [] {
      var here := |segments[0].fields|;
      if position < here {
        assert Covers(segments, position, 0, position);
      } else {
        var left := position - here;
        WidthCoversFields(segments[1..], left);
        if j: nat, i: nat :| Covers(segments[1..], left, j, i) { assert Covers(segments, position, j + 1, i); }
        if j: nat, i: nat :| Covers(segments, position, j, i) { assert j > 0 && Covers(segments[1..], left, j - 1, i); }
      }
    }
  }

  /** Every projection has a value for each logical field of the plan and no more. */
  lemma {:induction false} ProjectionWidth(segments: seq<Segment>, fact: Fact, s: Fields)
    requires IsProjection(segments, fact, s)
    ensures |s| == TotalWidth(segments)
  {
    if segments != [] { ProjectionWidth(segments[1..], fact, s[|segments[0].fields|..]); }
  }

  /** A slot is valid exactly when it reads a field of every split of every fact of the plan's kind. */
  lemma ValidSlotReads(plan: SequencePlan, fact: Fact, s: Fields, slot: SlotIndex)
    requires s in SplitsOf(plan, fact) && fact.entry.OrderedRelation? == plan.IsOrdered()
    ensures plan.ValidSlot(slot) <==> LogicalField(fact, s, slot).Some?
  {
    SplitsAreProjections(plan.segments, fact, s);
    ProjectionWidth(plan.segments, fact, s);
  }

  // ----- physical selectors -----

  lemma {:induction false} SinglesReadInPlace(fields: seq<SequenceField>, values: seq<Value>, s: Fields, position: nat)
    requires IsSplit(fields, values, s) && position < |fields| && forall k :: 0 <= k <= position ==> fields[k].Single?
    ensures position < |values| && s[position] == values[position]
    decreases position
  {
    IsSplitTail(fields, values, s);
    if position > 0 { SinglesReadInPlace(fields[1..], values[1..], s[1..], position - 1); }
  }

  lemma {:induction false} ScalarReadsSlot(segments: seq<Segment>, fact: Fact, s: Fields, position: nat)
    requires IsProjection(segments, fact, s) && ScalarSelector(segments, position).Some?
    requires forall k :: 0 <= k < |segments| && segments[k].source.TemplateScalar? ==> segments[k].fields == [Single]
    ensures position < |s| && SlotValue(fact, ScalarSelector(segments, position).value) == Some(s[position])
  {
    var here := |segments[0].fields|;
    if position < here {
      var part := s[..here];
      assert segments[0].fields == [Single] && part[0] == s[0];
      SinglesReadInPlace(segments[0].fields, SegmentValues(segments[0].source, fact).value, part, 0);
    } else {
      assert forall k :: 0 <= k < |segments[1..]| ==> segments[1..][k] == segments[k + 1];
      ScalarReadsSlot(segments[1..], fact, s[here..], position - here);
    }
  }

  /** Under every split a physical selector reads the same field as the logical slot it stands for: an index on it
      answers for the logical test. */
  lemma SelectorReadsLogicalField(plan: SequencePlan, fact: Fact, s: Fields, slot: SlotIndex)
    requires PlanOk(plan) && s in SplitsOf(plan, fact) && PhysicalSelector(plan, slot).Some?
    requires fact.entry.OrderedRelation? == plan.IsOrdered()
    ensures LogicalField(fact, s, slot).Some? && SlotValue(fact, PhysicalSelector(plan, slot).value) == LogicalField(fact, s, slot)
  {
    SplitsAreProjections(plan.segments, fact, s);
    match slot
    case Ordered(position) =>
      assert s[..|plan.segments[0].fields|] == s by { ProjectionWidth(plan.segments, fact, s); }
      SinglesReadInPlace(plan.segments[0].fields, fact.fields, s, position);
    case Template(position) =>
      ScalarReadsSlot(plan.segments, fact, s, position);
  }
}
