/** NCC memory: which results block which parent, and why removals settle alike in any order. */
module NccMemories {
  import opened Syntax
  import opened Sequences

  /** The six maps: result count, owner, results (oldest first), primary result, block order, pass-through. */
  datatype State = State(
    count: map<TokenId, nat>,
    owner: map<TokenId, TokenId>,
    results: map<TokenId, seq<TokenId>>,
    primary: map<TokenId, TokenId>,
    order: map<TokenId, nat>,
    unblocked: map<TokenId, TokenId>)

  const EMPTY: State := State(map[], map[], map[], map[], map[], map[])

  function Count(s: State, p: TokenId): nat { if p in s.count then s.count[p] else 0 }

  function ResultsOf(s: State, p: TokenId): seq<TokenId> { if p in s.results then s.results[p] else [] }

  /** A parent is in all four maps or in none; its count is the number of its results and its primary the oldest. */
  ghost predicate ParentOk(s: State, p: TokenId) {
    && (p in s.results <==> p in s.count) && (p in s.results <==> p in s.primary) && (p in s.results <==> p in s.order)
    && (p in s.results ==>
          s.results[p] != [] && NoDuplicates(s.results[p]) && s.count[p] == |s.results[p]| && s.primary[p] == s.results[p][0])
  }

  /** The owner map is the inverse of the result lists. */
  ghost predicate OwnerOk(s: State, r: TokenId, p: TokenId) {
    (r in s.owner && s.owner[r] == p) <==> r in ResultsOf(s, p)
  }

  ghost predicate Sound(s: State) {
    (forall p :: ParentOk(s, p)) && (forall r, p :: OwnerOk(s, r, p))
  }

  /** No parent is both blocked and passed through. */
  ghost predicate Exclusive(s: State) {
    forall p :: p in s.unblocked ==> p !in s.count
  }

  // ----- the operations on the six maps -----

  function WithResult(s: State, p: TokenId, r: TokenId, order: nat): State {
    if r in s.owner then s
    else
      var first := Count(s, p) == 0;
      s.(count := s.count[p := Count(s, p) + 1],
         owner := s.owner[r := p],
         results := s.results[p := if r in ResultsOf(s, p) then ResultsOf(s, p) else ResultsOf(s, p) + [r]],
         primary := if first then s.primary[p := r] else s.primary,
         order := if first then s.order[p := order] else s.order)
  }

  function Decremented(count: map<TokenId, nat>, p: TokenId): map<TokenId, nat> {
    if p !in count then count else if count[p] <= 1 then count - {p} else count[p := count[p] - 1]
  }

  function WithoutSupport(s: State, r: TokenId): State {
    if r !in s.owner then s
    else
      var p := s.owner[r];
      s.(owner := s.owner - {r},
         results := if p !in s.results then s.results
                    else if Without(s.results[p], r) == [] then s.results - {p}
                    else s.results[p := Without(s.results[p], r)],
         count := Decremented(s.count, p))
  }

  function Reassigned(s: State, p: TokenId, order: nat): State {
    if p in s.results && s.results[p] != []
    then s.(primary := s.primary[p := s.results[p][0]], order := s.order[p := order])
    else s.(primary := s.primary - {p}, order := s.order - {p})
  }

  function WithoutResult(s: State, r: TokenId, order: nat): State {
    if r !in s.owner then s
    else
      var p := s.owner[r];
      var left := WithoutSupport(s, r);
      if p in left.primary && left.primary[p] == r then Reassigned(left, p, order) else left
  }

  function WithoutParent(s: State, p: TokenId): State {
    s.(count := s.count - {p},
       owner := map r | r in s.owner && r !in ResultsOf(s, p) :: s.owner[r],
       results := s.results - {p}, primary := s.primary - {p}, order := s.order - {p}, unblocked := s.unblocked - {p})
  }

  // ----- each keeps the memory sound -----

  /** A first result is recorded as the parent's primary with the order it came with; a later one changes neither, and
      no other parent's primary or order changes. */
  ghost predicate Stamped(s: State, after: State, p: TokenId, r: TokenId, order: nat) {
    && p in after.primary && p in after.order
    && (ResultsOf(s, p) == [] ==> after.primary[p] == r && after.order[p] == order)
    && (ResultsOf(s, p) != [] ==> p in s.primary && p in s.order && after.primary[p] == s.primary[p] && after.order[p] == s.order[p])
    && forall q :: q != p ==> SameStamp(s, after, q)
  }

  ghost predicate SameStamp(s: State, after: State, q: TokenId) {
    && (q in after.primary <==> q in s.primary) && (q in s.primary ==> after.primary[q] == s.primary[q])
    && (q in after.order <==> q in s.order) && (q in s.order ==> after.order[q] == s.order[q])
  }

  lemma WithResultSound(s: State, p: TokenId, r: TokenId, order: nat)
    requires Sound(s)
    ensures var after := WithResult(s, p, r, order);
      && Sound(after)
      && (r !in s.owner ==> ResultsOf(after, p) == ResultsOf(s, p) + [r] && Count(after, p) == Count(s, p) + 1)
      && (forall q :: q != p ==> ResultsOf(after, q) == ResultsOf(s, q))
      && (Exclusive(s) ==> forall q :: q in after.unblocked && q in after.count ==> q == p && Count(s, p) == 0)
      && (r !in s.owner ==> Stamped(s, after, p, r, order))
  {
    if r !in s.owner {
      var after := WithResult(s, p, r, order);
      assert OwnerOk(s, r, p) && ParentOk(s, p);
      assert p in s.results ==> s.results[p][0] in ResultsOf(s, p);
      forall q ensures ParentOk(after, q) { assert ParentOk(s, q); }
      forall x, q ensures OwnerOk(after, x, q) { assert OwnerOk(s, x, q); }
      if Exclusive(s) {
        forall q | q in after.unblocked && q in after.count ensures q == p && Count(s, p) == 0 { assert ParentOk(s, q); }
      }
    }
  }

  /** Without the results `gone`; a parent that lost its primary gets the oldest survivor and the new order. */
  function FilterOut(s: seq<TokenId>, gone: set<TokenId>): seq<TokenId> {
    if s == [] then [] else (if s[0] in gone then [] else [s[0]]) + FilterOut(s[1..], gone)
  }

  function Left(s: State, gone: set<TokenId>): map<TokenId, seq<TokenId>> {
    map p | p in s.results && FilterOut(s.results[p], gone) != [] :: FilterOut(s.results[p], gone)
  }

  function LeftCount(s: State, gone: set<TokenId>): map<TokenId, nat> {
    map p | p in s.results && FilterOut(s.results[p], gone) != [] :: |FilterOut(s.results[p], gone)|
  }

  function OrderAfter(s: State, gone: set<TokenId>, order: nat, p: TokenId): nat {
    if p in s.order && !(p in s.primary && s.primary[p] in gone) then s.order[p] else order
  }

  /** The settled memory after losing `gone`. */
  function Pruned(s: State, gone: set<TokenId>, order: nat): State {
    State(LeftCount(s, gone),
          map r | r in s.owner && r !in gone :: s.owner[r],
          Left(s, gone),
          map p | p in s.results && FilterOut(s.results[p], gone) != [] :: FilterOut(s.results[p], gone)[0],
          map p | p in s.results && FilterOut(s.results[p], gone) != [] :: OrderAfter(s, gone, order, p),
          s.unblocked)
  }

  lemma {:induction false} FilterOutMembers(s: seq<TokenId>, gone: set<TokenId>)
    ensures forall x :: x in FilterOut(s, gone) <==> x in s && x !in gone
    ensures NoDuplicates(s) ==> NoDuplicates(FilterOut(s, gone))
    ensures |FilterOut(s, gone)| <= |s|
  {
    if s != [] {
      var rest := s[1..];
      assert s == [s[0]] + rest;
      FilterOutMembers(rest, gone);
      if NoDuplicates(s) {
        assert forall i, j :: 0 <= i < j < |rest| ==> rest[i] == s[i + 1] && rest[j] == s[j + 1];
        assert s[0] !in rest;
      }
    }
  }

  lemma {:induction false} FilterOutOne(s: seq<TokenId>, r: TokenId)
    ensures FilterOut(s, {r}) == Without(s, r)
  {
    if s != [] { FilterOutOne(s[1..], r); }
  }

  lemma {:induction false} FilterOutNone(s: seq<TokenId>, gone: set<TokenId>)
    requires forall x :: x in s ==> x !in gone
    ensures FilterOut(s, gone) == s
  {
    if s != [] {
      assert s[0] in s && forall x :: x in s[1..] ==> x in s;
      FilterOutNone(s[1..], gone);
    }
  }

  lemma {:induction false} FilterOutTwice(s: seq<TokenId>, a: set<TokenId>, b: set<TokenId>)
    ensures FilterOut(FilterOut(s, a), b) == FilterOut(s, a + b)
  {
    if s != [] {
      FilterOutTwice(s[1..], a, b);
      var rest := FilterOut(s[1..], a);
      if s[0] !in a {
        assert FilterOut(s, a) == [s[0]] + rest && ([s[0]] + rest)[1..] == rest;
      } else {
        assert FilterOut(s, a) == rest;
      }
    }
  }

  /** The first survivor is the old head exactly when the head survives. */
  lemma FilterOutHead(s: seq<TokenId>, gone: set<TokenId>)
    requires s != [] && s[0] !in gone
    ensures FilterOut(s, gone) != [] && FilterOut(s, gone)[0] == s[0]
  {
  }

  lemma PrunedSound(s: State, gone: set<TokenId>, order: nat)
    requires Sound(s)
    ensures Sound(Pruned(s, gone, order))
  {
    var after := Pruned(s, gone, order);
    forall p ensures ParentOk(after, p) {
      assert ParentOk(s, p);
      if p in s.results { FilterOutMembers(s.results[p], gone); }
    }
    forall r, p ensures OwnerOk(after, r, p) {
      assert OwnerOk(s, r, p);
      if p in s.results { FilterOutMembers(s.results[p], gone); }
    }
  }

  /** The parent keeps its order, or takes the new one if its oldest result is gone. */
  ghost predicate Restamped(s: State, after: State, gone: set<TokenId>, order: nat, p: TokenId) {
    && p in s.results && s.results[p] != [] && p in s.order && p in after.order
    && after.order[p] == if s.results[p][0] in gone then order else s.order[p]
  }

  /** A parent with survivors is restamped and has its oldest survivor as primary; one without is forgotten. */
  lemma PrunedStamp(s: State, gone: set<TokenId>, order: nat, p: TokenId)
    requires Sound(s) && p in s.results
    ensures var after, left := Pruned(s, gone, order), FilterOut(s.results[p], gone);
      && (p in after.order <==> left != []) && (p in after.primary <==> left != [])
      && (left != [] ==> after.primary[p] == left[0] && Restamped(s, after, gone, order, p))
  {
    assert ParentOk(s, p);
  }

  // ----- one removal is pruning one result -----

  lemma WithoutIsPruned(s: State, r: TokenId, order: nat)
    requires Sound(s)
    ensures WithoutResult(s, r, order) == Pruned(s, {r}, order)
  {
    hide WithoutResult, Pruned, Sound;
    var after, pruned := WithoutResult(s, r, order), Pruned(s, {r}, order);
    forall p ensures SameParent(after, pruned, p) { OneParent(s, r, order, p); }
    SameParents(after, pruned);
    OneOwner(s, r, order);
  }

  lemma OneOwner(s: State, r: TokenId, order: nat)
    ensures WithoutResult(s, r, order).owner == Pruned(s, {r}, order).owner
    ensures WithoutResult(s, r, order).unblocked == Pruned(s, {r}, order).unblocked
  {
    OwnerWithout(s, r, order);
    hide WithoutResult, Left, LeftCount;
    assert (map x | x in s.owner && x !in {r} :: s.owner[x]) == s.owner - {r};
  }

  lemma OwnerWithout(s: State, r: TokenId, order: nat)
    ensures WithoutResult(s, r, order).owner == s.owner - {r} && WithoutResult(s, r, order).unblocked == s.unblocked
  {
    if r !in s.owner { assert s.owner - {r} == s.owner; }
  }

  /** Two states agree on everything they say about parent `p`. */
  ghost predicate SameParent(a: State, b: State, p: TokenId) {
    && (p in a.count <==> p in b.count) && (p in a.count ==> a.count[p] == b.count[p])
    && (p in a.results <==> p in b.results) && (p in a.results ==> a.results[p] == b.results[p])
    && (p in a.primary <==> p in b.primary) && (p in a.primary ==> a.primary[p] == b.primary[p])
    && (p in a.order <==> p in b.order) && (p in a.order ==> a.order[p] == b.order[p])
  }

  lemma SameParents(a: State, b: State)
    requires forall p :: SameParent(a, b, p)
    ensures a.count == b.count && a.results == b.results && a.primary == b.primary && a.order == b.order
  {
    assert forall p :: p in a.count ==> SameParent(a, b, p);
    assert forall p :: p in b.count ==> SameParent(a, b, p);
    assert forall p :: p in a.results ==> SameParent(a, b, p);
    assert forall p :: p in b.results ==> SameParent(a, b, p);
    assert forall p :: p in a.primary ==> SameParent(a, b, p);
    assert forall p :: p in b.primary ==> SameParent(a, b, p);
    assert forall p :: p in a.order ==> SameParent(a, b, p);
    assert forall p :: p in b.order ==> SameParent(a, b, p);
  }

  lemma OneParent(s: State, r: TokenId, order: nat, p: TokenId)
    requires Sound(s)
    ensures SameParent(WithoutResult(s, r, order), Pruned(s, {r}, order), p)
  {
    assert ParentOk(s, p) && OwnerOk(s, r, p);
    hide Sound;
    if r in s.owner && s.owner[r] == p { OwningParent(s, r, order); } else { OtherParent(s, r, order, p); }
  }

  lemma OtherParent(s: State, r: TokenId, order: nat, p: TokenId)
    requires ParentOk(s, p) && r !in ResultsOf(s, p) && (r in s.owner ==> s.owner[r] != p)
    ensures SameParent(WithoutResult(s, r, order), Pruned(s, {r}, order), p)
  {
    OtherParentKept(s, r, order, p);
    OtherParentPruned(s, r, order, p);
    hide WithoutResult, Pruned;
  }

  lemma OtherParentKept(s: State, r: TokenId, order: nat, p: TokenId)
    requires r in s.owner ==> s.owner[r] != p
    ensures SameParent(WithoutResult(s, r, order), s, p)
  {
  }

  lemma OtherParentPruned(s: State, r: TokenId, order: nat, p: TokenId)
    requires ParentOk(s, p) && r !in ResultsOf(s, p)
    ensures SameParent(Pruned(s, {r}, order), s, p)
  {
    if p in s.results { FilterOutNone(s.results[p], {r}); }
  }

  lemma OwningParent(s: State, r: TokenId, order: nat)
    requires r in s.owner && ParentOk(s, s.owner[r]) && r in ResultsOf(s, s.owner[r])
    ensures SameParent(WithoutResult(s, r, order), Pruned(s, {r}, order), s.owner[r])
  {
    var p := s.owner[r];
    FilterOutOne(s.results[p], r);
    WithoutDistinct(s.results[p], r);
    if s.primary[p] != r { FilterOutHead(s.results[p], {r}); }
  }

  lemma PrunedTwice(s: State, a: set<TokenId>, b: set<TokenId>, order: nat)
    requires Sound(s)
    ensures Pruned(Pruned(s, a, order), b, order) == Pruned(s, a + b, order)
  {
    var once := Pruned(s, a, order);
    var twice, both := Pruned(once, b, order), Pruned(s, a + b, order);
    forall p ensures SameParent(twice, both, p) { ParentPrunedTwice(s, a, b, order, p); }
    SameParents(twice, both);
    OwnersPrunedTwice(s, a, b, order);
    hide Pruned;
  }

  lemma OwnersPrunedTwice(s: State, a: set<TokenId>, b: set<TokenId>, order: nat)
    ensures Pruned(Pruned(s, a, order), b, order).owner == Pruned(s, a + b, order).owner
    ensures Pruned(Pruned(s, a, order), b, order).unblocked == Pruned(s, a + b, order).unblocked
  {
    hide Left, LeftCount, OrderAfter, FilterOut;
  }

  /** What pruning leaves of one parent. */
  lemma PrunedParent(s: State, gone: set<TokenId>, order: nat, p: TokenId)
    ensures var after, rest := Pruned(s, gone, order), FilterOut(ResultsOf(s, p), gone);
      && (p in after.results <==> p in s.results && rest != []) && (p in after.results ==> after.results[p] == rest)
      && (p in after.count <==> p in s.results && rest != []) && (p in after.count ==> after.count[p] == |rest|)
      && (p in after.primary <==> p in s.results && rest != []) && (p in after.primary ==> after.primary[p] == rest[0])
      && (p in after.order <==> p in s.results && rest != []) && (p in after.order ==> after.order[p] == OrderAfter(s, gone, order, p))
  {
  }

  lemma ParentPrunedTwice(s: State, a: set<TokenId>, b: set<TokenId>, order: nat, p: TokenId)
    requires Sound(s)
    ensures SameParent(Pruned(Pruned(s, a, order), b, order), Pruned(s, a + b, order), p)
  {
    assert ParentOk(s, p);
    hide Sound;
    PrunedParent(s, a, order, p);
    PrunedParent(Pruned(s, a, order), b, order, p);
    PrunedParent(s, a + b, order, p);
    hide Pruned, Left, LeftCount;
    if p in s.results {
      FilterOutTwice(s.results[p], a, b);
      FilterOutMembers(FilterOut(s.results[p], a), b);
      if s.primary[p] !in a { FilterOutHead(s.results[p], a); }
    }
  }

  // ----- batches -----

  /** Removing results one by one. */
  function WithoutEach(s: State, rs: seq<TokenId>, order: nat): State {
    if rs == [] then s else WithoutResult(WithoutEach(s, rs[..|rs| - 1], order), rs[|rs| - 1], order)
  }

  /** Removing only the supports, leaving primaries for later. */
  function WithoutSupports(s: State, rs: seq<TokenId>): State {
    if rs == [] then s else WithoutSupport(WithoutSupports(s, rs[..|rs| - 1]), rs[|rs| - 1])
  }

  /** Settling parents one by one. */
  function ReassignedEach(s: State, ps: seq<TokenId>, order: nat): State {
    if ps == [] then s else Reassigned(ReassignedEach(s, ps[..|ps| - 1], order), ps[|ps| - 1], order)
  }

  function Elements(rs: seq<TokenId>): set<TokenId> { set r | r in rs }

  lemma PrunedNothing(s: State, order: nat)
    requires Sound(s)
    ensures Pruned(s, {}, order) == s
  {
    forall p ensures SameParent(Pruned(s, {}, order), s, p) {
      assert ParentOk(s, p);
      if p in s.results { FilterOutNone(s.results[p], {}); }
    }
    SameParents(Pruned(s, {}, order), s);
    assert Pruned(s, {}, order).owner == s.owner;
  }

  /** Removing results one by one, in any order and with repeats, gives the pruned memory. */
  lemma {:induction false} WithoutEachIsPruned(s: State, rs: seq<TokenId>, order: nat)
    requires Sound(s)
    ensures WithoutEach(s, rs, order) == Pruned(s, Elements(rs), order)
  {
    if rs == [] {
      PrunedNothing(s, order);
      assert Elements(rs) == {};
    } else {
      var last, before := rs[|rs| - 1], rs[..|rs| - 1];
      WithoutEachIsPruned(s, before, order);
      PrunedSound(s, Elements(before), order);
      WithoutIsPruned(Pruned(s, Elements(before), order), last, order);
      PrunedTwice(s, Elements(before), {last}, order);
      assert rs == before + [last];
      assert Elements(rs) == Elements(before) + {last};
    }
  }

  /** The memory after only the supports of `gone` left: results, counts and owners pruned, primaries as they were. */
  ghost predicate Unsettled(s: State, gone: set<TokenId>, left: State) {
    && left.results == Left(s, gone) && left.count == LeftCount(s, gone)
    && left.owner == (map r | r in s.owner && r !in gone :: s.owner[r])
    && left.primary == s.primary && left.order == s.order && left.unblocked == s.unblocked
  }

  lemma {:induction false} WithoutSupportsUnsettled(s: State, rs: seq<TokenId>)
    requires Sound(s)
    ensures Unsettled(s, Elements(rs), WithoutSupports(s, rs))
  {
    if rs == [] {
      PrunedNothing(s, 0);
      assert Elements(rs) == {};
    } else {
      var last, before := rs[|rs| - 1], rs[..|rs| - 1];
      WithoutSupportsUnsettled(s, before);
      assert rs == before + [last];
      assert Elements(rs) == Elements(before) + {last};
      UnsettledStep(s, Elements(before), WithoutSupports(s, before), last);
    }
  }

  lemma UnsettledStep(s: State, gone: set<TokenId>, left: State, r: TokenId)
    requires Sound(s) && Unsettled(s, gone, left)
    ensures Unsettled(s, gone + {r}, WithoutSupport(left, r))
  {
    var after := WithoutSupport(left, r);
    forall p ensures SameList(after, s, gone + {r}, p) { UnsettledParent(s, gone, left, r, p); }
    SameLists(after, s, gone + {r});
    assert after.owner == map x | x in s.owner && x !in gone + {r} :: s.owner[x];
  }

  ghost predicate SameList(a: State, s: State, gone: set<TokenId>, p: TokenId) {
    && (p in a.results <==> p in Left(s, gone)) && (p in a.results ==> a.results[p] == Left(s, gone)[p])
    && (p in a.count <==> p in LeftCount(s, gone)) && (p in a.count ==> a.count[p] == LeftCount(s, gone)[p])
  }

  lemma SameLists(a: State, s: State, gone: set<TokenId>)
    requires forall p :: SameList(a, s, gone, p)
    ensures a.results == Left(s, gone) && a.count == LeftCount(s, gone)
  {
    assert forall p :: p in a.results ==> SameList(a, s, gone, p);
    assert forall p :: p in Left(s, gone) ==> SameList(a, s, gone, p);
    assert forall p :: p in a.count ==> SameList(a, s, gone, p);
    assert forall p :: p in LeftCount(s, gone) ==> SameList(a, s, gone, p);
  }

  lemma UnsettledParent(s: State, gone: set<TokenId>, left: State, r: TokenId, p: TokenId)
    requires Sound(s) && Unsettled(s, gone, left)
    ensures SameList(WithoutSupport(left, r), s, gone + {r}, p)
  {
    assert ParentOk(s, p) && OwnerOk(s, r, p);
    if p in s.results {
      var rest := FilterOut(s.results[p], gone);
      FilterOutTwice(s.results[p], gone, {r});
      FilterOutOne(rest, r);
      FilterOutMembers(s.results[p], gone);
      if r in rest { WithoutDistinct(rest, r); } else { WithoutAbsent(rest, r); }
    }
  }

  /** The parents whose primary is among `gone`. */
  ghost predicate LostPrimary(s: State, gone: set<TokenId>, p: TokenId) {
    p in s.primary && s.primary[p] in gone
  }

  lemma {:induction false} ReassignedEachParent(s: State, ps: seq<TokenId>, order: nat, p: TokenId)
    ensures var after := ReassignedEach(s, ps, order);
      && after.results == s.results && after.count == s.count && after.owner == s.owner && after.unblocked == s.unblocked
      && (p !in ps ==> (p in after.primary <==> p in s.primary) && (p in s.primary ==> after.primary[p] == s.primary[p]))
      && (p !in ps ==> (p in after.order <==> p in s.order) && (p in s.order ==> after.order[p] == s.order[p]))
      && (p in ps ==> (p in after.primary <==> ResultsOf(s, p) != []) && (p in after.order <==> ResultsOf(s, p) != []))
      && (p in ps && ResultsOf(s, p) != [] ==> after.primary[p] == ResultsOf(s, p)[0] && after.order[p] == order)
  {
    if ps != [] {
      var last, before := ps[|ps| - 1], ps[..|ps| - 1];
      assert ps == before + [last];
      ReassignedEachParent(s, before, order, p);
    }
  }

  lemma SettledParent(s: State, rs: seq<TokenId>, ps: seq<TokenId>, order: nat, p: TokenId)
    requires Sound(s) && forall q :: q in ps <==> LostPrimary(s, Elements(rs), q)
    ensures SameParent(ReassignedEach(WithoutSupports(s, rs), ps, order), Pruned(s, Elements(rs), order), p)
  {
    var left := WithoutSupports(s, rs);
    WithoutSupportsUnsettled(s, rs);
    ReassignedEachParent(left, ps, order, p);
    assert ParentOk(s, p);
    if p in s.results && s.primary[p] !in Elements(rs) { FilterOutHead(s.results[p], Elements(rs)); }
  }

  /** Removal is confluent: with one replacement order, removing results one by one in any order is the same as
      removing all supports first and then settling each parent that lost its primary, once, in any order. */
  lemma RemovalIsConfluent(s: State, rs: seq<TokenId>, others: seq<TokenId>, ps: seq<TokenId>, order: nat)
    requires Sound(s) && Elements(others) == Elements(rs)
    requires forall p :: p in ps <==> LostPrimary(s, Elements(rs), p)
    ensures WithoutEach(s, rs, order) == WithoutEach(s, others, order)
    ensures ReassignedEach(WithoutSupports(s, rs), ps, order) == WithoutEach(s, rs, order)
    ensures Sound(WithoutEach(s, rs, order))
  {
    WithoutEachIsPruned(s, rs, order);
    WithoutEachIsPruned(s, others, order);
    PrunedSound(s, Elements(rs), order);
    var settled, pruned := ReassignedEach(WithoutSupports(s, rs), ps, order), Pruned(s, Elements(rs), order);
    forall p ensures SameParent(settled, pruned, p) { SettledParent(s, rs, ps, order, p); }
    SameParents(settled, pruned);
    WithoutSupportsUnsettled(s, rs);
    ReassignedEachParent(WithoutSupports(s, rs), ps, order, 0);
  }

  // ----- before a removal is settled -----

  /** After the supports alone are gone, the memory is sound exactly when no parent lost its primary. */
  lemma UnsettledIsSound(s: State, rs: seq<TokenId>)
    requires Sound(s)
    ensures Sound(WithoutSupports(s, rs)) <==> forall p :: !LostPrimary(s, Elements(rs), p)
  {
    var left, gone := WithoutSupports(s, rs), Elements(rs);
    if forall p :: !LostPrimary(s, gone, p) {
      RemovalIsConfluent(s, rs, rs, [], 0);
    } else {
      var p :| LostPrimary(s, gone, p);
      WithoutSupportsUnsettled(s, rs);
      assert ParentOk(s, p);
      FilterOutMembers(s.results[p], gone);
      assert !ParentOk(left, p);
    }
  }

  /** `r` is the primary result of the parent it blocks. */
  predicate IsPrimary(s: State, r: TokenId) {
    r in s.owner && s.owner[r] in s.primary && s.primary[s.owner[r]] == r
  }

  /** Removing one support keeps the memory sound exactly when the result was not its parent's primary. */
  lemma SupportIsSound(s: State, r: TokenId)
    requires Sound(s)
    ensures Sound(WithoutSupport(s, r)) <==> !IsPrimary(s, r)
  {
    UnsettledIsSound(s, [r]);
    assert [r][..0] == [] && WithoutSupports(s, [r]) == WithoutSupport(s, r);
    assert Elements([r]) == {r};
    forall p ensures LostPrimary(s, {r}, p) <==> IsPrimary(s, r) && s.owner[r] == p {
      assert ParentOk(s, p) && OwnerOk(s, r, p);
    }
    if IsPrimary(s, r) { assert LostPrimary(s, {r}, s.owner[r]); }
  }

  /** With the results 10 and 11 of parent 1, losing the support of 10 leaves 10 recorded as the primary. */
  lemma LostPrimaryIsUnsound()
    ensures var s := WithResult(WithResult(EMPTY, 1, 10, 0), 1, 11, 1);
      var left := WithoutSupport(s, 10);
      Sound(s) && ResultsOf(left, 1) == [11] && 1 in left.primary && left.primary[1] == 10 && !Sound(left)
  {
    EmptySound();
    var one := WithResult(EMPTY, 1, 10, 0);
    WithResultSound(EMPTY, 1, 10, 0);
    WithResultSound(one, 1, 11, 1);
    var s := WithResult(one, 1, 11, 1);
    assert s.results[1] == [10, 11];
    SupportIsSound(s, 10);
    assert [10, 11][1..] == [11] && [11][1..] == [];
    assert Without([10, 11], 10) == [11];
  }

  lemma WithoutParentSound(s: State, p: TokenId)
    requires Sound(s)
    ensures Sound(WithoutParent(s, p)) && (Exclusive(s) ==> Exclusive(WithoutParent(s, p)))
    ensures ResultsOf(WithoutParent(s, p), p) == [] && forall q :: q != p ==> ResultsOf(WithoutParent(s, p), q) == ResultsOf(s, q)
  {
    var after := WithoutParent(s, p);
    forall q ensures ParentOk(after, q) { assert ParentOk(s, q); }
    forall r, q ensures OwnerOk(after, r, q) { assert OwnerOk(s, r, q) && OwnerOk(s, r, p); }
  }

  // ----- the memory object -----

  class NccMemory {
    var resultCount: map<TokenId, nat>
    var resultOwner: map<TokenId, TokenId>
    var parentResults: map<TokenId, seq<TokenId>>
    var primaryResult: map<TokenId, TokenId>
    var blockOrder: map<TokenId, nat>
    var unblocked: map<TokenId, TokenId>

    ghost function Maps(): State
      reads this
    {
      State(resultCount, resultOwner, parentResults, primaryResult, blockOrder, unblocked)
    }

    constructor ()
      ensures Maps() == EMPTY && Sound(Maps()) && Exclusive(Maps())
    {
      resultCount, resultOwner, parentResults, primaryResult, blockOrder, unblocked := map[], map[], map[], map[], map[], map[];
      new;
      EmptySound();
    }

    function ResultCount(p: TokenId): nat
      reads this
    {
      if p in resultCount then resultCount[p] else 0
    }

    method IncrementResults(p: TokenId) returns (count: nat)
      modifies this`resultCount
      ensures count == old(ResultCount(p)) + 1 && resultCount == old(resultCount)[p := count]
    {
      count := ResultCount(p) + 1;
      resultCount := resultCount[p := count];
    }

    method DecrementResults(p: TokenId) returns (count: nat)
      modifies this`resultCount
      ensures resultCount == Decremented(old(resultCount), p) && count == ResultCount(p)
    {
      if p !in resultCount { return 0; }
      count := if resultCount[p] > 0 then resultCount[p] - 1 else 0;
      resultCount := if count == 0 then resultCount - {p} else resultCount[p := count];
    }

    /** A result blocks its parent; the first one becomes primary and stamps the block order. */
    method AddResult(p: TokenId, r: TokenId, order: nat) returns (before: nat, after: nat)
      requires Sound(Maps())
      modifies this
      ensures Maps() == WithResult(old(Maps()), p, r, order) && Sound(Maps())
      ensures r !in old(resultOwner) ==> before == Count(old(Maps()), p) && after == before + 1
      ensures r in old(resultOwner) ==> before == after == Count(old(Maps()), old(resultOwner[r]))
      ensures r !in old(resultOwner) ==> Stamped(old(Maps()), Maps(), p, r, order)
    {
      hide Sound, Stamped, Exclusive;
      WithResultSound(Maps(), p, r, order);
      if r in resultOwner {
        before := ResultCount(resultOwner[r]);
        return before, before;
      }
      before := ResultCount(p);
      after := IncrementResults(p);
      resultOwner := resultOwner[r := p];
      var results := if p in parentResults then parentResults[p] else [];
      parentResults := parentResults[p := if r in results then results else results + [r]];
      if before == 0 {
        primaryResult := primaryResult[p := r];
        blockOrder := blockOrder[p := order];
      }
    }

    /** Remove support before the primaries of a whole cascade are settled. */
    method RemoveResultSupport(r: TokenId) returns (removed: Option<(TokenId, nat)>)
      modifies this
      ensures Maps() == WithoutSupport(old(Maps()), r)
      ensures removed == if r in old(resultOwner) then Some((old(resultOwner[r]), Count(Maps(), old(resultOwner[r])))) else None
      ensures old(Sound(Maps())) ==> (Sound(Maps()) <==> !old(IsPrimary(Maps(), r)))
    {
      hide Sound;
      if Sound(Maps()) { SupportIsSound(Maps(), r); }
      if r !in resultOwner { return None; }
      var p := resultOwner[r];
      resultOwner := resultOwner - {r};
      if p in parentResults {
        var results := Without(parentResults[p], r);
        parentResults := if results == [] then parentResults - {p} else parentResults[p := results];
      }
      var count := DecrementResults(p);
      removed := Some((p, count));
    }

    /** Choose the oldest surviving result, or report that the parent unblocks. */
    method ReassignPrimary(p: TokenId, order: nat) returns (blocked: bool)
      modifies this
      ensures Maps() == Reassigned(old(Maps()), p, order) && (blocked <==> ResultsOf(Maps(), p) != [])
    {
      blocked := p in parentResults && parentResults[p] != [];
      if blocked {
        primaryResult := primaryResult[p := parentResults[p][0]];
        blockOrder := blockOrder[p := order];
      } else {
        primaryResult := primaryResult - {p};
        blockOrder := blockOrder - {p};
      }
    }

    /** Remove one result and settle its parent. */
    method RemoveResult(r: TokenId, order: nat) returns (removed: Option<(TokenId, nat)>)
      requires Sound(Maps())
      modifies this
      ensures Maps() == WithoutResult(old(Maps()), r, order) && Maps() == Pruned(old(Maps()), {r}, order) && Sound(Maps())
      ensures forall p :: p in parentResults ==> Restamped(old(Maps()), Maps(), {r}, order, p)
      ensures removed == if r in old(resultOwner) then Some((old(resultOwner[r]), Count(Maps(), old(resultOwner[r])))) else None
    {
      hide Sound, WithoutSupport, Pruned, Restamped;
      WithoutIsPruned(Maps(), r, order);
      PrunedSound(Maps(), {r}, order);
      OrdersAfterRemoval(Maps(), r, order);
      removed := RemoveResultSupport(r);
      if removed.None? { SupportAbsent(old(Maps()), r); return; }
      var p := removed.value.0;
      if p in primaryResult && primaryResult[p] == r {
        var blocked := ReassignPrimary(p, order);
      }
    }

    /** Recording a pass-through keeps the maps exclusive exactly when the parent is not blocked. */
    method SetUnblocked(p: TokenId, passthrough: TokenId)
      modifies this`unblocked
      ensures Maps() == old(Maps()).(unblocked := old(unblocked)[p := passthrough])
      ensures old(Exclusive(Maps())) ==> (Exclusive(Maps()) <==> p !in resultCount)
    {
      unblocked := unblocked[p := passthrough];
    }

    method RemoveUnblocked(p: TokenId) returns (passthrough: Option<TokenId>)
      modifies this`unblocked
      ensures passthrough == if p in old(unblocked) then Some(old(unblocked[p])) else None
      ensures Maps() == old(Maps()).(unblocked := old(unblocked) - {p}) && (old(Exclusive(Maps())) ==> Exclusive(Maps()))
    {
      passthrough := if p in unblocked then Some(unblocked[p]) else None;
      unblocked := unblocked - {p};
    }

    method ForgetResults(p: TokenId)
      modifies this`resultOwner, this`parentResults
      ensures parentResults == old(parentResults) - {p}
      ensures p !in old(parentResults) ==> resultOwner == old(resultOwner)
      ensures p in old(parentResults) ==> resultOwner == map r | r in old(resultOwner) && r !in old(parentResults)[p] :: old(resultOwner)[r]
    {
      if p in parentResults {
        resultOwner := map r | r in resultOwner && r !in parentResults[p] :: resultOwner[r];
        parentResults := parentResults - {p};
      }
    }

    /** Forget a retracted parent and all its results. */
    method RemoveParentToken(p: TokenId)
      requires Sound(Maps())
      modifies this
      ensures Maps() == WithoutParent(old(Maps()), p) && Sound(Maps()) && (old(Exclusive(Maps())) ==> Exclusive(Maps()))
    {
      hide Sound, Exclusive, WithoutParent;
      WithoutParentSound(Maps(), p);
      OwnersWithout(Maps(), p);
      resultCount := resultCount - {p};
      ForgetResults(p);
      primaryResult, blockOrder, unblocked := primaryResult - {p}, blockOrder - {p}, unblocked - {p};
    }

    method Clear()
      modifies this
      ensures Maps() == EMPTY && Sound(Maps()) && Exclusive(Maps())
    {
      resultCount, resultOwner, parentResults, primaryResult, blockOrder, unblocked := map[], map[], map[], map[], map[], map[];
      EmptySound();
    }
  }

  lemma OwnersWithout(s: State, p: TokenId)
    ensures WithoutParent(s, p) == s.(count := s.count - {p}, owner := WithoutParent(s, p).owner, results := s.results - {p},
                                      primary := s.primary - {p}, order := s.order - {p}, unblocked := s.unblocked - {p})
    ensures p !in s.results ==> WithoutParent(s, p).owner == s.owner && WithoutParent(s, p).results == s.results
    ensures p in s.results ==> WithoutParent(s, p).owner == map r | r in s.owner && r !in s.results[p] :: s.owner[r]
  {
  }

  lemma EmptySound()
    ensures Sound(EMPTY) && Exclusive(EMPTY)
  {
  }

  lemma OrdersAfterRemoval(s: State, r: TokenId, order: nat)
    requires Sound(s)
    ensures var after := Pruned(s, {r}, order); forall p :: p in after.results ==> Restamped(s, after, {r}, order, p)
  {
    var after := Pruned(s, {r}, order);
    forall p | p in after.results ensures Restamped(s, after, {r}, order, p) { PrunedStamp(s, {r}, order, p); }
  }

  lemma SupportAbsent(s: State, r: TokenId)
    requires r !in s.owner
    ensures WithoutSupport(s, r) == s
  {
  }
}
