/** Hash indices over the members of a memory: attribute, then key, then the members in insertion order. */
module Index {
  import opened Syntax
  import opened Sequences

  type Buckets<!A> = map<A, map<Value, seq<nat>>>

  /** The members a record-based scan finds: those whose record has key `k` at attribute `a`. */
  function Scan<A, R>(members: seq<nat>, records: map<nat, R>, keyAt: (R, A) -> Option<Value>, a: A, k: Value): seq<nat> {
    if members == [] then []
    else
      var last := |members| - 1;
      Scan(members[..last], records, keyAt, a, k)
        + if members[last] in records && keyAt(records[members[last]], a) == Some(k) then [members[last]] else []
  }

  function Lookup<A(==)>(ix: Buckets<A>, a: A, k: Value): seq<nat> {
    if a in ix && k in ix[a] then ix[a][k] else []
  }

  /** No empty bucket and no empty attribute is kept. */
  ghost predicate Canonical<A(!new)>(ix: Buckets<A>) {
    forall a :: a in ix ==> ix[a] != map[] && forall k :: k in ix[a] ==> ix[a][k] != []
  }

  /** Every lookup answers like the scan, and attributes that are not indexed have no entries. */
  ghost predicate Exact<A(!new), R>(ix: Buckets<A>, attributes: seq<A>, members: seq<nat>, records: map<nat, R>,
                                    keyAt: (R, A) -> Option<Value>) {
    && Canonical(ix)
    && forall a, k :: Lookup(ix, a, k) == if a in attributes then Scan(members, records, keyAt, a, k) else []
  }

  /** Two indices that answer alike and keep no empty buckets are the same. */
  lemma ExactUnique<A(!new), R>(ix: Buckets<A>, jx: Buckets<A>, attributes: seq<A>, members: seq<nat>, records: map<nat, R>,
                                keyAt: (R, A) -> Option<Value>)
    requires Exact(ix, attributes, members, records, keyAt) && Exact(jx, attributes, members, records, keyAt)
    ensures ix == jx
  {
    SameKeys(ix, jx, attributes, members, records, keyAt);
    SameKeys(jx, ix, attributes, members, records, keyAt);
    forall a | a in ix ensures ix[a] == jx[a] {
      forall k ensures (k in ix[a] <==> k in jx[a]) && (k in ix[a] ==> ix[a][k] == jx[a][k]) {
        assert Lookup(ix, a, k) == Lookup(jx, a, k);
      }
    }
  }

  lemma SameKeys<A(!new), R>(ix: Buckets<A>, jx: Buckets<A>, attributes: seq<A>, members: seq<nat>, records: map<nat, R>,
                             keyAt: (R, A) -> Option<Value>)
    requires Exact(ix, attributes, members, records, keyAt) && Exact(jx, attributes, members, records, keyAt)
    ensures forall a :: a in ix ==> a in jx
  {
    forall a | a in ix ensures a in jx {
      assert ix[a].Keys != {};
      var k :| k in ix[a];
      assert Lookup(ix, a, k) == Lookup(jx, a, k);
    }
  }

  // ----- one bucket at a time -----

  function Put<A>(ix: Buckets<A>, a: A, k: Value, m: nat): Buckets<A> {
    ix[a := (if a in ix then ix[a] else map[])[k := Lookup(ix, a, k) + [m]]]
  }

  lemma PutLookup<A(!new)>(ix: Buckets<A>, a: A, k: Value, m: nat)
    ensures forall b, j :: Lookup(Put(ix, a, k, m), b, j) == if b == a && j == k then Lookup(ix, a, k) + [m] else Lookup(ix, b, j)
    ensures Canonical(ix) ==> Canonical(Put(ix, a, k, m))
  {
    if Canonical(ix) {
      var after := Put(ix, a, k, m);
      assert k in after[a];
    }
  }

  /** Remove one member from one bucket, pruning what becomes empty. */
  function Take<A>(ix: Buckets<A>, a: A, k: Value, m: nat): Buckets<A> {
    if a !in ix then ix
    else
      var keyed :=
        if k !in ix[a] then ix[a]
        else if Without(ix[a][k], m) == [] then ix[a] - {k}
        else ix[a][k := Without(ix[a][k], m)];
      if keyed == map[] then ix - {a} else ix[a := keyed]
  }

  lemma TakeLookup<A(!new)>(ix: Buckets<A>, a: A, k: Value, m: nat)
    requires Canonical(ix)
    ensures forall b, j :: Lookup(Take(ix, a, k, m), b, j) == if b == a && j == k then Without(Lookup(ix, a, k), m) else Lookup(ix, b, j)
    ensures Canonical(Take(ix, a, k, m))
  {
    var after := Take(ix, a, k, m);
    if a in ix {
      assert ix[a] != map[];
      forall j ensures Lookup(after, a, j) == if j == k then Without(Lookup(ix, a, k), m) else Lookup(ix, a, j) {
        if a !in after {
          assert j in ix[a] && j != k ==> j in ix[a] - {k} && j in ix[a][k := Without(Lookup(ix, a, k), m)];
        }
      }
      forall b, j ensures Lookup(after, b, j) == if b == a && j == k then Without(Lookup(ix, a, k), m) else Lookup(ix, b, j) {
        if b != a { assert (b in after) == (b in ix); }
      }
    }
  }

  // ----- scans of grown and shrunk memories -----

  lemma {:induction false} ScanMembers<A, R>(members: seq<nat>, records: map<nat, R>, keyAt: (R, A) -> Option<Value>, a: A, k: Value)
    ensures forall m :: m in Scan(members, records, keyAt, a, k) <==>
              m in members && m in records && keyAt(records[m], a) == Some(k)
  {
    if members != [] {
      var last := |members| - 1;
      assert members == members[..last] + [members[last]];
      ScanMembers(members[..last], records, keyAt, a, k);
    }
  }

  /** A scan keeps the members' order. */
  lemma {:induction false} ScanOrder<A, R>(members: seq<nat>, records: map<nat, R>, keyAt: (R, A) -> Option<Value>, a: A, k: Value)
    ensures var found := Scan(members, records, keyAt, a, k);
      && (NoDuplicates(members) ==> NoDuplicates(found))
      && forall i, j :: 0 <= i < j < |found| ==> InOrder(members, found[i], found[j])
  {
    hide InOrder;
    if members != [] {
      var last := |members| - 1;
      var before, x := members[..last], members[last];
      assert members == before + [x];
      ScanOrder(before, records, keyAt, a, k);
      ScanMembers(before, records, keyAt, a, k);
      var earlier, found := Scan(before, records, keyAt, a, k), Scan(members, records, keyAt, a, k);
      assert found == earlier || found == earlier + [x];
      forall i, j | 0 <= i < j < |found| ensures InOrder(members, found[i], found[j]) {
        assert found[i] == earlier[i] && earlier[i] in earlier;
        if j < |earlier| { InOrderSnoc(before, x, found[i], found[j]); } else { InOrderLast(before, x, found[i]); }
      }
    }
  }

  /** A scan only depends on the records of the members. */
  lemma {:induction false} ScanCongruent<A, R>(members: seq<nat>, records: map<nat, R>, others: map<nat, R>, keyAt: (R, A) -> Option<Value>,
                                               a: A, k: Value)
    requires forall m :: m in members ==> m in records && m in others && records[m] == others[m]
    ensures Scan(members, records, keyAt, a, k) == Scan(members, others, keyAt, a, k)
  {
    if members != [] {
      var last := |members| - 1;
      assert forall m :: m in members[..last] ==> m in members;
      ScanCongruent(members[..last], records, others, keyAt, a, k);
    }
  }

  lemma {:induction false} ScanWithout<A, R>(members: seq<nat>, records: map<nat, R>, keyAt: (R, A) -> Option<Value>, a: A, k: Value, m: nat)
    ensures Scan(Without(members, m), records, keyAt, a, k) == Without(Scan(members, records, keyAt, a, k), m)
  {
    if members != [] {
      var last := |members| - 1;
      var before := members[..last];
      assert members == before + [members[last]];
      ScanWithout(before, records, keyAt, a, k, m);
      WithoutSnoc(before, members[last], m);
      var scanned := Scan(before, records, keyAt, a, k);
      if members[last] in records && keyAt(records[members[last]], a) == Some(k) {
        WithoutSnoc(scanned, members[last], m);
      } else {
        assert Scan(members, records, keyAt, a, k) == scanned;
      }
      if members[last] == m {
        assert Without(members, m) == Without(before, m);
      } else {
        assert Without(members, m) == Without(before, m) + [members[last]];
        assert (Without(before, m) + [members[last]])[..|Without(before, m)|] == Without(before, m);
      }
    }
  }

  // ----- one member at a time, over every indexed attribute -----

  /** One member added to (or removed from) the buckets of its keys at `attributes`, the others kept. */
  ghost predicate Moved<A(!new), R>(before: Buckets<A>, after: Buckets<A>, attributes: seq<A>, keyAt: (R, A) -> Option<Value>, r: R, m: nat,
                                    added: bool) {
    && Canonical(after)
    && forall a, k :: Lookup(after, a, k) ==
         if !(a in attributes && keyAt(r, a) == Some(k)) then Lookup(before, a, k)
         else if added then Lookup(before, a, k) + [m] else Without(Lookup(before, a, k), m)
  }

  lemma MoveOne<A(!new), R>(before: Buckets<A>, at: Buckets<A>, attributes: seq<A>, a: A, keyAt: (R, A) -> Option<Value>, r: R, m: nat, added: bool)
    requires Moved(before, at, attributes, keyAt, r, m, added) && a !in attributes
    ensures var key := keyAt(r, a);
      Moved(before, if key.None? then at else if added then Put(at, a, key.value, m) else Take(at, a, key.value, m),
            attributes + [a], keyAt, r, m, added)
  {
    var key := keyAt(r, a);
    if key.Some? && added { PutLookup(at, a, key.value, m); }
    if key.Some? && !added { TakeLookup(at, a, key.value, m); }
  }

  method AddEntries<A(==, !new), R>(ix: Buckets<A>, attributes: seq<A>, keyAt: (R, A) -> Option<Value>, r: R, m: nat) returns (jx: Buckets<A>)
    requires Canonical(ix) && NoDuplicates(attributes)
    ensures Moved(ix, jx, attributes, keyAt, r, m, true)
  {
    hide Take;
    jx := ix;
    for i := 0 to |attributes|
      invariant Moved(ix, jx, attributes[..i], keyAt, r, m, true)
    {
      assert attributes[..i + 1] == attributes[..i] + [attributes[i]];
      MoveOne(ix, jx, attributes[..i], attributes[i], keyAt, r, m, true);
      var key := keyAt(r, attributes[i]);
      if key.Some? { jx := Put(jx, attributes[i], key.value, m); }
    }
    assert attributes[..|attributes|] == attributes;
  }

  method RemoveEntries<A(==, !new), R>(ix: Buckets<A>, attributes: seq<A>, keyAt: (R, A) -> Option<Value>, r: R, m: nat) returns (jx: Buckets<A>)
    requires Canonical(ix) && NoDuplicates(attributes)
    ensures Moved(ix, jx, attributes, keyAt, r, m, false)
  {
    hide Put;
    jx := ix;
    for i := 0 to |attributes|
      invariant Moved(ix, jx, attributes[..i], keyAt, r, m, false)
    {
      assert attributes[..i + 1] == attributes[..i] + [attributes[i]];
      MoveOne(ix, jx, attributes[..i], attributes[i], keyAt, r, m, false);
      var key := keyAt(r, attributes[i]);
      if key.Some? { jx := Take(jx, attributes[i], key.value, m); }
    }
    assert attributes[..|attributes|] == attributes;
  }

  /** Appending a member extends exactly the buckets of its own keys. */
  lemma ExactAfterInsert<A(!new), R>(ix: Buckets<A>, jx: Buckets<A>, attributes: seq<A>, members: seq<nat>, records: map<nat, R>,
                                     keyAt: (R, A) -> Option<Value>, m: nat, r: R)
    requires Exact(ix, attributes, members, records, keyAt) && Moved(ix, jx, attributes, keyAt, r, m, true) && m !in members
    requires forall x :: x in members ==> x in records
    ensures Exact(jx, attributes, members + [m], records[m := r], keyAt)
  {
    forall a, k ensures Lookup(jx, a, k) == if a in attributes then Scan(members + [m], records[m := r], keyAt, a, k) else [] {
      assert (members + [m])[..|members|] == members;
      ScanCongruent(members, records, records[m := r], keyAt, a, k);
    }
  }

  /** Removing a member shrinks exactly the buckets of its own keys. */
  lemma ExactAfterRemove<A(!new), R>(ix: Buckets<A>, jx: Buckets<A>, attributes: seq<A>, members: seq<nat>, records: map<nat, R>,
                                     keyAt: (R, A) -> Option<Value>, m: nat, r: R)
    requires Exact(ix, attributes, members, records, keyAt) && Moved(ix, jx, attributes, keyAt, r, m, false)
    requires NoDuplicates(members) && (forall x :: x in records <==> x in members) && (m in members ==> records[m] == r)
    ensures Exact(jx, attributes, Without(members, m), records - {m}, keyAt)
    ensures NoDuplicates(Without(members, m)) && forall x :: x in records - {m} <==> x in Without(members, m)
  {
    WithoutMembers(members, m);
    WithoutDistinct(members, m);
    forall a, k ensures Lookup(jx, a, k) == if a in attributes then Scan(Without(members, m), records - {m}, keyAt, a, k) else [] {
      ScanAfterRemove(members, records, keyAt, a, k, m, r);
      assert Lookup(ix, a, k) == if a in attributes then Scan(members, records, keyAt, a, k) else [];
    }
  }

  lemma ScanAfterRemove<A, R>(members: seq<nat>, records: map<nat, R>, keyAt: (R, A) -> Option<Value>, a: A, k: Value, m: nat, r: R)
    requires (forall x :: x in records <==> x in members) && (m in members ==> records[m] == r)
    ensures var before := Scan(members, records, keyAt, a, k);
      Scan(Without(members, m), records - {m}, keyAt, a, k) == (if keyAt(r, a) == Some(k) then Without(before, m) else before)
  {
    ScanWithout(members, records, keyAt, a, k, m);
    ScanMembers(members, records, keyAt, a, k);
    WithoutMembers(members, m);
    ScanCongruent(Without(members, m), records, records - {m}, keyAt, a, k);
    if keyAt(r, a) != Some(k) { WithoutAbsent(Scan(members, records, keyAt, a, k), m); }
  }

  // ----- a whole attribute at once -----

  /** The members scanned so far, filed under an attribute that had no entries. */
  ghost predicate Backfilled<A(!new), R>(before: Buckets<A>, after: Buckets<A>, a: A, keyAt: (R, A) -> Option<Value>, scanned: seq<nat>,
                                         records: map<nat, R>) {
    && Canonical(after)
    && forall b, k :: Lookup(after, b, k) == if b == a then Scan(scanned, records, keyAt, b, k) else Lookup(before, b, k)
  }

  lemma BackfillOne<A(!new), R>(before: Buckets<A>, at: Buckets<A>, a: A, keyAt: (R, A) -> Option<Value>, scanned: seq<nat>,
                                records: map<nat, R>, m: nat)
    requires Backfilled(before, at, a, keyAt, scanned, records)
    ensures var key := if m in records then keyAt(records[m], a) else None;
      Backfilled(before, if key.None? then at else Put(at, a, key.value, m), a, keyAt, scanned + [m], records)
  {
    var key := if m in records then keyAt(records[m], a) else None;
    assert (scanned + [m])[..|scanned|] == scanned;
    if key.Some? { PutLookup(at, a, key.value, m); }
  }

  /** File every member that has a key under a newly indexed attribute. */
  method BackfillEntries<A(==, !new), R>(ix: Buckets<A>, a: A, keyAt: (R, A) -> Option<Value>, members: seq<nat>, records: map<nat, R>)
    returns (jx: Buckets<A>)
    requires Canonical(ix) && a !in ix
    ensures Backfilled(ix, jx, a, keyAt, members, records)
  {
    jx := ix;
    for i := 0 to |members|
      invariant Backfilled(ix, jx, a, keyAt, members[..i], records)
    {
      assert members[..i + 1] == members[..i] + [members[i]];
      BackfillOne(ix, jx, a, keyAt, members[..i], records, members[i]);
      var key := if members[i] in records then keyAt(records[members[i]], a) else None;
      if key.Some? { jx := Put(jx, a, key.value, members[i]); }
    }
    assert members[..|members|] == members;
  }

  lemma NotIndexed<A(!new), R>(ix: Buckets<A>, attributes: seq<A>, members: seq<nat>, records: map<nat, R>, keyAt: (R, A) -> Option<Value>, a: A)
    requires Exact(ix, attributes, members, records, keyAt) && a !in attributes
    ensures a !in ix
  {
    KeptAttributesHaveKeys(ix, a);
  }

  lemma KeptAttributesHaveKeys<A(!new)>(ix: Buckets<A>, a: A)
    requires Canonical(ix)
    ensures a in ix ==> exists k :: Lookup(ix, a, k) != []
  {
    if a in ix {
      assert ix[a].Keys != {};
      var k :| k in ix[a];
      assert Lookup(ix, a, k) != [];
    }
  }

  lemma ExactAfterBackfill<A(!new), R>(ix: Buckets<A>, jx: Buckets<A>, attributes: seq<A>, a: A, members: seq<nat>, records: map<nat, R>,
                                       base: map<nat, R>, keyAt: (R, A) -> Option<Value>)
    requires Exact(ix, attributes, members, records, keyAt) && a !in attributes && Backfilled(ix, jx, a, keyAt, members, base)
    requires forall m :: m in members ==> m in records && m in base && records[m] == base[m]
    ensures Exact(jx, attributes + [a], members, records, keyAt)
  {
    forall b, k ensures Lookup(jx, b, k) == if b in attributes + [a] then Scan(members, records, keyAt, b, k) else [] {
      ScanCongruent(members, records, base, keyAt, b, k);
      assert Lookup(ix, b, k) == if b in attributes then Scan(members, records, keyAt, b, k) else [];
    }
  }
}
