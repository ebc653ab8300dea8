/** What alpha memories must hold: the live facts on their path, in assertion order; and the reverse index. */
module AlphaContents {
  import opened Syntax
  import opened Sequences
  import opened Compaction
  import opened AlphaGraph
  import opened AlphaGrowth

  /** The live facts passing a path, oldest first. */
  function Matching(live: seq<FactId>, base: map<FactId, Fact>, test: Tester, path: AlphaPathKey): seq<FactId> {
    if live == [] then []
    else
      var f := live[|live| - 1];
      Matching(live[..|live| - 1], base, test, path) + (if f in base && Passes(test, base[f], path) then [f] else [])
  }

  lemma {:induction false} MatchingMembers(live: seq<FactId>, base: map<FactId, Fact>, test: Tester, path: AlphaPathKey)
    ensures forall f :: f in Matching(live, base, test, path) <==> f in live && f in base && Passes(test, base[f], path)
  {
    if live != [] {
      var f := live[|live| - 1];
      assert live == live[..|live| - 1] + [f];
      MatchingMembers(live[..|live| - 1], base, test, path);
    }
  }

  lemma {:induction false} MatchingCongruent(live: seq<FactId>, base: map<FactId, Fact>, other: map<FactId, Fact>, test: Tester, path: AlphaPathKey)
    requires forall f :: f in live ==> f in base && f in other && base[f] == other[f]
    ensures Matching(live, base, test, path) == Matching(live, other, test, path)
  {
    if live != [] {
      assert live[|live| - 1] in live;
      assert forall f :: f in live[..|live| - 1] ==> f in live;
      MatchingCongruent(live[..|live| - 1], base, other, test, path);
    }
  }

  lemma {:induction false} MatchingWithout(live: seq<FactId>, base: map<FactId, Fact>, test: Tester, path: AlphaPathKey, f: FactId)
    ensures Matching(Without(live, f), base, test, path) == Without(Matching(live, base, test, path), f)
  {
    if live != [] {
      var last := live[|live| - 1];
      var before := live[..|live| - 1];
      assert live == before + [last];
      MatchingWithout(before, base, test, path, f);
      WithoutSnoc(before, last, f);
      var matched := Matching(before, base, test, path);
      if last in base && Passes(test, base[last], path) {
        WithoutSnoc(matched, last, f);
      } else {
        assert Matching(live, base, test, path) == matched + [] == matched;
      }
      if last == f {
        assert Without(live, f) == Without(before, f) + [] == Without(before, f);
        assert Without(matched, f) + [] == Without(matched, f);
      } else {
        assert (Without(before, f) + [last])[..|Without(before, f)|] == Without(before, f);
      }
    }
  }

  type Contents = seq<seq<FactId>>
  type Reverse = map<FactId, seq<AlphaMemoryId>>

  /** The memory at node `x`, if any, holds exactly the live facts on its path. */
  ghost predicate CurrentAt(t: Tree, contents: Contents, live: seq<FactId>, base: map<FactId, Fact>, test: Tester, x: NodeId)
    requires |t.nodes| == |t.paths|
  {
    x < |t.nodes| && t.nodes[x].memory.Some? && t.paths[x].Some? ==>
      && t.nodes[x].memory.value < |contents|
      && contents[t.nodes[x].memory.value] == Matching(live, base, test, t.paths[x].value)
  }

  ghost predicate Current(t: Tree, contents: Contents, live: seq<FactId>, base: map<FactId, Fact>, test: Tester) {
    |t.nodes| == |t.paths| && forall x :: 0 <= x < |t.nodes| ==> CurrentAt(t, contents, live, base, test, x)
  }

  predicate Contains(contents: Contents, m: AlphaMemoryId, f: FactId) {
    m < |contents| && f in contents[m]
  }

  predicate Recorded(reverse: Reverse, m: AlphaMemoryId, f: FactId) {
    f in reverse && m in reverse[f]
  }

  /** The reverse index lists, for each fact, exactly the memories that contain it. */
  ghost predicate Inverse(reverse: Reverse, contents: Contents) {
    && (forall m: AlphaMemoryId, f: FactId :: Recorded(reverse, m, f) <==> Contains(contents, m, f))
    && (forall f :: f in reverse ==> reverse[f] != [] && NoDuplicates(reverse[f]))
  }

  // ----- assertion -----

  function Filled(contents: Contents, f: FactId, accepted: seq<AlphaMemoryId>): Contents {
    seq(|contents|, i requires 0 <= i < |contents| => if i in accepted && f !in contents[i] then contents[i] + [f] else contents[i])
  }

  lemma FilledNone(contents: Contents, f: FactId)
    ensures Filled(contents, f, []) == contents
  {
  }

  lemma FilledTwice(contents: Contents, f: FactId, a: seq<AlphaMemoryId>, b: seq<AlphaMemoryId>)
    ensures Filled(Filled(contents, f, a), f, b) == Filled(contents, f, a + b)
  {
  }

  lemma FilledCurrent(t: Tree, contents: Contents, live: seq<FactId>, base: map<FactId, Fact>, test: Tester,
                      accepted: seq<AlphaMemoryId>, f: FactId, fact: Fact, x: NodeId)
    requires |t.nodes| == |t.paths| && CurrentAt(t, contents, live, base, test, x)
    requires f !in live && f !in base && (forall g :: g in live ==> g in base)
    requires x < |t.nodes| && t.nodes[x].memory.Some? && t.paths[x].Some? ==>
               (t.nodes[x].memory.value in accepted <==> Passes(test, fact, t.paths[x].value))
    ensures CurrentAt(t, Filled(contents, f, accepted), live + [f], base[f := fact], test, x)
  {
    if x < |t.nodes| && t.nodes[x].memory.Some? && t.paths[x].Some? {
      var path := t.paths[x].value;
      assert (live + [f])[..|live|] == live;
      MatchingCongruent(live, base, base[f := fact], test, path);
      MatchingMembers(live, base, test, path);
    }
  }

  lemma RecordedSomewhere(reverse: Reverse, contents: Contents, f: FactId)
    requires Inverse(reverse, contents)
    ensures f in reverse ==> exists m :: Contains(contents, m, f)
  {
    if f in reverse { assert Recorded(reverse, reverse[f][0], f) && Contains(contents, reverse[f][0], f); }
  }

  lemma FilledInverse(reverse: Reverse, contents: Contents, accepted: seq<AlphaMemoryId>, f: FactId)
    requires Inverse(reverse, contents) && forall m :: 0 <= m < |contents| ==> f !in contents[m]
    requires NoDuplicates(accepted) && forall m :: m in accepted ==> m < |contents|
    ensures Inverse(if accepted == [] then reverse else reverse[f := accepted], Filled(contents, f, accepted))
  {
    var after := if accepted == [] then reverse else reverse[f := accepted];
    var filled := Filled(contents, f, accepted);
    RecordedSomewhere(reverse, contents, f);
    forall m: AlphaMemoryId, g: FactId ensures Recorded(after, m, g) <==> Contains(filled, m, g) {
      assert Recorded(reverse, m, g) <==> Contains(contents, m, g);
      if m < |contents| { assert filled[m] == if m in accepted && f !in contents[m] then contents[m] + [f] else contents[m]; }
    }
  }

  // ----- retraction -----

  function Drained(contents: Contents, f: FactId): Contents {
    seq(|contents|, i requires 0 <= i < |contents| => Without(contents[i], f))
  }

  lemma DrainedCurrent(t: Tree, contents: Contents, live: seq<FactId>, base: map<FactId, Fact>, test: Tester, f: FactId, x: NodeId)
    requires |t.nodes| == |t.paths| && CurrentAt(t, contents, live, base, test, x)
    requires forall g :: g in live ==> g in base
    ensures CurrentAt(t, Drained(contents, f), Without(live, f), base - {f}, test, x)
  {
    if x < |t.nodes| && t.nodes[x].memory.Some? && t.paths[x].Some? {
      var path := t.paths[x].value;
      MatchingWithout(live, base, test, path, f);
      WithoutMembers(live, f);
      MatchingCongruent(Without(live, f), base, base - {f}, test, path);
    }
  }

  lemma DrainedInverse(reverse: Reverse, contents: Contents, f: FactId)
    requires Inverse(reverse, contents)
    ensures Inverse(reverse - {f}, Drained(contents, f))
  {
    forall m: AlphaMemoryId, g: FactId ensures Recorded(reverse - {f}, m, g) <==> Contains(Drained(contents, f), m, g) {
      assert Recorded(reverse, m, g) <==> Contains(contents, m, g);
      if m < |contents| { WithoutMembers(contents[m], f); }
    }
  }

  // ----- backfill -----

  function Noted(reverse: Reverse, f: FactId, m: AlphaMemoryId): Reverse {
    if f in reverse then (if m in reverse[f] then reverse else reverse[f := reverse[f] + [m]]) else reverse[f := [m]]
  }

  lemma NotedInverse(reverse: Reverse, contents: Contents, f: FactId, m: AlphaMemoryId)
    requires Inverse(reverse, contents) && m < |contents| && f !in contents[m]
    ensures Inverse(Noted(reverse, f, m), contents[m := contents[m] + [f]])
  {
    var after, filled := Noted(reverse, f, m), contents[m := contents[m] + [f]];
    assert !Contains(contents, m, f);
    assert !Recorded(reverse, m, f);
    forall k: AlphaMemoryId, g: FactId ensures Recorded(after, k, g) <==> Contains(filled, k, g) {
      assert Recorded(reverse, k, g) <==> Contains(contents, k, g);
    }
  }

  // ----- pruning -----

  function RemapReverse(reverse: Reverse, kept: seq<bool>): Reverse {
    map f | f in reverse && RemapIds(reverse[f], kept) != [] :: RemapIds(reverse[f], kept)
  }

  lemma PrunedInverse(reverse: Reverse, contents: Contents, kept: seq<bool>)
    requires Inverse(reverse, contents) && |kept| == |contents|
    ensures Inverse(RemapReverse(reverse, kept), Compact(contents, kept))
  {
    var after, live := RemapReverse(reverse, kept), Compact(contents, kept);
    forall f | f in after ensures NoDuplicates(after[f]) { RemapIdsExact(reverse[f], kept); }
    forall m: AlphaMemoryId, f: FactId ensures Recorded(after, m, f) <==> Contains(live, m, f) {
      if f in reverse { RemapIdsExact(reverse[f], kept); }
      CompactAt(contents, kept, 0);
      if Recorded(after, m, f) {
        var c :| c in reverse[f] && RemapId(c, kept) == Some(m);
        assert Recorded(reverse, c, f) && Contains(contents, c, f);
        CompactAt(contents, kept, c);
      }
      if Contains(live, m, f) {
        var c := CompactOnto(contents, kept, |kept|, m);
        CompactAt(contents, kept, c);
        assert Contains(contents, c, f) && Recorded(reverse, c, f);
      }
    }
  }

  lemma PrunedCurrent(t: Tree, contents: Contents, live: seq<FactId>, base: map<FactId, Fact>, test: Tester,
                      keep: seq<bool>, kept: seq<bool>, i: NodeId)
    requires |keep| == |t.nodes| == |t.ups| == |t.paths| && |kept| == |contents| && i < |keep| && keep[i]
    requires CurrentAt(t, contents, live, base, test, i)
    ensures |Pruned(t, keep, kept).paths| == |Pruned(t, keep, kept).nodes|
    ensures CurrentAt(Pruned(t, keep, kept), Compact(contents, kept), live, base, test, Rank(keep, i))
  {
    PrunedAt(t, keep, kept, i);
    if t.nodes[i].memory.Some? && t.paths[i].Some? { CompactAt(contents, kept, t.nodes[i].memory.value); }
  }

  // ----- facts in timestamp order -----

  datatype FactEntry = FactEntry(fact: Fact, timestamp: nat)

  predicate Chronological(facts: seq<FactId>, entries: map<FactId, FactEntry>) {
    && (forall f :: f in facts ==> f in entries)
    && (forall i, j :: 0 <= i < j < |facts| ==> entries[facts[i]].timestamp < entries[facts[j]].timestamp)
  }

  lemma LastIsLatest(a: seq<FactId>, entries: map<FactId, FactEntry>, f: FactId)
    requires Chronological(a, entries) && f in a
    ensures entries[f].timestamp <= entries[a[|a| - 1]].timestamp
    ensures entries[f].timestamp == entries[a[|a| - 1]].timestamp ==> f == a[|a| - 1]
  {
    var i :| 0 <= i < |a| && a[i] == f;
    assert i < |a| - 1 ==> entries[a[i]].timestamp < entries[a[|a| - 1]].timestamp;
  }

  lemma ChronologicalFront(a: seq<FactId>, entries: map<FactId, FactEntry>)
    requires Chronological(a, entries) && a != []
    ensures Chronological(a[..|a| - 1], entries)
    ensures forall f :: f in a[..|a| - 1] <==> f in a && f != a[|a| - 1]
  {
    var front, x := a[..|a| - 1], a[|a| - 1];
    assert a == front + [x];
    forall k | 0 <= k < |front| ensures front[k] != x {
      assert entries[a[k]].timestamp < entries[a[|a| - 1]].timestamp;
    }
  }

  /** Two lists of the same facts end alike, and their fronts hold the same facts. */
  lemma SameFront(a: seq<FactId>, b: seq<FactId>, entries: map<FactId, FactEntry>)
    requires Chronological(a, entries) && Chronological(b, entries) && a != [] && b != [] && forall f :: f in a <==> f in b
    ensures a[|a| - 1] == b[|b| - 1]
    ensures Chronological(a[..|a| - 1], entries) && Chronological(b[..|b| - 1], entries)
    ensures var front, other := a[..|a| - 1], b[..|b| - 1]; forall f :: f in front <==> f in other
  {
    assert a[|a| - 1] in b && b[|b| - 1] in a;
    LastIsLatest(a, entries, b[|b| - 1]);
    LastIsLatest(b, entries, a[|a| - 1]);
    ChronologicalFront(a, entries);
    ChronologicalFront(b, entries);
    var front, other := a[..|a| - 1], b[..|b| - 1];
    forall f ensures f in front <==> f in other { assert f in a <==> f in b; }
  }

  /** Facts sorted by strictly increasing timestamps are determined by which facts they are. */
  lemma {:induction false} ChronologyUnique(a: seq<FactId>, b: seq<FactId>, entries: map<FactId, FactEntry>)
    requires Chronological(a, entries) && Chronological(b, entries) && forall f :: f in a <==> f in b
    ensures a == b
  {
    if a == [] || b == [] {
      SomeMember(a);
      SomeMember(b);
    } else {
      SameFront(a, b, entries);
      hide Chronological;
      ChronologyUnique(a[..|a| - 1], b[..|b| - 1], entries);
      assert a == a[..|a| - 1] + [a[|a| - 1]] && b == b[..|b| - 1] + [b[|b| - 1]];
    }
  }

  lemma {:induction false} MatchingChronological(live: seq<FactId>, base: map<FactId, Fact>, test: Tester, path: AlphaPathKey,
                                                 entries: map<FactId, FactEntry>)
    requires Chronological(live, entries)
    ensures Chronological(Matching(live, base, test, path), entries)
  {
    if live != [] {
      var before := live[..|live| - 1];
      assert forall f :: f in before ==> f in live;
      assert live[|live| - 1] in live;
      MatchingChronological(before, base, test, path, entries);
      MatchingMembers(before, base, test, path);
      var matched := Matching(before, base, test, path);
      forall k | 0 <= k < |matched| ensures entries[matched[k]].timestamp < entries[live[|live| - 1]].timestamp {
        assert matched[k] in before;
        var i :| 0 <= i < |before| && before[i] == matched[k];
        assert live[i] == matched[k];
      }
    }
  }
}
