/** The alpha network: test tree, memories and reverse index, kept in step over every operation. */
module AlphaNetworks {
  import opened Syntax
  import opened Sequences
  import opened Compaction
  import opened AlphaGraph
  import opened AlphaGrowth
  import opened AlphaContents
  import opened AlphaMemories

  // ----- the memory table -----

  ghost predicate Intact(memory: AlphaMemory, base: map<FactId, Fact>)
    reads memory
  {
    memory.Valid() && forall f :: f in memory.facts ==> f in base && memory.records[f] == base[f]
  }

  ghost predicate Sound(memory: AlphaMemory, i: nat, base: map<FactId, Fact>)
    reads memory
  {
    memory.id == i && Intact(memory, base)
  }

  /** The table's memories are distinct objects, sit at their ids and hold facts of `base`. */
  ghost predicate Stored(memories: seq<AlphaMemory>, base: map<FactId, Fact>)
    reads memories
  {
    && (forall i, j :: 0 <= i < j < |memories| ==> memories[i] != memories[j])
    && (forall i :: 0 <= i < |memories| ==> Sound(memories[i], i, base))
  }

  ghost function Held(memories: seq<AlphaMemory>): Contents
    reads memories
  {
    seq(|memories|, i requires 0 <= i < |memories| reads memories => memories[i].facts)
  }

  /** The slots each memory indexes. */
  ghost function Slots(memories: seq<AlphaMemory>): seq<seq<SlotIndex>>
    reads memories
  {
    seq(|memories|, i requires 0 <= i < |memories| reads memories => memories[i].indexedSlots)
  }

  lemma StoredGrows(memories: seq<AlphaMemory>, base: map<FactId, Fact>, f: FactId, fact: Fact)
    requires Stored(memories, base) && f !in base
    ensures Stored(memories, base[f := fact])
    ensures forall i :: 0 <= i < |memories| ==> f !in Held(memories)[i]
  {
    forall i | 0 <= i < |memories| ensures Sound(memories[i], i, base[f := fact]) && f !in Held(memories)[i] {
      assert Sound(memories[i], i, base);
    }
  }

  lemma StoredShrinks(memories: seq<AlphaMemory>, base: map<FactId, Fact>, f: FactId)
    requires Stored(memories, base) && forall i :: 0 <= i < |memories| ==> f !in Held(memories)[i]
    ensures Stored(memories, base - {f})
  {
    forall i | 0 <= i < |memories| ensures Sound(memories[i], i, base - {f}) {
      assert Sound(memories[i], i, base) && f !in Held(memories)[i];
    }
  }

  method InsertInto(memories: seq<AlphaMemory>, i: AlphaMemoryId, f: FactId, fact: Fact, ghost base: map<FactId, Fact>)
    requires Stored(memories, base) && i < |memories| && f in base && base[f] == fact
    modifies memories[i]
    ensures Stored(memories, base)
    ensures Held(memories) == Filled(old(Held(memories)), f, [i]) && Slots(memories) == old(Slots(memories))
  {
    assert Sound(memories[i], i, base);
    memories[i].Insert(f, fact);
    forall j | 0 <= j < |memories| ensures Sound(memories[j], j, base) { assert old(Sound(memories[j], j, base)); }
  }

  method RemoveFrom(memories: seq<AlphaMemory>, i: AlphaMemoryId, f: FactId, fact: Fact, ghost base: map<FactId, Fact>)
    requires Stored(memories, base) && i < |memories| && (f in base ==> base[f] == fact)
    modifies memories[i]
    ensures Stored(memories, base)
    ensures Held(memories) == old(Held(memories))[i := Without(old(Held(memories))[i], f)] && Slots(memories) == old(Slots(memories))
  {
    assert Sound(memories[i], i, base);
    memories[i].Remove(f, fact);
    WithoutMembers(old(memories[i].facts), f);
    forall j | 0 <= j < |memories| ensures Sound(memories[j], j, base) { assert old(Sound(memories[j], j, base)); }
  }

  method ClearOne(memories: seq<AlphaMemory>, i: AlphaMemoryId, ghost base: map<FactId, Fact>)
    requires Stored(memories, base) && i < |memories|
    modifies memories[i]
    ensures Stored(memories, base)
    ensures Held(memories) == old(Held(memories))[i := []] && Slots(memories) == old(Slots(memories))
  {
    assert Sound(memories[i], i, base);
    memories[i].Clear();
    forall j | 0 <= j < |memories| ensures Sound(memories[j], j, base) { assert old(Sound(memories[j], j, base)); }
  }

  /** Index one memory of the table on one more slot. */
  method RequestOn(memories: seq<AlphaMemory>, i: AlphaMemoryId, slot: SlotIndex, facts: map<FactId, Fact>, ghost base: map<FactId, Fact>)
    requires Stored(memories, base) && i < |memories| && forall f :: f in base ==> f in facts && facts[f] == base[f]
    modifies memories[i]
    ensures Stored(memories, base) && Held(memories) == old(Held(memories))
    ensures Slots(memories) == old(Slots(memories))[i := WithSlot(old(Slots(memories))[i], slot)]
  {
    assert Sound(memories[i], i, base);
    memories[i].RequestIndex(slot, facts);
    forall j | 0 <= j < |memories| ensures Sound(memories[j], j, base) { assert old(Sound(memories[j], j, base)); }
  }

  function WithSlot(slots: seq<SlotIndex>, slot: SlotIndex): seq<SlotIndex> {
    if slot in slots then slots else slots + [slot]
  }

  function WithSlots(slots: seq<SlotIndex>, wanted: seq<(SlotIndex, VarId)>): seq<SlotIndex>
    decreases wanted
  {
    if wanted == [] then slots else WithSlots(WithSlot(slots, wanted[0].0), wanted[1..])
  }

  lemma WithSlotsStep(slots: seq<SlotIndex>, wanted: seq<(SlotIndex, VarId)>, i: nat)
    requires i < |wanted|
    ensures WithSlots(slots, wanted[i..]) == WithSlots(WithSlot(slots, wanted[i].0), wanted[i + 1..])
  {
    assert wanted[i..][0] == wanted[i] && wanted[i..][1..] == wanted[i + 1..];
  }

  lemma WithSlotsEnd(slots: seq<SlotIndex>, wanted: seq<(SlotIndex, VarId)>)
    ensures WithSlots(slots, wanted[|wanted|..]) == slots
  {
  }

  lemma {:induction false} WithSlotsMembers(slots: seq<SlotIndex>, wanted: seq<(SlotIndex, VarId)>)
    ensures forall x :: x in slots ==> x in WithSlots(slots, wanted)
    ensures forall k :: 0 <= k < |wanted| ==> wanted[k].0 in WithSlots(slots, wanted)
    decreases wanted
  {
    if wanted != [] {
      WithSlotsMembers(WithSlot(slots, wanted[0].0), wanted[1..]);
      assert forall k :: 1 <= k < |wanted| ==> wanted[k] == wanted[1..][k - 1];
    }
  }

  lemma StoredEmpty(memories: seq<AlphaMemory>, base: map<FactId, Fact>)
    requires Stored(memories, base) && forall i :: 0 <= i < |memories| ==> Held(memories)[i] == []
    ensures Stored(memories, map[]) && Inverse(map[], Held(memories))
  {
    forall i | 0 <= i < |memories| ensures Sound(memories[i], i, map[]) { assert Sound(memories[i], i, base) && Held(memories)[i] == []; }
  }

  method AppendMemory(memories: seq<AlphaMemory>, ghost base: map<FactId, Fact>) returns (more: seq<AlphaMemory>)
    requires Stored(memories, base)
    ensures |more| == |memories| + 1 && more[..|memories|] == memories && fresh(more[|memories|])
    ensures Stored(more, base) && Held(more) == Held(memories) + [[]] && Slots(more) == Slots(memories) + [[]]
  {
    var memory := new AlphaMemory(|memories|);
    more := memories + [memory];
    forall j | 0 <= j < |more| ensures Sound(more[j], j, base) {
      if j < |memories| { assert Sound(memories[j], j, base); }
    }
  }

  ghost predicate AllIntact(memories: seq<AlphaMemory>, base: map<FactId, Fact>)
    reads memories
  {
    && (forall i, j :: 0 <= i < j < |memories| ==> memories[i] != memories[j])
    && (forall i :: 0 <= i < |memories| ==> Intact(memories[i], base))
  }

  ghost function Ids(memories: seq<AlphaMemory>): seq<AlphaMemoryId>
    reads memories
  {
    seq(|memories|, i requires 0 <= i < |memories| reads memories => memories[i].id)
  }

  method Renumber(memories: seq<AlphaMemory>, position: nat, id: AlphaMemoryId, ghost base: map<FactId, Fact>)
    requires AllIntact(memories, base) && position < |memories|
    modifies memories[position]
    ensures AllIntact(memories, base) && Held(memories) == old(Held(memories)) && Slots(memories) == old(Slots(memories))
    ensures Ids(memories) == old(Ids(memories))[position := id]
  {
    memories[position].id := id;
    forall i | 0 <= i < |memories| ensures Intact(memories[i], base) { assert old(Intact(memories[i], base)); }
  }

  lemma StoredIntact(memories: seq<AlphaMemory>, base: map<FactId, Fact>)
    requires Stored(memories, base)
    ensures AllIntact(memories, base) && |Ids(memories)| == |memories| && forall i :: 0 <= i < |memories| ==> Ids(memories)[i] == i
  {
    forall i | 0 <= i < |memories| ensures Intact(memories[i], base) && memories[i].id == i { assert Sound(memories[i], i, base); }
  }

  /** Survivors among the first `n` have their new ids; the others still have their old ones. */
  predicate Numbered(ids: seq<AlphaMemoryId>, kept: seq<bool>, n: nat) {
    && |ids| == |kept| && n <= |kept|
    && forall i :: 0 <= i < |ids| ==> ids[i] == if i < n && kept[i] then Rank(kept, i) else i
  }

  predicate MappedUpTo(mapping: seq<Option<AlphaMemoryId>>, kept: seq<bool>, n: nat) {
    && |mapping| == |kept| && n <= |kept|
    && forall i :: 0 <= i < |mapping| ==> mapping[i] == if i < n && kept[i] then Some(Rank(kept, i)) else None
  }

  lemma NumberingStep(ids: seq<AlphaMemoryId>, mapping: seq<Option<AlphaMemoryId>>, kept: seq<bool>, n: nat)
    requires Numbered(ids, kept, n) && MappedUpTo(mapping, kept, n) && n < |kept|
    ensures |ids| == |mapping| == |kept| && ids[n] == n
    ensures Numbered(if kept[n] then ids[n := Rank(kept, n)] else ids, kept, n + 1)
    ensures MappedUpTo(if kept[n] then mapping[n := Some(Rank(kept, n))] else mapping, kept, n + 1)
  {
    NumberedStep(ids, kept, n);
    MappedStep(mapping, kept, n);
    hide Rank, Numbered, MappedUpTo;
  }

  lemma NumberedStep(ids: seq<AlphaMemoryId>, kept: seq<bool>, n: nat)
    requires Numbered(ids, kept, n) && n < |kept|
    ensures |ids| == |kept| && ids[n] == n && Numbered(if kept[n] then ids[n := Rank(kept, n)] else ids, kept, n + 1)
  {
    hide Rank;
  }

  lemma MappedStep(mapping: seq<Option<AlphaMemoryId>>, kept: seq<bool>, n: nat)
    requires MappedUpTo(mapping, kept, n) && n < |kept|
    ensures |mapping| == |kept| && MappedUpTo(if kept[n] then mapping[n := Some(Rank(kept, n))] else mapping, kept, n + 1)
  {
    hide Rank;
  }

  /** Drop the memories outside `retained` and renumber the others in place. */
  method CompactTable(memories: seq<AlphaMemory>, retained: set<AlphaMemoryId>, ghost base: map<FactId, Fact>)
    returns (compacted: seq<AlphaMemory>, mapping: seq<Option<AlphaMemoryId>>)
    requires Stored(memories, base)
    modifies memories
    ensures var kept := Flags(retained, |memories|);
      && mapping == Mapping(kept) && compacted == Compact(memories, kept)
      && Stored(compacted, base) && Held(compacted) == Compact(old(Held(memories)), kept)
      && Slots(compacted) == Compact(old(Slots(memories)), kept)
  {
    hide Stored, AllIntact, Numbered, MappedUpTo;
    ghost var kept := Flags(retained, |memories|);
    mapping := seq(|memories|, _ => None);
    compacted := [];
    StoredIntact(memories, base);
    NumberingStarts(Ids(memories), kept);
    for position := 0 to |memories|
      invariant compacted == CompactTo(memories, kept, position) && |compacted| == Rank(kept, position)
      invariant |mapping| == |memories| && MappedUpTo(mapping, kept, position)
      invariant AllIntact(memories, base) && Held(memories) == old(Held(memories)) && Slots(memories) == old(Slots(memories))
      invariant Numbered(Ids(memories), kept, position)
    {
      var memory := memories[position];
      NumberingStep(Ids(memories), mapping, kept, position);
      assert memory.id == Ids(memories)[position];
      if memory.id in retained {
        mapping := mapping[memory.id := Some(|compacted|)];
        Renumber(memories, position, |compacted|, base);
        compacted := compacted + [memory];
      }
      CompactToAt(memories, kept, position + 1, position);
    }
    NumberingEnds(mapping, kept);
    CompactedTable(memories, kept, base);
  }

  lemma NumberingStarts(ids: seq<AlphaMemoryId>, kept: seq<bool>)
    requires |ids| == |kept| && forall i :: 0 <= i < |ids| ==> ids[i] == i
    ensures Numbered(ids, kept, 0) && MappedUpTo(seq(|kept|, _ => None), kept, 0)
  {
  }

  lemma NumberingEnds(mapping: seq<Option<AlphaMemoryId>>, kept: seq<bool>)
    requires MappedUpTo(mapping, kept, |kept|)
    ensures mapping == Mapping(kept)
  {
  }

  lemma CompactedTable(memories: seq<AlphaMemory>, kept: seq<bool>, base: map<FactId, Fact>)
    requires |kept| == |memories| && AllIntact(memories, base) && Numbered(Ids(memories), kept, |kept|)
    ensures Stored(Compact(memories, kept), base)
    ensures Held(Compact(memories, kept)) == Compact(Held(memories), kept)
    ensures Slots(Compact(memories, kept)) == Compact(Slots(memories), kept)
  {
    assert forall i :: 0 <= i < |memories| ==> memories[i].id == Ids(memories)[i];
    var compacted := Compact(memories, kept);
    CompactAt(memories, kept, 0);
    CompactAt(Held(memories), kept, 0);
    CompactAt(Slots(memories), kept, 0);
    forall j | 0 <= j < |compacted|
      ensures Sound(compacted[j], j, base) && compacted[j] in memories
      ensures compacted[j].facts == Compact(Held(memories), kept)[j] && compacted[j].indexedSlots == Compact(Slots(memories), kept)[j]
    {
      var i := CompactOnto(memories, kept, |kept|, j);
      CompactAt(memories, kept, i);
      CompactAt(Held(memories), kept, i);
      CompactAt(Slots(memories), kept, i);
    }
    forall j, k | 0 <= j < k < |compacted| ensures compacted[j] != compacted[k] {
      assert compacted[j].id == j && compacted[k].id == k by {
        assert Sound(compacted[j], j, base) && Sound(compacted[k], k, base);
      }
    }
  }

  // ----- values -----

  lemma EmptyMemoryInverse(reverse: Reverse, contents: Contents)
    requires Inverse(reverse, contents)
    ensures Inverse(reverse, contents + [[]])
  {
    forall m: AlphaMemoryId, f: FactId ensures Recorded(reverse, m, f) <==> Contains(contents + [[]], m, f) {
      assert Recorded(reverse, m, f) <==> Contains(contents, m, f);
    }
  }

  lemma AcceptingInRange(t: Tree, test: Tester, n: NodeId, fact: Fact, size: nat)
    requires TreeWf(t, size) && Arrives(t, test, n, fact)
    ensures forall m :: m in Accepting(t.nodes, test, n, fact) ==> m < size
  {
    AcceptingExact(t, test, n, fact, size);
  }

  lemma JoinLists(a: seq<nat>, b: seq<nat>, c: seq<nat>)
    ensures a + b + c == a + (b + c)
  {
  }

  /** Emptying `f` out of the listed memories empties it out of all when the list is complete. */
  lemma DrainedBy(contents: Contents, holders: seq<AlphaMemoryId>, f: FactId)
    requires forall i :: 0 <= i < |contents| && i !in holders ==> f !in contents[i]
    ensures DrainedIn(contents, holders, f) == Drained(contents, f)
  {
    forall i | 0 <= i < |contents| ensures DrainedIn(contents, holders, f)[i] == Drained(contents, f)[i] {
      if i !in holders { WithoutAbsent(contents[i], f); }
    }
  }

  function DrainedIn(contents: Contents, holders: seq<AlphaMemoryId>, f: FactId): Contents {
    seq(|contents|, i requires 0 <= i < |contents| => if i in holders then Without(contents[i], f) else contents[i])
  }

  lemma DrainedInNone(contents: Contents, f: FactId)
    ensures DrainedIn(contents, [], f) == contents
  {
  }

  lemma DrainedInSnoc(contents: Contents, holders: seq<AlphaMemoryId>, h: AlphaMemoryId, f: FactId)
    ensures var now := DrainedIn(contents, holders, f);
      DrainedIn(contents, holders + [h], f) == if h < |contents| then now[h := Without(now[h], f)] else now
  {
    if h < |contents| {
      WithoutMembers(contents[h], f);
      WithoutAbsent(Without(contents[h], f), f);
    }
  }

  /** One state of the network, on values. */
  ghost predicate Consistent(t: Tree, contents: Contents, reverse: Reverse, live: seq<FactId>, base: map<FactId, Fact>) {
    && TreeWf(t, |contents|)
    && Inverse(reverse, contents)
    && NoDuplicates(live) && forall f :: f in base <==> f in live
  }

  /** Asserting keeps every memory equal to its filter. */
  lemma AssertedState(t: Tree, test: Tester, contents: Contents, reverse: Reverse, live: seq<FactId>, base: map<FactId, Fact>,
                      f: FactId, fact: Fact)
    requires Consistent(t, contents, reverse, live, base) && f !in live
    requires forall i :: 0 <= i < |contents| ==> f !in contents[i]
    ensures var accepted := if fact.entry in t.entries then Accepting(t.nodes, test, t.entries[fact.entry], fact) else [];
      var filled := Filled(contents, f, accepted);
      && Consistent(t, filled, if accepted == [] then reverse else reverse[f := accepted], live + [f], base[f := fact])
      && (Current(t, contents, live, base, test) ==> Current(t, filled, live + [f], base[f := fact], test))
      && (forall x :: 0 <= x < |t.nodes| && t.nodes[x].memory.Some? && t.paths[x].Some? ==>
            (t.nodes[x].memory.value in accepted <==> Passes(test, fact, t.paths[x].value)))
  {
    var accepted := if fact.entry in t.entries then Accepting(t.nodes, test, t.entries[fact.entry], fact) else [];
    AcceptedByNetwork(t, test, fact, |contents|);
    if fact.entry in t.entries { AcceptingInRange(t, test, t.entries[fact.entry], fact, |contents|); }
    FilledInverse(reverse, contents, accepted, f);
    if Current(t, contents, live, base, test) {
      var filled, more, known := Filled(contents, f, accepted), live + [f], base[f := fact];
      forall x | 0 <= x < |t.nodes| ensures CurrentAt(t, filled, more, known, test, x) {
        FilledCurrent(t, contents, live, base, test, accepted, f, fact, x);
      }
    }
  }

  lemma RetractedState(t: Tree, test: Tester, contents: Contents, reverse: Reverse, live: seq<FactId>, base: map<FactId, Fact>, f: FactId)
    requires Consistent(t, contents, reverse, live, base)
    ensures Consistent(t, Drained(contents, f), reverse - {f}, Without(live, f), base - {f})
    ensures Current(t, contents, live, base, test) ==> Current(t, Drained(contents, f), Without(live, f), base - {f}, test)
    ensures forall i :: 0 <= i < |contents| ==> f !in Drained(contents, f)[i]
  {
    WithoutMembers(live, f);
    WithoutDistinct(live, f);
    DrainedInverse(reverse, contents, f);
    forall i | 0 <= i < |contents| ensures f !in Drained(contents, f)[i] { WithoutMembers(contents[i], f); }
    if Current(t, contents, live, base, test) {
      forall x | 0 <= x < |t.nodes| ensures CurrentAt(t, Drained(contents, f), Without(live, f), base - {f}, test, x) {
        DrainedCurrent(t, contents, live, base, test, f, x);
      }
    }
  }

  /** The memories reached at `n` itself and below its first `k` children. */
  function Visited(nodes: seq<AlphaNode>, test: Tester, n: NodeId, fact: Fact, k: nat): seq<AlphaMemoryId>
    requires ChildrenAscend(nodes) && n < |nodes| && k <= |nodes[n].children|
  {
    assert forall c :: c in nodes[n].children[..k] ==> c in nodes[n].children;
    Own(nodes[n]) + AcceptingAll(nodes, test, nodes[n].children[..k], fact, n)
  }

  /** Visiting one more child adds exactly the memories below it. */
  lemma VisitedStep(nodes: seq<AlphaNode>, test: Tester, n: NodeId, fact: Fact, k: nat)
    requires ChildrenAscend(nodes) && n < |nodes| && k < |nodes[n].children|
    ensures n < nodes[n].children[k] < |nodes|
    ensures Visited(nodes, test, n, fact, k + 1) == Visited(nodes, test, n, fact, k) + Accepting(nodes, test, nodes[n].children[k], fact)
  {
    var children := nodes[n].children;
    assert children[k] in children;
    assert forall c :: c in children[..k] ==> c in children;
    assert children[..k + 1][..k] == children[..k];
    JoinLists(Own(nodes[n]), AcceptingAll(nodes, test, children[..k], fact, n), Accepting(nodes, test, children[k], fact));
  }

  lemma VisitedEnds(nodes: seq<AlphaNode>, test: Tester, n: NodeId, fact: Fact)
    requires ChildrenAscend(nodes) && n < |nodes|
    ensures Visited(nodes, test, n, fact, 0) == Own(nodes[n])
    ensures AdmitsAt(test, nodes[n], fact) ==> Visited(nodes, test, n, fact, |nodes[n].children|) == Accepting(nodes, test, n, fact)
    ensures !AdmitsAt(test, nodes[n], fact) ==> Accepting(nodes, test, n, fact) == []
  {
    assert nodes[n].children[..|nodes[n].children|] == nodes[n].children;
  }

  /** The fact base the network has seen: the live facts, stamped in assertion order. */
  predicate Mirrors(factBase: map<FactId, FactEntry>, live: seq<FactId>, base: map<FactId, Fact>) {
    && Chronological(live, factBase) && factBase.Keys == base.Keys
    && forall f :: f in factBase && f in base ==> factBase[f].fact == base[f]
  }

  function InsertByTime(s: seq<FactId>, f: FactId, entries: map<FactId, FactEntry>): seq<FactId>
    requires f in entries && forall g :: g in s ==> g in entries
  {
    if s == [] then [f]
    else
      var last := |s| - 1;
      assert s[last] in s && forall g :: g in s[..last] ==> g in s;
      if entries[s[last]].timestamp < entries[f].timestamp then s + [f]
      else InsertByTime(s[..last], f, entries) + [s[last]]
  }

  lemma ChronologicalSnoc(s: seq<FactId>, f: FactId, entries: map<FactId, FactEntry>)
    requires Chronological(s, entries) && f in entries && forall g :: g in s ==> entries[g].timestamp < entries[f].timestamp
    ensures Chronological(s + [f], entries)
  {
    var longer := s + [f];
    forall i, j | 0 <= i < j < |longer| ensures entries[longer[i]].timestamp < entries[longer[j]].timestamp {
      assert longer[i] == s[i] && s[i] in s;
    }
  }

  lemma {:induction false} InsertedByTime(s: seq<FactId>, f: FactId, entries: map<FactId, FactEntry>)
    requires Chronological(s, entries) && f in entries
    requires forall g :: g in s ==> entries[g].timestamp != entries[f].timestamp
    ensures Chronological(InsertByTime(s, f, entries), entries)
    ensures forall g :: g in InsertByTime(s, f, entries) <==> g in s || g == f
  {
    if s != [] {
      var last, front := s[|s| - 1], s[..|s| - 1];
      assert s == front + [last];
      assert last in s && forall g :: g in front ==> g in s;
      if entries[last].timestamp < entries[f].timestamp {
        forall g | g in s ensures entries[g].timestamp < entries[f].timestamp { LastIsLatest(s, entries, g); }
        ChronologicalSnoc(s, f, entries);
      } else {
        ChronologicalFront(s, entries);
        InsertedByTime(front, f, entries);
        forall g | g in front ensures entries[g].timestamp < entries[last].timestamp { LastIsLatest(s, entries, g); }
        ChronologicalSnoc(InsertByTime(front, f, entries), last, entries);
      }
    }
  }

  /** The facts of the fact base on a path, sorted by timestamp. */
  method CollectMatching(test: Tester, factBase: map<FactId, FactEntry>, path: AlphaPathKey) returns (candidates: seq<FactId>)
    requires forall f, g :: f in factBase && g in factBase && f != g ==> factBase[f].timestamp != factBase[g].timestamp
    ensures Chronological(candidates, factBase)
    ensures forall f :: f in candidates <==> f in factBase && Passes(test, factBase[f].fact, path)
  {
    var pending := factBase.Keys;
    candidates := [];
    while pending != {}
      invariant pending <= factBase.Keys && Chronological(candidates, factBase)
      invariant forall f :: f in candidates <==> f in factBase && f !in pending && Passes(test, factBase[f].fact, path)
      decreases |pending|
    {
      var f :| f in pending;
      pending := pending - {f};
      if Passes(test, factBase[f].fact, path) {
        InsertedByTime(candidates, f, factBase);
        candidates := InsertByTime(candidates, f, factBase);
      }
    }
  }

  lemma MirroredFacts(factBase: map<FactId, FactEntry>, live: seq<FactId>, base: map<FactId, Fact>)
    requires Mirrors(factBase, live, base)
    ensures forall f :: f in factBase ==> f in base && base[f] == factBase[f].fact
  {
  }

  lemma MirrorsAll(factBase: map<FactId, FactEntry>, live: seq<FactId>, base: map<FactId, Fact>)
    requires Mirrors(factBase, live, base)
    ensures forall f :: f in base ==> f in factBase && factBase[f].fact == base[f]
  {
  }

  lemma DistinctStamps(factBase: map<FactId, FactEntry>, live: seq<FactId>, base: map<FactId, Fact>)
    requires Mirrors(factBase, live, base) && forall f :: f in base <==> f in live
    ensures forall f, g :: f in factBase && g in factBase && f != g ==> factBase[f].timestamp != factBase[g].timestamp
  {
    forall f, g | f in factBase && g in factBase && f != g ensures factBase[f].timestamp != factBase[g].timestamp {
      assert f in live && g in live;
      var i :| 0 <= i < |live| && live[i] == f;
      var j :| 0 <= j < |live| && live[j] == g;
      if i < j { assert factBase[live[i]].timestamp < factBase[live[j]].timestamp; }
      if j < i { assert factBase[live[j]].timestamp < factBase[live[i]].timestamp; }
    }
  }

  /** Sorting the matching facts of the fact base by timestamp gives the live facts on the path, in assertion order. */
  lemma CollectedIsMatching(test: Tester, factBase: map<FactId, FactEntry>, live: seq<FactId>, base: map<FactId, Fact>,
                            path: AlphaPathKey, candidates: seq<FactId>)
    requires Mirrors(factBase, live, base) && (forall f :: f in base <==> f in live)
    requires Chronological(candidates, factBase)
    requires forall f :: f in candidates <==> f in factBase && Passes(test, factBase[f].fact, path)
    ensures candidates == Matching(live, base, test, path)
  {
    MatchingMembers(live, base, test, path);
    MatchingChronological(live, base, test, path, factBase);
    ChronologyUnique(candidates, Matching(live, base, test, path), factBase);
  }

  // ----- the network -----

  class AlphaNetwork {
    const test: Tester
    var nodes: seq<AlphaNode>
    var memories: seq<AlphaMemory>
    var entryNodes: map<EntryType, NodeId>
    var factToMemories: Reverse
    ghost var ups: seq<Option<NodeId>>
    ghost var paths: seq<Option<AlphaPathKey>>
    /** The asserted facts not yet retracted, oldest first, and their fields. */
    ghost var live: seq<FactId>
    ghost var base: map<FactId, Fact>

    ghost function Shape(): Tree
      reads this
    {
      Tree(nodes, entryNodes, ups, paths)
    }

    ghost predicate Valid()
      reads this, memories
    {
      Stored(memories, base) && Consistent(Shape(), Held(memories), factToMemories, live, base)
    }

    /** Every attached memory holds exactly the live facts on its path, oldest first. */
    ghost predicate UpToDate()
      reads this, memories
    {
      Current(Shape(), Held(memories), live, base, test)
    }

    constructor (test: Tester)
      ensures Valid() && UpToDate() && live == [] && memories == [] && Shape() == EMPTY_TREE
    {
      this.test := test;
      nodes, memories, entryNodes, factToMemories := [], [], map[], map[];
      ups, paths, live, base := [], [], [], map[];
    }

    method CreateEntryNode(e: EntryType) returns (n: NodeId)
      requires Valid()
      modifies this
      ensures Valid() && (Shape(), n) == WithEntry(old(Shape()), e)
      ensures memories == old(memories) && live == old(live) && base == old(base) && factToMemories == old(factToMemories)
    {
      hide TreeWf, Inverse, Stored;
      WithEntryWf(Shape(), e, |memories|);
      if e in entryNodes { return entryNodes[e]; }
      n := |nodes|;
      nodes := nodes + [AlphaNode(Entry(e), [], None)];
      entryNodes := entryNodes[e := n];
      ups, paths := ups + [None], paths + [Some(AlphaPathKey(e, []))];
    }

    /** Under a missing parent the node hangs nowhere; under its own future id it becomes its own child. */
    method CreateConstantTestNode(parent: NodeId, t: ConstantTest) returns (n: NodeId)
      requires Valid()
      modifies this
      ensures (Valid() <==> parent != old(|nodes|)) && n == old(|nodes|) && |paths| == |nodes|
      ensures old(|paths| == |nodes|) && Shape() == WithTest(old(Shape()), parent, t)
      ensures memories == old(memories) && live == old(live) && base == old(base) && factToMemories == old(factToMemories)
    {
      hide Linked, PathsOk, EntriesOk, AttachedOk, Inverse, Stored;
      TreeSizes(Shape(), |memories|);
      WithTestKeepsTree(Shape(), parent, t, |memories|);
      n := |nodes|;
      ups, paths := ups + [if parent < |nodes| then Some(parent) else None], paths + [Extension(Shape(), parent, t)];
      nodes := nodes + [AlphaNode(Test(t), [], None)];
      if parent < |nodes| {
        nodes := nodes[parent := nodes[parent].(children := nodes[parent].children + [n])];
      }
    }

    method CreateMemory(n: NodeId) returns (m: AlphaMemoryId)
      requires Valid()
      modifies this
      ensures Valid() && m == old(|memories|) && Shape() == WithMemory(old(Shape()), n, m)
      ensures |memories| == m + 1 && memories[..m] == old(memories) && fresh(memories[m])
      ensures Held(memories) == old(Held(memories)) + [[]] && Slots(memories) == old(Slots(memories)) + [[]]
      ensures live == old(live) && base == old(base) && factToMemories == old(factToMemories)
    {
      hide TreeWf, Inverse, Stored;
      m := |memories|;
      WithMemoryWf(Shape(), n, m);
      memories := AppendMemory(memories, base);
      if n < |nodes| {
        nodes := nodes[n := nodes[n].(memory := Some(m))];
      }
      EmptyMemoryInverse(factToMemories, old(Held(memories)));
    }

    /** Insert an accepted fact into every memory at or below `n`, parents before children. */
    method Propagate(n: NodeId, f: FactId, fact: Fact, accepted: seq<AlphaMemoryId>) returns (all: seq<AlphaMemoryId>)
      requires ChildrenAscend(nodes) && AttachedOk(nodes, |memories|) && Stored(memories, base) && n < |nodes|
      requires f in base && base[f] == fact
      modifies memories
      ensures Stored(memories, base)
      ensures all == accepted + Accepting(nodes, test, n, fact)
      ensures Held(memories) == Filled(old(Held(memories)), f, Accepting(nodes, test, n, fact)) && Slots(memories) == old(Slots(memories))
      decreases |nodes| - n
    {
      hide Stored, Slots, Accepting, AcceptingAll, Visited, Filled;
      all := accepted;
      FilledNone(Held(memories), f);
      VisitedEnds(nodes, test, n, fact);
      if nodes[n].kind.Test? && !test(fact, nodes[n].kind.test) { return; }
      if nodes[n].memory.Some? {
        InsertInto(memories, nodes[n].memory.value, f, fact, base);
        all := all + [nodes[n].memory.value];
      }
      ghost var contents := old(Held(memories));
      var children := nodes[n].children;
      for index := 0 to |children|
        invariant Stored(memories, base) && Slots(memories) == old(Slots(memories))
        invariant all == accepted + Visited(nodes, test, n, fact, index)
        invariant Held(memories) == Filled(contents, f, Visited(nodes, test, n, fact, index))
      {
        VisitedStep(nodes, test, n, fact, index);
        ghost var before, here := Visited(nodes, test, n, fact, index), Accepting(nodes, test, children[index], fact);
        all := Propagate(children[index], f, fact, all);
        FilledTwice(contents, f, before, here);
        JoinLists(accepted, before, here);
      }
    }

    /** Assert a new fact: exactly the memories whose path it passes receive it. */
    method AssertFact(f: FactId, fact: Fact) returns (accepted: seq<AlphaMemoryId>)
      requires Valid() && f !in live
      modifies this, memories
      ensures Valid() && memories == old(memories) && Shape() == old(Shape())
      ensures live == old(live) + [f] && base == old(base)[f := fact] && Slots(memories) == old(Slots(memories))
      ensures forall x :: 0 <= x < |nodes| && nodes[x].memory.Some? && x < |paths| && paths[x].Some? ==>
                (nodes[x].memory.value in accepted <==> Passes(test, fact, paths[x].value))
      ensures old(UpToDate()) ==> UpToDate()
    {
      hide Linked, PathsOk, EntriesOk, Inverse, Stored, Current;
      StoredGrows(memories, base, f, fact);
      AssertedState(Shape(), test, Held(memories), factToMemories, live, base, f, fact);
      TreeSizes(Shape(), |memories|);
      accepted := [];
      live, base := live + [f], base[f := fact];
      assert Filled(Held(memories), f, []) == Held(memories);
      if fact.entry in entryNodes {
        ghost var reached := Accepting(nodes, test, entryNodes[fact.entry], fact);
        accepted := Propagate(entryNodes[fact.entry], f, fact, []);
        assert [] + reached == reached;
      }
      if accepted != [] {
        factToMemories := factToMemories[f := accepted];
      }
    }

    method DrainHolders(holders: seq<AlphaMemoryId>, f: FactId, fact: Fact)
      requires Stored(memories, base) && (f in base ==> base[f] == fact)
      modifies memories
      ensures Stored(memories, base) && Held(memories) == DrainedIn(old(Held(memories)), holders, f)
      ensures Slots(memories) == old(Slots(memories))
    {
      hide Stored, Slots, Without, DrainedIn;
      ghost var contents := Held(memories);
      DrainedInNone(contents, f);
      assert holders[..0] == [];
      for k := 0 to |holders|
        invariant Stored(memories, base) && Held(memories) == DrainedIn(contents, holders[..k], f)
        invariant Slots(memories) == old(Slots(memories))
      {
        if holders[k] < |memories| {
          RemoveFrom(memories, holders[k], f, fact, base);
        }
        DrainedInSnoc(contents, holders[..k], holders[k], f);
        assert holders[..k + 1] == holders[..k] + [holders[k]];
      }
      assert holders[..|holders|] == holders;
    }

    /** Retract a fact with the fields it was asserted with; unknown facts are ignored. */
    method RetractFact(f: FactId, fact: Fact)
      requires Valid() && (f in live ==> base[f] == fact)
      modifies this, memories
      ensures Valid() && memories == old(memories) && Shape() == old(Shape())
      ensures live == Without(old(live), f) && base == old(base) - {f}
      ensures Held(memories) == Drained(old(Held(memories)), f) && Slots(memories) == old(Slots(memories))
      ensures old(UpToDate()) ==> UpToDate()
    {
      hide TreeWf, Stored, Current, Slots;
      ghost var contents := Held(memories);
      RetractedState(Shape(), test, contents, factToMemories, live, base, f);
      var holders := if f in factToMemories then factToMemories[f] else [];
      forall i | 0 <= i < |contents| && i !in holders ensures f !in contents[i] {
        assert Recorded(factToMemories, i, f) <==> Contains(contents, i, f);
      }
      factToMemories := factToMemories - {f};
      DrainHolders(holders, f, fact);
      DrainedBy(contents, holders, f);
      StoredShrinks(memories, base, f);
      live, base := Without(live, f), base - {f};
    }

    method NoteMembership(f: FactId, m: AlphaMemoryId)
      modifies this`factToMemories
      ensures factToMemories == Noted(old(factToMemories), f, m)
    {
      if f in factToMemories {
        if m !in factToMemories[f] {
          factToMemories := factToMemories[f := factToMemories[f] + [m]];
        }
      } else {
        factToMemories := factToMemories[f := [m]];
      }
    }

    method FileFact(m: AlphaMemoryId, f: FactId, fact: Fact)
      requires Stored(memories, base) && m < |memories| && f in base && base[f] == fact
      modifies this`factToMemories, memories[m]
      ensures Stored(memories, base) && Held(memories) == Filled(old(Held(memories)), f, [m])
      ensures Slots(memories) == old(Slots(memories))
      ensures factToMemories == Noted(old(factToMemories), f, m)
    {
      hide Stored, Noted;
      InsertInto(memories, m, f, fact, base);
      NoteMembership(f, m);
    }

    /** File facts into an empty memory, in the given order. */
    method FileAll(m: AlphaMemoryId, candidates: seq<FactId>, factBase: map<FactId, FactEntry>)
      requires Stored(memories, base) && m < |memories| && Held(memories)[m] == [] && Inverse(factToMemories, Held(memories))
      requires Chronological(candidates, factBase)
      requires forall f :: f in candidates ==> f in factBase && f in base && base[f] == factBase[f].fact
      modifies this`factToMemories, memories[m]
      ensures Stored(memories, base) && Held(memories) == old(Held(memories))[m := candidates]
      ensures Slots(memories) == old(Slots(memories)) && Inverse(factToMemories, Held(memories))
    {
      hide Stored, Inverse, Slots, Chronological;
      ghost var contents := Held(memories);
      assert contents[m := candidates[..0]] == contents;
      for i := 0 to |candidates|
        invariant Stored(memories, base) && Held(memories) == contents[m := candidates[..i]]
        invariant Slots(memories) == old(Slots(memories)) && Inverse(factToMemories, Held(memories))
      {
        var f := candidates[i];
        assert f in candidates;
        BackfillStep(contents, factToMemories, candidates, i, m, factBase);
        FileFact(m, f, factBase[f].fact);
      }
      assert candidates[..|candidates|] == candidates;
    }

    /** Fill a new memory with the facts asserted before it existed. */
    method BackfillMemory(m: AlphaMemoryId, path: AlphaPathKey, factBase: map<FactId, FactEntry>)
      requires Valid() && m < |memories| && Held(memories)[m] == [] && Mirrors(factBase, live, base)
      modifies this, memories
      ensures Valid() && memories == old(memories) && Shape() == old(Shape()) && live == old(live) && base == old(base)
      ensures Held(memories) == old(Held(memories))[m := Matching(live, base, test, path)]
      ensures Slots(memories) == old(Slots(memories))
    {
      hide TreeWf, Stored, Inverse, Slots;
      DistinctStamps(factBase, live, base);
      var candidates := CollectMatching(test, factBase, path);
      CollectedIsMatching(test, factBase, live, base, path, candidates);
      MirroredFacts(factBase, live, base);
      hide Mirrors, Matching, Chronological, Passes;
      FileAll(m, candidates, factBase);
    }

    /** Index one memory on the physical slots of the given selectors, backfilling the facts it already holds. */
    method RequestIndexes(m: AlphaMemoryId, wanted: seq<(SlotIndex, VarId)>, factBase: map<FactId, FactEntry>)
      requires Valid() && m < |memories| && Mirrors(factBase, live, base)
      modifies memories
      ensures Valid() && Held(memories) == old(Held(memories))
      ensures Slots(memories) == old(Slots(memories))[m := WithSlots(old(Slots(memories))[m], wanted)]
    {
      hide TreeWf, Stored, Inverse, WithSlots, WithSlot, Mirrors;
      MirroredFacts(factBase, live, base);
      var facts := map f | f in factBase :: factBase[f].fact;
      MirrorsAll(factBase, live, base);
      for i := 0 to |wanted|
        invariant Stored(memories, base) && Held(memories) == old(Held(memories))
        invariant |Slots(memories)| == |memories|
        invariant Slots(memories) == old(Slots(memories))[m := Slots(memories)[m]]
        invariant WithSlots(Slots(memories)[m], wanted[i..]) == WithSlots(old(Slots(memories))[m], wanted)
      {
        WithSlotsStep(Slots(memories)[m], wanted, i);
        RequestOn(memories, m, wanted[i].0, facts, base);
      }
      WithSlotsEnd(Slots(memories)[m], wanted);
    }

    /** Keep only the retained memories and the paths leading to one, compacting both tables. */
    method RetainMemories(retained: set<AlphaMemoryId>) returns (mapping: seq<Option<AlphaMemoryId>>, ghost keep: seq<bool>)
      requires Valid()
      modifies this, memories
      ensures Valid() && live == old(live) && base == old(base)
      ensures var kept := Flags(retained, old(|memories|));
        && mapping == Mapping(kept) && memories == Compact(old(memories), kept)
        && Held(memories) == Compact(old(Held(memories)), kept) && Slots(memories) == Compact(old(Slots(memories)), kept)
        && KeepsPaths(old(Shape()), retained, keep) && |old(ups)| == |old(nodes)| == |old(paths)|
        && Shape() == Pruned(old(Shape()), keep, kept)
      ensures old(UpToDate()) ==> UpToDate()
    {
      hide Stored, TreeWf, Inverse, Current, KeepsPaths, Compact, RemapReverse, Mapping, Slots, AttachedOk, ChildrenAscend;
      ghost var kept, shape, contents := Flags(retained, |memories|), Shape(), Held(memories);
      TreeSizes(shape, |memories|);
      var compacted, remap := CompactTable(memories, retained, base);
      var liveNodes, liveEntries, marks := PruneTree(nodes, entryNodes, retained, remap, shape, kept);
      var reverse := FilterReverse(factToMemories, remap, kept);
      PrunedState(shape, test, contents, factToMemories, live, base, retained, marks, kept);
      Adopt(compacted, liveNodes, liveEntries, reverse, Pruned(shape, marks, kept));
      mapping, keep := remap, marks;
    }

    /** Replace the tables. */
    method Adopt(compacted: seq<AlphaMemory>, liveNodes: seq<AlphaNode>, liveEntries: map<EntryType, NodeId>, reverse: Reverse,
                 ghost shape: Tree)
      requires shape.nodes == liveNodes && shape.entries == liveEntries
      modifies this
      ensures memories == compacted && factToMemories == reverse && Shape() == shape && live == old(live) && base == old(base)
    {
      memories, nodes, entryNodes, factToMemories := compacted, liveNodes, liveEntries, reverse;
      ups, paths := shape.ups, shape.paths;
    }

    /** Forget every fact, keeping the paths. */
    method ClearAllMemories()
      requires Valid()
      modifies this, memories
      ensures Valid() && UpToDate() && memories == old(memories) && Shape() == old(Shape())
      ensures live == [] && base == map[] && Slots(memories) == old(Slots(memories))
    {
      hide TreeWf, Stored, Inverse;
      for i := 0 to |memories|
        invariant memories == old(memories) && Shape() == old(Shape()) && base == old(base)
        invariant Stored(memories, base) && forall j :: 0 <= j < i ==> Held(memories)[j] == []
        invariant Slots(memories) == old(Slots(memories))
      {
        ClearOne(memories, i, base);
      }
      StoredEmpty(memories, base);
      factToMemories := map[];
      live, base := [], map[];
      EmptyIsCurrent(Shape(), Held(memories), test);
    }
  }

  method FilterReverse(reverse: Reverse, mapping: seq<Option<AlphaMemoryId>>, ghost kept: seq<bool>) returns (remapped: Reverse)
    requires mapping == Mapping(kept)
    ensures remapped == RemapReverse(reverse, kept)
  {
    remapped := map[];
    var pending := reverse.Keys;
    while pending != {}
      invariant pending <= reverse.Keys
      invariant remapped == map f | f in reverse && f !in pending && RemapIds(reverse[f], kept) != [] :: RemapIds(reverse[f], kept)
    {
      var f :| f in pending;
      var ids := FilterMap(reverse[f], mapping, kept);
      if ids != [] { remapped := remapped[f := ids]; }
      pending := pending - {f};
    }
  }

  method PruneTree(nodes: seq<AlphaNode>, entries: map<EntryType, NodeId>, retained: set<AlphaMemoryId>,
                   memoryMap: seq<Option<AlphaMemoryId>>, ghost t: Tree, ghost kept: seq<bool>)
    returns (liveNodes: seq<AlphaNode>, liveEntries: map<EntryType, NodeId>, keep: seq<bool>)
    requires TreeWf(t, |kept|) && t.nodes == nodes && t.entries == entries && memoryMap == Mapping(kept)
    ensures |t.ups| == |t.nodes| == |t.paths| == |keep| && KeepsPaths(t, retained, keep)
    ensures liveNodes == Pruned(t, keep, kept).nodes && liveEntries == Pruned(t, keep, kept).entries
  {
    hide KeepsPaths, Linked, PathsOk, EntriesOk, AttachedOk;
    TreeSizes(t, |kept|);
    keep := MarkNodes(nodes, retained, t);
    MarksSize(t, retained, keep);
    var nodeMap := NumberNodes(keep);
    liveNodes := DrainNodes(nodes, keep, nodeMap, memoryMap, kept);
    liveEntries := map e | e in entries && entries[e] < |nodeMap| && nodeMap[entries[e]].Some? :: nodeMap[entries[e]].value;
  }

  lemma MarksSize(t: Tree, retained: set<AlphaMemoryId>, keep: seq<bool>)
    requires KeepsPaths(t, retained, keep)
    ensures |keep| == |t.nodes|
  {
  }

  lemma PrunedState(t: Tree, test: Tester, contents: Contents, reverse: Reverse, live: seq<FactId>, base: map<FactId, Fact>,
                    retained: set<AlphaMemoryId>, keep: seq<bool>, kept: seq<bool>)
    requires Consistent(t, contents, reverse, live, base) && KeepsPaths(t, retained, keep) && |kept| == |contents|
    ensures |t.ups| == |t.nodes| == |t.paths|
    ensures Consistent(Pruned(t, keep, kept), Compact(contents, kept), RemapReverse(reverse, kept), live, base)
    ensures Current(t, contents, live, base, test) ==> Current(Pruned(t, keep, kept), Compact(contents, kept), live, base, test)
  {
    PrunedWf(t, keep, kept, retained);
    PrunedInverse(reverse, contents, kept);
    CompactAt(contents, kept, 0);
    PrunedSize(t, keep, kept);
    if Current(t, contents, live, base, test) {
      forall j | 0 <= j < |Pruned(t, keep, kept).nodes|
        ensures CurrentAt(Pruned(t, keep, kept), Compact(contents, kept), live, base, test, j)
      {
        var i := PrunedFrom(t, keep, kept, j);
        PrunedCurrent(t, contents, live, base, test, keep, kept, i);
      }
    }
  }

  lemma BackfillStep(contents: Contents, reverse: Reverse, candidates: seq<FactId>, i: nat, m: AlphaMemoryId, factBase: map<FactId, FactEntry>)
    requires m < |contents| && i < |candidates| && Chronological(candidates, factBase)
    requires Inverse(reverse, contents[m := candidates[..i]])
    ensures var before, after := contents[m := candidates[..i]], contents[m := candidates[..i + 1]];
      Inverse(Noted(reverse, candidates[i], m), after) && Filled(before, candidates[i], [m]) == after
  {
    var before := contents[m := candidates[..i]];
    assert candidates[..i + 1] == candidates[..i] + [candidates[i]];
    assert candidates[i] !in candidates[..i] by {
      forall k | 0 <= k < i ensures candidates[k] != candidates[i] {
        assert factBase[candidates[k]].timestamp < factBase[candidates[i]].timestamp;
      }
    }
    NotedInverse(reverse, before, candidates[i], m);
    assert before[m := before[m] + [candidates[i]]] == contents[m := candidates[..i + 1]];
  }

  lemma TreeSizes(t: Tree, size: nat)
    requires TreeWf(t, size)
    ensures |t.ups| == |t.nodes| == |t.paths| && ChildrenAscend(t.nodes) && AttachedOk(t.nodes, size)
    ensures forall e :: e in t.entries ==> t.entries[e] < |t.nodes|
  {
  }

  lemma EmptyIsCurrent(t: Tree, contents: Contents, test: Tester)
    requires TreeWf(t, |contents|) && forall j :: 0 <= j < |contents| ==> contents[j] == []
    ensures Current(t, contents, [], map[], test)
  {
  }
}
