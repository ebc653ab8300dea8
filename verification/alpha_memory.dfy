/** One alpha memory: its facts in insertion order and the slot indices requested on it. */
module AlphaMemories {
  import opened Syntax
  import opened Sequences
  import opened Index

  /** The index key of a fact at a slot; a missing field, a multifield and void have none. */
  function FactKey(fact: Fact, slot: SlotIndex): Option<Value> {
    var value := SlotValue(fact, slot);
    if value.Some? then AtomKey(value.value) else None
  }

  /** `found` lists the facts whose field at the slot is `value`, once each, in insertion order. */
  ghost predicate ListsHolders(facts: seq<FactId>, records: map<FactId, Fact>, slot: SlotIndex, value: Value, found: seq<FactId>) {
    && (forall f :: f in found <==> f in facts && f in records && FieldIs(records[f], slot, value))
    && NoDuplicates(found) && forall i, j :: 0 <= i < j < |found| ==> InOrder(facts, found[i], found[j])
  }

  lemma HolderScan(facts: seq<FactId>, records: map<FactId, Fact>, slot: SlotIndex, value: Value)
    requires NoDuplicates(facts)
    ensures Atomic(value) ==> ListsHolders(facts, records, slot, value, Scan(facts, records, FactKey, slot, value))
  {
    ScanMembers(facts, records, FactKey, slot, value);
    ScanOrder(facts, records, FactKey, slot, value);
    forall f | f in facts && f in records
      ensures FactKey(records[f], slot) == Some(value) <==> Atomic(value) && FieldIs(records[f], slot, value)
    {
      SlotValueIsField(records[f], slot, value);
      if SlotValue(records[f], slot).Some? { KeyIsValue(SlotValue(records[f], slot).value, value); }
    }
  }

  class AlphaMemory {
    var id: AlphaMemoryId
    var facts: seq<FactId>
    var slotIndices: Buckets<SlotIndex>
    var indexedSlots: seq<SlotIndex>
    /** The fact each member was inserted with. */
    ghost var records: map<FactId, Fact>

    /** Every lookup on an indexed slot answers like a scan of the members. */
    ghost predicate Valid()
      reads this
    {
      && NoDuplicates(facts) && NoDuplicates(indexedSlots)
      && (forall f :: f in records <==> f in facts)
      && Exact(slotIndices, indexedSlots, facts, records, FactKey)
    }

    constructor (id: AlphaMemoryId)
      ensures Valid() && this.id == id && facts == [] && indexedSlots == [] && records == map[]
    {
      this.id := id;
      facts, slotIndices, indexedSlots, records := [], map[], [], map[];
    }

    method Insert(f: FactId, fact: Fact)
      requires Valid()
      modifies this
      ensures Valid() && id == old(id) && indexedSlots == old(indexedSlots)
      ensures facts == if f in old(facts) then old(facts) else old(facts) + [f]
      ensures records == if f in old(facts) then old(records) else old(records)[f := fact]
    {
      if f in facts { return; }
      var grown := AddEntries(slotIndices, indexedSlots, FactKey, fact, f);
      ExactAfterInsert(slotIndices, grown, indexedSlots, facts, records, FactKey, f, fact);
      facts, slotIndices, records := facts + [f], grown, records[f := fact];
    }

    /** The caller retracts a fact with the fields it was asserted with. */
    method Remove(f: FactId, fact: Fact)
      requires Valid() && (f in facts ==> records[f] == fact)
      modifies this
      ensures Valid() && id == old(id) && indexedSlots == old(indexedSlots)
      ensures facts == Without(old(facts), f) && records == old(records) - {f}
    {
      if f !in facts {
        WithoutAbsent(facts, f);
        assert f !in records && records - {f} == records;
        return;
      }
      var shrunk := RemoveEntries(slotIndices, indexedSlots, FactKey, fact, f);
      ExactAfterRemove(slotIndices, shrunk, indexedSlots, facts, records, FactKey, f, fact);
      facts, slotIndices, records := Without(facts, f), shrunk, records - {f};
    }

    /** Index a slot from now on and backfill the facts already present. */
    method RequestIndex(slot: SlotIndex, base: map<FactId, Fact>)
      requires Valid() && forall f :: f in facts ==> f in base && base[f] == records[f]
      modifies this
      ensures Valid() && id == old(id) && facts == old(facts) && records == old(records)
      ensures indexedSlots == if slot in old(indexedSlots) then old(indexedSlots) else old(indexedSlots) + [slot]
    {
      if slot in indexedSlots { return; }
      NotIndexed(slotIndices, indexedSlots, facts, records, FactKey, slot);
      var filled := BackfillEntries(slotIndices, slot, FactKey, facts, base);
      ExactAfterBackfill(slotIndices, filled, indexedSlots, slot, facts, records, base, FactKey);
      indexedSlots, slotIndices := indexedSlots + [slot], filled;
    }

    /** Index a slot of a memory known to be empty. */
    method RequestIndexEmpty(slot: SlotIndex)
      requires Valid() && facts == []
      modifies this
      ensures Valid() && id == old(id) && facts == [] && records == old(records)
      ensures indexedSlots == if slot in old(indexedSlots) then old(indexedSlots) else old(indexedSlots) + [slot]
    {
      if slot !in indexedSlots {
        indexedSlots := indexedSlots + [slot];
      }
    }

    method LookupBySlot(slot: SlotIndex, key: Value) returns (found: Option<seq<FactId>>)
      requires Valid()
      ensures found == (if slot in indexedSlots && Scan(facts, records, FactKey, slot, key) != []
                        then Some(Scan(facts, records, FactKey, slot, key)) else None)
      ensures slot in indexedSlots && Atomic(key) ==> ListsHolders(facts, records, slot, key, if found.Some? then found.value else [])
      ensures found.Some? ==> slot in indexedSlots && found.value != []
    {
      HolderScan(facts, records, slot, key);
      assert Index.Lookup(slotIndices, slot, key) ==
             if slot in indexedSlots then Scan(facts, records, FactKey, slot, key) else [];
      if slot !in slotIndices || key !in slotIndices[slot] { return None; }
      return Some(slotIndices[slot][key]);
    }

    /** Forget every fact; the requested slots stay indexed. */
    method Clear()
      modifies this
      requires Valid()
      ensures Valid() && id == old(id) && facts == [] && records == map[] && indexedSlots == old(indexedSlots)
    {
      facts, slotIndices, records := [], map[], map[];
    }
  }
}
