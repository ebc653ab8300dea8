/** One beta memory: its tokens in insertion order, the variable indices requested on it, and the ranks that
    tell NCC parents which of two tokens is newer. */
module BetaMemories {
  import opened Syntax
  import opened Sequences
  import opened Index

  /** The index key of a token's binding; an unbound variable, a multifield and void have none. */
  function BindingKey(env: Env, v: VarId): Option<Value> {
    if v in env then AtomKey(env[v]) else None
  }

  /** `found` lists the tokens that bind `v` to `value`, once each, in insertion order. */
  ghost predicate ListsBound(tokens: seq<TokenId>, records: map<TokenId, Env>, v: VarId, value: Value, found: seq<TokenId>) {
    && (forall t :: t in found <==> t in tokens && t in records && v in records[t] && records[t][v] == value)
    && NoDuplicates(found) && forall i, j :: 0 <= i < j < |found| ==> InOrder(tokens, found[i], found[j])
  }

  lemma BoundScan(tokens: seq<TokenId>, records: map<TokenId, Env>, v: VarId, value: Value)
    requires NoDuplicates(tokens)
    ensures Atomic(value) ==> ListsBound(tokens, records, v, value, Scan(tokens, records, BindingKey, v, value))
  {
    ScanMembers(tokens, records, BindingKey, v, value);
    ScanOrder(tokens, records, BindingKey, v, value);
    forall t | t in tokens && t in records && v in records[t]
      ensures BindingKey(records[t], v) == Some(value) <==> Atomic(value) && records[t][v] == value
    {
      KeyIsValue(records[t][v], value);
    }
  }

  datatype Ranks = Ranks(ranks: map<TokenId, nat>, next: nat)

  /** Ranks cover exactly the members, grow along insertion order and stay below the counter. */
  ghost predicate Ranked(tokens: seq<TokenId>, r: Ranks) {
    && (forall t :: t in r.ranks <==> t in tokens) && r.next <= U64_MAX
    && (forall i :: 0 <= i < |tokens| ==> r.ranks[tokens[i]] < r.next)
    && (forall i, j :: 0 <= i < j < |tokens| ==> r.ranks[tokens[i]] < r.ranks[tokens[j]])
  }

  function Positions(tokens: seq<TokenId>, n: nat): map<TokenId, nat>
    requires n <= |tokens|
  {
    if n == 0 then map[] else Positions(tokens, n - 1)[tokens[n - 1] := n - 1]
  }

  lemma {:induction false} PositionsAt(tokens: seq<TokenId>, n: nat)
    requires NoDuplicates(tokens) && n <= |tokens|
    ensures forall t :: t in Positions(tokens, n) <==> t in tokens[..n]
    ensures forall i :: 0 <= i < n ==> tokens[i] in Positions(tokens, n) && Positions(tokens, n)[tokens[i]] == i
  {
    if n > 0 {
      PositionsAt(tokens, n - 1);
      assert tokens[..n] == tokens[..n - 1] + [tokens[n - 1]];
    }
  }

  lemma PositionsRanked(tokens: seq<TokenId>)
    requires NoDuplicates(tokens) && |tokens| <= U64_MAX
    ensures Ranked(tokens, Ranks(Positions(tokens, |tokens|), |tokens|))
  {
    PositionsAt(tokens, |tokens|);
    assert tokens[..|tokens|] == tokens;
  }

  /** Number the members by position. */
  method NumberMembers(tokens: seq<TokenId>) returns (r: Ranks)
    requires NoDuplicates(tokens) && |tokens| <= U64_MAX
    ensures Ranked(tokens, r) && r.next == |tokens|
  {
    var ranks: map<TokenId, nat> := map[];
    for i := 0 to |tokens|
      invariant ranks == Positions(tokens, i)
    {
      ranks := ranks[tokens[i] := i];
    }
    PositionsRanked(tokens);
    r := Ranks(ranks, |tokens|);
  }

  lemma RankedAfterRemove(tokens: seq<TokenId>, r: Ranks, t: TokenId)
    requires NoDuplicates(tokens) && Ranked(tokens, r)
    ensures Ranked(Without(tokens, t), Ranks(r.ranks - {t}, r.next))
  {
    WithoutMembers(tokens, t);
    WithoutKeepsOrder(tokens, t);
    var fewer := Without(tokens, t);
    forall i | 0 <= i < |fewer| ensures (r.ranks - {t})[fewer[i]] < r.next {
      assert fewer[i] in fewer && fewer[i] in tokens;
      var j :| 0 <= j < |tokens| && tokens[j] == fewer[i];
    }
    forall i, j | 0 <= i < j < |fewer| ensures fewer[i] in fewer && fewer[j] in fewer && r.ranks[fewer[i]] < r.ranks[fewer[j]] {
      assert InOrder(tokens, fewer[i], fewer[j]);
    }
  }

  lemma CounterBounded(tokens: seq<TokenId>, r: Ranks)
    requires Ranked(tokens, r)
    ensures r.next <= U64_MAX
  {
  }

  lemma RankedAfterAppend(before: seq<TokenId>, r: Ranks, t: TokenId)
    requires Ranked(before, r) && t !in before && r.next < U64_MAX
    ensures Ranked(before + [t], Ranks(r.ranks[t := r.next], r.next + 1))
  {
    var tokens := before + [t];
    assert forall i :: 0 <= i < |before| ==> tokens[i] == before[i] && before[i] in before;
  }

  class BetaMemory {
    var tokens: seq<TokenId>
    var varIndices: Buckets<VarId>
    var indexedVars: seq<VarId>
    var nccParentRanks: Option<Ranks>
    /** The bindings each member was inserted with. */
    ghost var records: map<TokenId, Env>

    /** Every lookup on an indexed variable answers like a scan of the members, and ranks tell insertion order. */
    ghost predicate Valid()
      reads this
    {
      && NoDuplicates(tokens) && NoDuplicates(indexedVars)
      && (forall t :: t in records <==> t in tokens)
      && Exact(varIndices, indexedVars, tokens, records, BindingKey)
      && (nccParentRanks.Some? ==> Ranked(tokens, nccParentRanks.value))
    }

    constructor ()
      ensures Valid() && tokens == [] && indexedVars == [] && nccParentRanks == None && records == map[]
    {
      tokens, varIndices, indexedVars, nccParentRanks, records := [], map[], [], None, map[];
    }

    /** Start ranking, also on a memory that already holds tokens. */
    method EnableNccParentRanks()
      requires Valid() && |tokens| <= U64_MAX
      modifies this`nccParentRanks
      ensures Valid() && nccParentRanks.Some?
    {
      hide Exact;
      if nccParentRanks.None? {
        var r := NumberMembers(tokens);
        nccParentRanks := Some(r);
      }
    }

    /** Newer members rank higher. */
    method NccParentRank(t: TokenId) returns (rank: Option<nat>)
      requires Valid()
      ensures rank.Some? <==> nccParentRanks.Some? && t in tokens
      ensures forall i, j :: nccParentRanks.Some? && 0 <= i < |tokens| && 0 <= j < |tokens| && tokens[i] == t && i < j ==>
        rank.Some? && tokens[j] in nccParentRanks.value.ranks && rank.value < nccParentRanks.value.ranks[tokens[j]]
    {
      rank := None;
      if nccParentRanks.Some? && t in nccParentRanks.value.ranks { rank := Some(nccParentRanks.value.ranks[t]); }
    }

    /** Rank the newly appended token; an exhausted counter renumbers all members. */
    method RecordNccParentRank(t: TokenId, ghost before: seq<TokenId>)
      requires NoDuplicates(tokens) && tokens == before + [t] && t !in before && |tokens| < U64_MAX
      requires nccParentRanks.Some? ==> Ranked(before, nccParentRanks.value)
      modifies this`nccParentRanks
      ensures nccParentRanks.Some? == old(nccParentRanks.Some?)
      ensures nccParentRanks.Some? ==> Ranked(tokens, nccParentRanks.value)
    {
      if nccParentRanks.None? { return; }
      var r := nccParentRanks.value;
      CounterBounded(before, r);
      hide Ranked;
      if r.next == U64_MAX {
        r := NumberMembers(tokens);
      } else {
        RankedAfterAppend(before, r, t);
        r := Ranks(r.ranks[t := r.next], r.next + 1);
      }
      nccParentRanks := Some(r);
    }

    /** Index a variable from now on and backfill the tokens already present. */
    method RequestVarIndex(v: VarId, store: map<TokenId, Env>)
      requires Valid() && forall t :: t in tokens ==> t in store && store[t] == records[t]
      modifies this
      ensures Valid() && tokens == old(tokens) && records == old(records) && nccParentRanks == old(nccParentRanks)
      ensures indexedVars == if v in old(indexedVars) then old(indexedVars) else old(indexedVars) + [v]
    {
      hide Ranked;
      if v in indexedVars { return; }
      NotIndexed(varIndices, indexedVars, tokens, records, BindingKey, v);
      var filled := BackfillEntries(varIndices, v, BindingKey, tokens, store);
      ExactAfterBackfill(varIndices, filled, indexedVars, v, tokens, records, store, BindingKey);
      indexedVars, varIndices := indexedVars + [v], filled;
    }

    /** Index a variable of a memory known to be empty. */
    method RequestVarIndexEmpty(v: VarId)
      requires Valid() && tokens == []
      modifies this`indexedVars
      ensures Valid() && indexedVars == if v in old(indexedVars) then old(indexedVars) else old(indexedVars) + [v]
    {
      if v !in indexedVars { indexedVars := indexedVars + [v]; }
    }

    method LookupByVar(v: VarId, key: Value) returns (found: Option<seq<TokenId>>)
      requires Valid()
      ensures found == (if v in indexedVars && Scan(tokens, records, BindingKey, v, key) != []
                        then Some(Scan(tokens, records, BindingKey, v, key)) else None)
      ensures v in indexedVars && Atomic(key) ==> ListsBound(tokens, records, v, key, if found.Some? then found.value else [])
      ensures found.Some? ==> v in indexedVars && found.value != []
    {
      BoundScan(tokens, records, v, key);
      assert Index.Lookup(varIndices, v, key) == if v in indexedVars then Scan(tokens, records, BindingKey, v, key) else [];
      if v !in varIndices || key !in varIndices[v] { return None; }
      return Some(varIndices[v][key]);
    }

    /** Insert a token without its bindings: right exactly when none of them has a key under an index. */
    method Insert(t: TokenId, ghost bindings: Env)
      requires Valid() && |tokens| + 1 < U64_MAX && HasNoKey(indexedVars, bindings)
      modifies this
      ensures Valid() && indexedVars == old(indexedVars) && nccParentRanks.Some? == old(nccParentRanks.Some?)
      ensures tokens == if t in old(tokens) then old(tokens) else old(tokens) + [t]
      ensures records == if t in old(tokens) then old(records) else old(records)[t := bindings]
    {
      hide Exact, Ranked;
      if t in tokens { return; }
      PlainInsertionIsExact(varIndices, indexedVars, tokens, records, t, bindings);
      ghost var before := tokens;
      tokens, records := tokens + [t], records[t := bindings];
      RecordNccParentRank(t, before);
    }

    method InsertIndexed(t: TokenId, bindings: Env)
      requires Valid() && |tokens| + 1 < U64_MAX
      modifies this
      ensures Valid() && indexedVars == old(indexedVars) && nccParentRanks.Some? == old(nccParentRanks.Some?)
      ensures tokens == if t in old(tokens) then old(tokens) else old(tokens) + [t]
      ensures records == if t in old(tokens) then old(records) else old(records)[t := bindings]
    {
      hide Exact, Ranked, Moved;
      if t in tokens { return; }
      ExactParts(varIndices, indexedVars, tokens, records);
      var grown := AddEntries(varIndices, indexedVars, BindingKey, bindings, t);
      ExactAfterInsert(varIndices, grown, indexedVars, tokens, records, BindingKey, t, bindings);
      ghost var before := tokens;
      tokens, records, varIndices := tokens + [t], records[t := bindings], grown;
      RecordNccParentRank(t, before);
    }

    method DropRank(t: TokenId)
      requires NoDuplicates(tokens) && (nccParentRanks.Some? ==> Ranked(tokens, nccParentRanks.value))
      modifies this`nccParentRanks
      ensures nccParentRanks.Some? == old(nccParentRanks.Some?)
      ensures nccParentRanks.Some? ==> Ranked(Without(tokens, t), nccParentRanks.value)
    {
      if nccParentRanks.Some? {
        RankedAfterRemove(tokens, nccParentRanks.value, t);
        nccParentRanks := Some(Ranks(nccParentRanks.value.ranks - {t}, nccParentRanks.value.next));
      }
    }

    /** Remove a token without its bindings: right exactly when none of them has a key under an index. */
    method Remove(t: TokenId)
      requires Valid() && (t in tokens ==> HasNoKey(indexedVars, records[t]))
      modifies this
      ensures Valid() && indexedVars == old(indexedVars) && nccParentRanks.Some? == old(nccParentRanks.Some?)
      ensures tokens == Without(old(tokens), t) && records == old(records) - {t}
    {
      hide Exact, Ranked;
      if t in tokens {
        PlainRemovalIsExact(varIndices, indexedVars, tokens, records, t);
      } else {
        WithoutAbsent(tokens, t);
        assert records - {t} == records;
      }
      MembersAfterRemove(tokens, records, t);
      DropRank(t);
      tokens, records := Without(tokens, t), records - {t};
    }

    method RemoveIndexed(t: TokenId, bindings: Env)
      requires Valid() && (t in tokens ==> records[t] == bindings)
      modifies this
      ensures Valid() && indexedVars == old(indexedVars) && nccParentRanks.Some? == old(nccParentRanks.Some?)
      ensures tokens == Without(old(tokens), t) && records == old(records) - {t}
    {
      hide Exact, Ranked, Moved;
      ExactParts(varIndices, indexedVars, tokens, records);
      DropRank(t);
      var shrunk := RemoveEntries(varIndices, indexedVars, BindingKey, bindings, t);
      ExactAfterRemove(varIndices, shrunk, indexedVars, tokens, records, BindingKey, t, bindings);
      tokens, records, varIndices := Without(tokens, t), records - {t}, shrunk;
    }

    /** Forget every token; the requested variables stay indexed and ranking stays enabled. */
    method Clear()
      requires Valid()
      modifies this
      ensures Valid() && tokens == [] && records == map[] && indexedVars == old(indexedVars)
      ensures nccParentRanks == if old(nccParentRanks).None? then None else Some(Ranks(map[], 0))
    {
      tokens, varIndices, records := [], map[], map[];
      if nccParentRanks.Some? { nccParentRanks := Some(Ranks(map[], 0)); }
    }
  }

  lemma ExactParts(ix: Buckets<VarId>, vars: seq<VarId>, tokens: seq<TokenId>, records: map<TokenId, Env>)
    requires Exact(ix, vars, tokens, records, BindingKey)
    ensures Canonical(ix)
  {
  }

  /** No binding of the token has a key under an indexed variable. */
  predicate HasNoKey(vars: seq<VarId>, env: Env) {
    forall v :: v in vars ==> BindingKey(env, v) == None
  }

  /** Leaving the index alone while a token joins keeps it exact if and only if the token has no key there. */
  lemma PlainInsertionIsExact(ix: Buckets<VarId>, vars: seq<VarId>, tokens: seq<TokenId>, records: map<TokenId, Env>, t: TokenId, env: Env)
    requires Exact(ix, vars, tokens, records, BindingKey) && t !in tokens && forall x :: x in tokens ==> x in records
    ensures Exact(ix, vars, tokens + [t], records[t := env], BindingKey) <==> HasNoKey(vars, env)
  {
    if HasNoKey(vars, env) { ExactAfterInsert(ix, ix, vars, tokens, records, BindingKey, t, env); }
    if v :| v in vars && BindingKey(env, v).Some? {
      var k := BindingKey(env, v).value;
      ScanMembers(tokens, records, BindingKey, v, k);
      ScanMembers(tokens + [t], records[t := env], BindingKey, v, k);
      assert Index.Lookup(ix, v, k) == Scan(tokens, records, BindingKey, v, k);
      assert t in Scan(tokens + [t], records[t := env], BindingKey, v, k);
    }
  }

  /** Leaving the index alone while a token leaves keeps it exact if and only if the token has no key there. */
  lemma PlainRemovalIsExact(ix: Buckets<VarId>, vars: seq<VarId>, tokens: seq<TokenId>, records: map<TokenId, Env>, t: TokenId)
    requires Exact(ix, vars, tokens, records, BindingKey) && NoDuplicates(tokens) && (forall x :: x in records <==> x in tokens) && t in tokens
    ensures Exact(ix, vars, Without(tokens, t), records - {t}, BindingKey) <==> HasNoKey(vars, records[t])
  {
    if HasNoKey(vars, records[t]) { ExactAfterRemove(ix, ix, vars, tokens, records, BindingKey, t, records[t]); }
    if v :| v in vars && BindingKey(records[t], v).Some? {
      var k := BindingKey(records[t], v).value;
      ScanMembers(tokens, records, BindingKey, v, k);
      ScanMembers(Without(tokens, t), records - {t}, BindingKey, v, k);
      assert Index.Lookup(ix, v, k) == Scan(tokens, records, BindingKey, v, k);
      assert t in Scan(tokens, records, BindingKey, v, k);
    }
  }

  const ZERO_INDEXED: seq<VarId> := [0]
  const FIVE_AT_ZERO: Env := map[0 := Integer(5)]
  const SEVEN_FOUND: Buckets<VarId> := map[0 := map[Integer(5) := [7]]]

  /** Variable 0 is indexed: a plainly inserted token 7 that binds it to 5 is in the memory and in no bucket. */
  lemma PlainInsertionMissesToken()
    ensures Exact(map[], ZERO_INDEXED, [], map[], BindingKey)
    ensures !Exact(map[], ZERO_INDEXED, [7], map[7 := FIVE_AT_ZERO], BindingKey)
    ensures Index.Lookup<VarId>(map[], 0, Integer(5)) == [] && Scan([7], map[7 := FIVE_AT_ZERO], BindingKey, 0, Integer(5)) == [7]
  {
    assert BindingKey(FIVE_AT_ZERO, 0) == Some(Integer(5)) && 0 in ZERO_INDEXED;
    assert [7][..0] == [];
    assert Index.Lookup<VarId>(map[], 0, Integer(5)) != Scan([7], map[7 := FIVE_AT_ZERO], BindingKey, 0, Integer(5));
  }

  /** Token 7 again, inserted with its index entry: plain removal leaves a bucket that names a token no longer there. */
  lemma PlainRemovalKeepsToken()
    ensures Exact(SEVEN_FOUND, ZERO_INDEXED, [7], map[7 := FIVE_AT_ZERO], BindingKey)
    ensures !Exact(SEVEN_FOUND, ZERO_INDEXED, [], map[], BindingKey)
    ensures Index.Lookup(SEVEN_FOUND, 0, Integer(5)) == [7]
  {
    assert BindingKey(FIVE_AT_ZERO, 0) == Some(Integer(5)) && 0 in ZERO_INDEXED;
    assert [7][..0] == [];
    assert Integer(5) in SEVEN_FOUND[0] && SEVEN_FOUND[0] != map[];
    assert Index.Lookup(SEVEN_FOUND, 0, Integer(5)) != Scan([], map[], BindingKey, 0, Integer(5));
  }

  lemma MembersAfterRemove(tokens: seq<TokenId>, records: map<TokenId, Env>, t: TokenId)
    requires NoDuplicates(tokens) && forall x :: x in records <==> x in tokens
    ensures NoDuplicates(Without(tokens, t)) && forall x :: x in records - {t} <==> x in Without(tokens, t)
  {
    WithoutMembers(tokens, t);
    WithoutDistinct(tokens, t);
  }
}
