/** Compacting an id-indexed table: survivors keep their order and contents and are renumbered. */
module Compaction {
  import opened Syntax

  /** A memory in an id-indexed table, with whatever it currently holds. */
  datatype Memory<T> = Memory(id: nat, contents: T)

  /** How many of the first `i` entries survive: the new id of entry `i` when it survives. */
  function Rank(keep: seq<bool>, i: nat): nat
    requires i <= |keep|
  {
    if i == 0 then 0 else Rank(keep, i - 1) + (if keep[i - 1] then 1 else 0)
  }

  function CompactTo<T>(s: seq<T>, keep: seq<bool>, n: nat): seq<T>
    requires |s| == |keep| && n <= |s|
  {
    if n == 0 then [] else CompactTo(s, keep, n - 1) + (if keep[n - 1] then [s[n - 1]] else [])
  }

  function Compact<T>(s: seq<T>, keep: seq<bool>): seq<T>
    requires |s| == |keep|
  {
    CompactTo(s, keep, |s|)
  }

  function Mapping(keep: seq<bool>): seq<Option<nat>> {
    seq(|keep|, i requires 0 <= i < |keep| => if keep[i] then Some(Rank(keep, i)) else None)
  }

  function Renumbered<T>(s: seq<Memory<T>>): seq<Memory<T>> {
    seq(|s|, i requires 0 <= i < |s| => Memory(i, s[i].contents))
  }

  function Flags(used: set<nat>, size: nat): seq<bool> {
    seq(size, i => i in used)
  }

  lemma {:induction false} RankMonotone(keep: seq<bool>, i: nat, j: nat)
    requires i < j <= |keep|
    ensures Rank(keep, i) + (if keep[i] then 1 else 0) <= Rank(keep, j)
  {
    if j > i + 1 { RankMonotone(keep, i, j - 1); }
  }

  /** New ids of survivors are distinct and keep the old order. */
  lemma RankInjective(keep: seq<bool>, i: nat, j: nat)
    requires i < |keep| && j < |keep| && keep[i] && keep[j] && Rank(keep, i) == Rank(keep, j)
    ensures i == j
  {
    if i < j { RankMonotone(keep, i, j); }
    if j < i { RankMonotone(keep, j, i); }
  }

  /** Every new id is taken by some survivor. */
  lemma {:induction false} RankOnto(keep: seq<bool>, n: nat, m: nat) returns (i: nat)
    requires n <= |keep| && m < Rank(keep, n)
    ensures i < n && keep[i] && Rank(keep, i) == m
  {
    if keep[n - 1] && Rank(keep, n - 1) == m { i := n - 1; } else { i := RankOnto(keep, n - 1, m); }
  }

  lemma {:induction false} CompactToAt<T>(s: seq<T>, keep: seq<bool>, n: nat, i: nat)
    requires |s| == |keep| && n <= |s|
    ensures |CompactTo(s, keep, n)| == Rank(keep, n)
    ensures i < n && keep[i] ==> Rank(keep, i) < Rank(keep, n) && CompactTo(s, keep, n)[Rank(keep, i)] == s[i]
  {
    if n > 0 {
      CompactToAt(s, keep, n - 1, i);
      if i < n && keep[i] { RankMonotone(keep, i, n); }
    }
  }

  /** A survivor is found in the compacted table under its new id. */
  lemma CompactAt<T>(s: seq<T>, keep: seq<bool>, i: nat)
    requires |s| == |keep|
    ensures |Compact(s, keep)| == Rank(keep, |keep|)
    ensures i < |s| && keep[i] ==> Rank(keep, i) < |Compact(s, keep)| && Compact(s, keep)[Rank(keep, i)] == s[i]
  {
    CompactToAt(s, keep, |s|, i);
  }

  /** Every new id belongs to exactly one survivor. */
  lemma {:induction false} CompactOnto<T>(s: seq<T>, keep: seq<bool>, n: nat, j: nat) returns (i: nat)
    requires |s| == |keep| && n <= |s| && j < Rank(keep, n)
    ensures i < n && keep[i] && Rank(keep, i) == j
  {
    if keep[n - 1] && Rank(keep, n - 1) == j {
      i := n - 1;
    } else {
      i := CompactOnto(s, keep, n - 1, j);
    }
  }

  /** The compaction loop: one pass that moves survivors down and records where each went. */
  method CompactMemories<T>(memories: seq<Memory<T>>, retained: seq<bool>)
    returns (live: seq<Memory<T>>, mapping: seq<Option<nat>>)
    requires |retained| == |memories|
    ensures live == Renumbered(Compact(memories, retained))
    ensures mapping == Mapping(retained)
  {
    mapping := seq(|memories|, _ => None);
    live := [];
    for position := 0 to |memories|
      invariant |mapping| == |memories|
      invariant live == Renumbered(CompactTo(memories, retained, position)) && |live| == Rank(retained, position)
      invariant forall i :: 0 <= i < position ==> mapping[i] == if retained[i] then Some(Rank(retained, i)) else None
      invariant forall i :: position <= i < |memories| ==> mapping[i] == None
    {
      CompactToAt(memories, retained, position + 1, position);
      if retained[position] {
        mapping := mapping[position := Some(|live|)];
        live := live + [Memory(|live|, memories[position].contents)];
      }
    }
  }
}
