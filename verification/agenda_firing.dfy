/** The order in which activations fire: what one pop takes under each strategy, and what popping until empty yields. */
module Firing {
  import opened Syntax
  import opened Sequences
  import opened AgendaOrder
  import opened AgendaState
  import opened Agendas

  // ----- one pop -----

  /** Position `at` is eligible and nothing eligible has a greater salience. */
  ghost predicate Foremost(births: seq<ActivationId>, acts: Activations, admits: Activation -> bool, at: nat)
    requires forall id :: id in births ==> id in acts
  {
    && at in Eligible(births, acts, admits)
    && forall j :: j in Eligible(births, acts, admits) ==> acts[births[j]].salience <= acts[births[at]].salience
  }

  /** The pop took out position `at` and nothing else. */
  ghost predicate Takes(births: seq<ActivationId>, acts: Activations, at: nat, popped: Option<Activation>, left: seq<ActivationId>, rest: Activations)
    requires forall id :: id in births ==> id in acts
  {
    at < |births| && popped == Some(acts[births[at]]) && left == Without(births, births[at]) && rest == acts - {births[at]}
  }

  ghost predicate Oldest(births: seq<ActivationId>, acts: Activations, admits: Activation -> bool, at: nat)
    requires forall id :: id in births ==> id in acts
  {
    Foremost(births, acts, admits, at) && forall j: nat :: Foremost(births, acts, admits, j) ==> at <= j
  }

  ghost predicate Newest(births: seq<ActivationId>, acts: Activations, admits: Activation -> bool, at: nat)
    requires forall id :: id in births ==> id in acts
  {
    Foremost(births, acts, admits, at) && forall j: nat :: Foremost(births, acts, admits, j) ==> j <= at
  }

  lemma PopTakesForemost(strategy: Strategy, births: seq<ActivationId>, acts: Activations, admits: Activation -> bool,
                         popped: Option<Activation>, left: seq<ActivationId>, rest: Activations) returns (at: nat)
    requires (forall id :: id in births ==> id in acts) && PopOf(strategy, births, acts, admits, popped, left, rest) && popped.Some?
    ensures Takes(births, acts, at, popped, left, rest) && Foremost(births, acts, admits, at)
    ensures Best(strategy, Erased(Live(births, acts)), Eligible(births, acts, admits), at)
  {
    var eligible := Eligible(births, acts, admits);
    at :| 0 <= at < |births| && Removes(strategy, births, acts, eligible, at, popped.value, left, rest);
    forall j | j in eligible ensures acts[births[j]].salience <= acts[births[at]].salience {
      if j != at { assert Beats(strategy, Erased(Live(births, acts)), at, j); }
    }
  }

  /** Under Breadth a pop takes the oldest of the eligible activations of greatest salience, under Depth the newest. */
  lemma BreadthTakesOldestDepthNewest(strategy: Strategy, births: seq<ActivationId>, acts: Activations, admits: Activation -> bool,
                                      popped: Option<Activation>, left: seq<ActivationId>, rest: Activations)
    requires (forall id :: id in births ==> id in acts) && PopOf(strategy, births, acts, admits, popped, left, rest) && popped.Some?
    ensures strategy.Breadth? ==> exists at :: Takes(births, acts, at, popped, left, rest) && Oldest(births, acts, admits, at)
    ensures strategy.Depth? ==> exists at :: Takes(births, acts, at, popped, left, rest) && Newest(births, acts, admits, at)
  {
    var at := PopTakesForemost(strategy, births, acts, admits, popped, left, rest);
    forall j: nat | Foremost(births, acts, admits, j) ensures (strategy.Breadth? ==> at <= j) && (strategy.Depth? ==> j <= at) {
      if j != at { assert Beats(strategy, Erased(Live(births, acts)), at, j); }
    }
  }

  /** Under LEX nothing eligible of the same salience has the popped recency and more: the longer one would have fired. */
  lemma LexTakesLongest(births: seq<ActivationId>, acts: Activations, admits: Activation -> bool,
                        popped: Option<Activation>, left: seq<ActivationId>, rest: Activations, j: nat)
    requires (forall id :: id in births ==> id in acts) && PopOf(Lex, births, acts, admits, popped, left, rest) && popped.Some?
    requires Foremost(births, acts, admits, j)
    ensures !(SortedDescending(popped.value.recency) < SortedDescending(acts[births[j]].recency))
    ensures SortedDescending(acts[births[j]].recency) < SortedDescending(popped.value.recency) ==> births[j] in left
  {
    var at := PopTakesForemost(Lex, births, acts, admits, popped, left, rest);
    var live := Erased(Live(births, acts));
    assert j != at ==> Beats(Lex, live, at, j);
    if SortedDescending(popped.value.recency) < SortedDescending(acts[births[j]].recency) { LongerRecencyWins(live, j, at); }
    WithoutMembers(births, births[at]);
    if SortedDescending(acts[births[j]].recency) < SortedDescending(popped.value.recency) { assert births[j] != births[at]; }
  }

  /** `s` is the recency vector in descending order. */
  predicate Arranged(s: seq<nat>, recency: seq<nat>) { Descending(s) && multiset(s) == multiset(recency) }

  lemma ArrangedIsSorted(s: seq<nat>, recency: seq<nat>)
    requires Arranged(s, recency)
    ensures s == SortedDescending(recency)
  {
    SortedIsSorted(recency);
    DescendingUnique(s, SortedDescending(recency));
  }

  /** Between equal recencies: greater complexity, then age. */
  predicate WinsTie(births: seq<ActivationId>, acts: Activations, at: nat, j: nat)
    requires at < |births| && j < |births| && forall id :: id in births ==> id in acts
  {
    || acts[births[at]].complexity > acts[births[j]].complexity
    || (acts[births[at]].complexity == acts[births[j]].complexity && at <= j)
  }

  /** The pop took a position that wins the tie against `j`. */
  ghost predicate TakesWinner(births: seq<ActivationId>, acts: Activations, popped: Option<Activation>, left: seq<ActivationId>,
                              rest: Activations, j: nat)
    requires j < |births| && forall id :: id in births ==> id in acts
  {
    exists at :: Takes(births, acts, at, popped, left, rest) && WinsTie(births, acts, at, j)
  }

  /** Under LEX, among the eligible activations of greatest salience, none is more recent than the one popped: at the first
      difference between the recencies in descending order the popped one is greater, and it is no proper prefix. Equal
      recencies go to the greater complexity, then to the older activation. */
  lemma LexTakesMostRecent(births: seq<ActivationId>, acts: Activations, admits: Activation -> bool, popped: Option<Activation>,
                           left: seq<ActivationId>, rest: Activations, j: nat, a: seq<nat>, b: seq<nat>)
    requires (forall id :: id in births ==> id in acts) && PopOf(Lex, births, acts, admits, popped, left, rest) && popped.Some?
    requires Foremost(births, acts, admits, j) && Arranged(a, popped.value.recency) && Arranged(b, acts[births[j]].recency)
    ensures !MoreRecent(b, a)
    ensures a == b ==> TakesWinner(births, acts, popped, left, rest, j)
  {
    hide LexLess, MoreRecent, SortedDescending, Descending;
    var at := PopTakesForemost(Lex, births, acts, admits, popped, left, rest);
    assert j != at ==> Beats(Lex, Erased(Live(births, acts)), at, j);
    ArrangedIsSorted(a, popped.value.recency);
    ArrangedIsSorted(b, acts[births[j]].recency);
    LexLessIsMoreRecent(b, a);
    LexLessTotal(a, b);
    if a == b { assert Takes(births, acts, at, popped, left, rest) && WinsTie(births, acts, at, j); }
  }

  /** The first recency of `a` is below that of `b`; an empty vector counts as the absent tag zero. */
  predicate FirstBelow(a: seq<nat>, b: seq<nat>) {
    b != [] && if a == [] then 0 < b[0] else a[0] < b[0]
  }

  /** Under MEA the first recency decides before the whole vector does; then as under LEX. */
  lemma MeaTakesGreatestFirst(births: seq<ActivationId>, acts: Activations, admits: Activation -> bool, popped: Option<Activation>,
                              left: seq<ActivationId>, rest: Activations, j: nat, a: seq<nat>, b: seq<nat>)
    requires (forall id :: id in births ==> id in acts) && PopOf(Mea, births, acts, admits, popped, left, rest) && popped.Some?
    requires Foremost(births, acts, admits, j) && Arranged(a, popped.value.recency) && Arranged(b, acts[births[j]].recency)
    ensures !FirstBelow(popped.value.recency, acts[births[j]].recency)
    ensures !FirstBelow(acts[births[j]].recency, popped.value.recency) ==>
      !MoreRecent(b, a) && (a == b ==> TakesWinner(births, acts, popped, left, rest, j))
  {
    hide LexLess, MoreRecent, SortedDescending, Descending;
    var at := PopTakesForemost(Mea, births, acts, admits, popped, left, rest);
    assert j != at ==> Beats(Mea, Erased(Live(births, acts)), at, j);
    ArrangedIsSorted(a, popped.value.recency);
    ArrangedIsSorted(b, acts[births[j]].recency);
    LexLessIsMoreRecent(b, a);
    LexLessTotal(a, b);
    if !FirstBelow(acts[births[j]].recency, popped.value.recency) && a == b {
      assert Takes(births, acts, at, popped, left, rest) && WinsTie(births, acts, at, j);
    }
  }

  // ----- a pop always has an outcome -----

  lemma BeatsTransitive(strategy: Strategy, live: seq<Activation>, i: nat, j: nat, k: nat)
    requires Increasing(live) && i < |live| && j < |live| && k < |live|
    requires Beats(strategy, Erased(live), i, j) && Beats(strategy, Erased(live), j, k)
    ensures Beats(strategy, Erased(live), i, k)
  {
    hide Beats, KeyLess, BuildKey, Erased;
    KeyOrderIsBirthOrder(strategy, live, i, j);
    KeyOrderIsBirthOrder(strategy, live, j, k);
    KeyOrderIsBirthOrder(strategy, live, i, k);
    KeyOrderIsTotal(BuildKey(strategy, live[i]), BuildKey(strategy, live[j]), BuildKey(strategy, live[k]));
  }

  lemma {:induction false} BestExists(strategy: Strategy, live: seq<Activation>, eligible: set<nat>) returns (best: nat)
    requires Increasing(live) && eligible != {} && forall i :: i in eligible ==> i < |live|
    ensures Best(strategy, Erased(live), eligible, best)
    decreases |eligible|
  {
    hide Beats, Increasing;
    var x :| x in eligible;
    var others := eligible - {x};
    assert eligible == others + {x};
    if others == {} {
      best := x;
    } else {
      var y := BestExists(strategy, live, others);
      BeatsIsStrict(strategy, Erased(live), x, y);
      best := if Beats(strategy, Erased(live), x, y) then x else y;
      forall j | j in eligible && j != best ensures Beats(strategy, Erased(live), best, j) {
        if best == x && j != y { BeatsTransitive(strategy, live, x, y, j); }
      }
    }
  }

  /** Every agenda can be drained: popping until empty is defined. */
  lemma {:induction false} DrainExists(strategy: Strategy, births: seq<ActivationId>, acts: Activations, next: nat)
    requires BirthsOk(births, acts, next)
    ensures exists popped :: Drains(strategy, births, acts, popped)
    decreases |births|
  {
    if births == [] {
      assert Drains(strategy, births, acts, []);
    } else {
      LiveIncreases(births, acts, next);
      EveryoneEligible(births, acts);
      var at := BestExists(strategy, Live(births, acts), Eligible(births, acts, Anyone));
      BirthsAfterRemove(births, acts, next, at);
      WithoutSkips(births, at);
      DrainExists(strategy, Without(births, births[at]), acts - {births[at]}, next);
      var rest :| Drains(strategy, Without(births, births[at]), acts - {births[at]}, rest);
      DrainsFrom(strategy, births, acts, at, rest);
    }
  }

  lemma DrainsFrom(strategy: Strategy, births: seq<ActivationId>, acts: Activations, at: nat, rest: seq<Activation>)
    requires (forall id :: id in births ==> id in acts) && at < |births|
    requires PopsAt(strategy, births, acts, acts[births[at]], at)
    requires Drains(strategy, Without(births, births[at]), acts - {births[at]}, rest)
    ensures Drains(strategy, births, acts, [acts[births[at]]] + rest)
  {
    var popped := [acts[births[at]]] + rest;
    assert popped[1..] == rest;
  }

  // ----- popping until empty, one salience at a time -----

  function OfSalience(s: seq<Activation>, n: int): seq<Activation> {
    if s == [] then [] else (if s[0].salience == n then [s[0]] else []) + OfSalience(s[1..], n)
  }

  function Reversed(s: seq<Activation>): seq<Activation> {
    if s == [] then [] else Reversed(s[1..]) + [s[0]]
  }

  lemma {:induction false} OfSalienceConcat(s: seq<Activation>, t: seq<Activation>, n: int)
    ensures OfSalience(s + t, n) == OfSalience(s, n) + OfSalience(t, n)
  {
    if s == [] {
      assert s + t == t;
    } else {
      assert (s + t)[0] == s[0] && (s + t)[1..] == s[1..] + t;
      OfSalienceConcat(s[1..], t, n);
      var head, first, second := if s[0].salience == n then [s[0]] else [], OfSalience(s[1..], n), OfSalience(t, n);
      assert head + (first + second) == head + first + second;
    }
  }

  lemma {:induction false} OfSalienceNone(s: seq<Activation>, n: int)
    requires forall k :: 0 <= k < |s| ==> s[k].salience != n
    ensures OfSalience(s, n) == []
  {
    if s != [] {
      forall k | 0 <= k < |s[1..]| ensures s[1..][k].salience != n { assert s[1..][k] == s[k + 1]; }
      OfSalienceNone(s[1..], n);
    }
  }

  lemma {:induction false} ReversedSnoc(s: seq<Activation>, a: Activation)
    ensures Reversed(s + [a]) == [a] + Reversed(s)
  {
    if s == [] {
      assert s + [a] == [a] && [a][1..] == [];
    } else {
      assert (s + [a])[1..] == s[1..] + [a];
      ReversedSnoc(s[1..], a);
    }
  }

  /** Taking out position `at` of a list takes that entry out of its own salience and changes no other. */
  lemma OfSalienceSplit(live: seq<Activation>, at: nat, n: int)
    requires at < |live|
    ensures var before, after := OfSalience(live[..at], n), OfSalience(live[at + 1..], n);
      && OfSalience(live, n) == before + (if live[at].salience == n then [live[at]] else []) + after
      && OfSalience(live[..at] + live[at + 1..], n) == before + after
  {
    assert live == live[..at] + ([live[at]] + live[at + 1..]);
    OfSalienceConcat(live[..at], [live[at]] + live[at + 1..], n);
    OfSalienceConcat([live[at]], live[at + 1..], n);
    OfSalienceConcat(live[..at], live[at + 1..], n);
    assert [live[at]][1..] == [];
  }

  /** The first pop of a drain, seen in the list of the live activations. */
  ghost predicate FirstFired(strategy: Strategy, live: seq<Activation>, at: nat) {
    && at < |live|
    && (strategy.Breadth? ==> forall k :: 0 <= k < at ==> live[k].salience != live[at].salience)
    && (strategy.Depth? ==> forall k :: at < k < |live| ==> live[k].salience != live[at].salience)
  }

  lemma PopsAtIsFirstFired(strategy: Strategy, births: seq<ActivationId>, acts: Activations, popped: Activation, at: nat)
    requires (forall id :: id in births ==> id in acts) && at < |births| && PopsAt(strategy, births, acts, popped, at)
    ensures FirstFired(strategy, Live(births, acts), at) && popped == Live(births, acts)[at]
  {
    var live := Live(births, acts);
    forall k | 0 <= k < |live| && k != at && live[k].salience == live[at].salience
      ensures !(strategy.Breadth? && k < at) && !(strategy.Depth? && at < k)
    {
      assert k in Eligible(births, acts, Anyone);
      assert Beats(strategy, Erased(live), at, k);
    }
  }

  /** Within each salience, what is fired is the live list in birth order, or in reverse. */
  ghost predicate FiresInOrder(strategy: Strategy, live: seq<Activation>, popped: seq<Activation>) {
    && (strategy.Breadth? ==> forall n :: OfSalience(popped, n) == OfSalience(live, n))
    && (strategy.Depth? ==> forall n :: OfSalience(popped, n) == Reversed(OfSalience(live, n)))
  }

  lemma FiresNext(strategy: Strategy, live: seq<Activation>, at: nat, rest: seq<Activation>)
    requires FirstFired(strategy, live, at) && FiresInOrder(strategy, live[..at] + live[at + 1..], rest)
    ensures FiresInOrder(strategy, live, [live[at]] + rest)
  {
    var a, popped := live[at], [live[at]] + rest;
    assert popped[1..] == rest;
    forall n ensures (strategy.Breadth? ==> OfSalience(popped, n) == OfSalience(live, n))
               && (strategy.Depth? ==> OfSalience(popped, n) == Reversed(OfSalience(live, n)))
    {
      OfSalienceSplit(live, at, n);
      var before, after := OfSalience(live[..at], n), OfSalience(live[at + 1..], n);
      if a.salience == n {
        if strategy.Breadth? { OfSalienceNone(live[..at], n); }
        if strategy.Depth? {
          OfSalienceNone(live[at + 1..], n);
          assert before + [a] + after == before + [a] && before + after == before;
          ReversedSnoc(before, a);
        }
      } else {
        assert before + [] + after == before + after;
      }
    }
  }

  /** Breadth is first in, first out and Depth last in, first out: popping until empty fires the activations of each
      salience in the order they were added, or in its reverse, whatever their sequence numbers. */
  lemma {:induction false} BreadthIsFifoDepthIsLifo(strategy: Strategy, births: seq<ActivationId>, acts: Activations, popped: seq<Activation>)
    requires NoDuplicates(births) && (forall id :: id in births ==> id in acts) && Drains(strategy, births, acts, popped)
    ensures FiresInOrder(strategy, Live(births, acts), popped)
    decreases |popped|
  {
    if popped != [] {
      var at :| 0 <= at < |births| && PopsAt(strategy, births, acts, popped[0], at)
                && Drains(strategy, Without(births, births[at]), acts - {births[at]}, popped[1..]);
      WithoutDistinct(births, births[at]);
      LiveAfterRemove(births, acts, at);
      PopsAtIsFirstFired(strategy, births, acts, popped[0], at);
      BreadthIsFifoDepthIsLifo(strategy, Without(births, births[at]), acts - {births[at]}, popped[1..]);
      FiresNext(strategy, Live(births, acts), at, popped[1..]);
      assert popped == [popped[0]] + popped[1..];
    }
  }

  // ----- a run across a renumbering -----

  /** What is fired, apart from the id and the sequence number the agenda gave it. */
  function Payload(a: Activation): Activation { a.(id := 0, sequence := 0) }

  function Payloads(s: seq<Activation>): seq<Activation> {
    seq(|s|, i requires 0 <= i < |s| => Payload(s[i]))
  }

  lemma {:induction false} OfSaliencePayloads(s: seq<Activation>, n: int)
    ensures OfSalience(Payloads(s), n) == Payloads(OfSalience(s, n))
  {
    if s != [] {
      assert Payloads(s)[1..] == Payloads(s[1..]);
      OfSaliencePayloads(s[1..], n);
    }
  }

  lemma {:induction false} ReversedPayloads(s: seq<Activation>)
    ensures Reversed(Payloads(s)) == Payloads(Reversed(s))
  {
    if s != [] {
      assert Payloads(s)[1..] == Payloads(s[1..]);
      ReversedPayloads(s[1..]);
    }
  }

  lemma PayloadsInOrder(strategy: Strategy, live: seq<Activation>, popped: seq<Activation>)
    requires FiresInOrder(strategy, live, popped)
    ensures FiresInOrder(strategy, Payloads(live), Payloads(popped))
  {
    forall n ensures OfSalience(Payloads(popped), n) == Payloads(OfSalience(popped, n))
               && OfSalience(Payloads(live), n) == Payloads(OfSalience(live, n))
               && Reversed(Payloads(OfSalience(live, n))) == Payloads(Reversed(OfSalience(live, n)))
    {
      OfSaliencePayloads(popped, n);
      OfSaliencePayloads(live, n);
      ReversedPayloads(OfSalience(live, n));
    }
  }

  /** Whatever drains what is left, drains the whole when fired after `fired`. */
  ghost predicate Continues(strategy: Strategy, births: seq<ActivationId>, acts: Activations, fired: seq<Activation>,
                            left: seq<ActivationId>, rest: Activations)
  {
    forall later :: Drains(strategy, left, rest, later) ==> Drains(strategy, births, acts, fired + later)
  }

  lemma ContinuesFromStart(strategy: Strategy, births: seq<ActivationId>, acts: Activations)
    ensures Continues(strategy, births, acts, [], births, acts)
  {
    forall later | Drains(strategy, births, acts, later) ensures Drains(strategy, births, acts, [] + later) {
      assert [] + later == later;
    }
  }

  lemma ContinuesAfterPop(strategy: Strategy, births: seq<ActivationId>, acts: Activations, fired: seq<Activation>,
                          had: seq<ActivationId>, held: Activations, popped: Option<Activation>, left: seq<ActivationId>, rest: Activations)
    requires (forall id :: id in had ==> id in held) && Continues(strategy, births, acts, fired, had, held)
    requires PopOf(strategy, had, held, Anyone, popped, left, rest) && popped.Some?
    ensures Continues(strategy, births, acts, fired + [popped.value], left, rest)
  {
    hide PopOf, Drains;
    forall later | Drains(strategy, left, rest, later) ensures Drains(strategy, births, acts, fired + [popped.value] + later) {
      PopDrains(strategy, had, held, popped, left, rest, later);
      assert fired + ([popped.value] + later) == fired + [popped.value] + later;
    }
  }

  lemma ContinuesToEnd(strategy: Strategy, births: seq<ActivationId>, acts: Activations, next: nat, fired: seq<Activation>,
                       left: seq<ActivationId>, rest: Activations)
    requires BirthsOk(births, acts, next) && Continues(strategy, births, acts, fired, left, rest) && left == []
    ensures Drains(strategy, births, acts, fired) && SortedFor(strategy, fired, acts)
  {
    hide BirthsOk, SortedFor;
    assert Drains(strategy, left, rest, []);
    assert fired + [] == fired;
    DrainIsSorted(strategy, births, acts, next, fired);
  }

  /** Popping until the agenda is empty. */
  method Drain(agenda: Agenda) returns (fired: seq<Activation>)
    requires agenda.Valid()
    modifies agenda
    ensures agenda.Valid() && agenda.strategy == old(agenda.strategy) && agenda.births == []
    ensures Drains(agenda.strategy, old(agenda.births), old(agenda.activations), fired)
    ensures SortedFor(agenda.strategy, fired, old(agenda.activations))
  {
    hide Consistent, Drains, PopOf, BirthsOk, SortedFor, Continues;
    ghost var strategy, births, acts, next := agenda.strategy, agenda.births, agenda.activations, agenda.nextSeq;
    BirthsOfConsistent(agenda.State());
    ContinuesFromStart(strategy, births, acts);
    fired := [];
    var more := true;
    while more
      invariant agenda.Valid() && agenda.strategy == strategy
      invariant Continues(strategy, births, acts, fired, agenda.births, agenda.activations)
      invariant !more ==> agenda.births == []
      decreases more, |agenda.births|
    {
      ghost var had, held := agenda.births, agenda.activations;
      ConsistentFacts(agenda.State());
      var popped := agenda.Pop();
      if popped.None? {
        NothingPopped(strategy, had, held, agenda.births, agenda.activations);
        more := false;
      } else {
        PopShortens(strategy, had, held, popped, agenda.births, agenda.activations);
        ContinuesAfterPop(strategy, births, acts, fired, had, held, popped, agenda.births, agenda.activations);
        fired := fired + [popped.value];
      }
    }
    ContinuesToEnd(strategy, births, acts, next, fired, agenda.births, agenda.activations);
  }

  lemma BirthsOfConsistent(b: Book)
    requires Consistent(b)
    ensures BirthsOk(b.births, b.acts, b.next)
  {
  }

  lemma NothingPopped(strategy: Strategy, births: seq<ActivationId>, acts: Activations, left: seq<ActivationId>, rest: Activations)
    requires (forall id :: id in births ==> id in acts) && PopOf(strategy, births, acts, Anyone, None, left, rest)
    ensures births == [] && left == [] && rest == acts
  {
    EveryoneEligible(births, acts);
  }

  lemma EveryoneEligible(births: seq<ActivationId>, acts: Activations)
    requires forall id :: id in births ==> id in acts
    ensures births != [] ==> 0 in Eligible(births, acts, Anyone)
  {
    if births != [] { assert births[0] in births; }
  }

  lemma PopShortens(strategy: Strategy, births: seq<ActivationId>, acts: Activations, popped: Option<Activation>,
                    left: seq<ActivationId>, rest: Activations)
    requires (forall id :: id in births ==> id in acts) && PopOf(strategy, births, acts, Anyone, popped, left, rest) && popped.Some?
    ensures |left| < |births|
  {
    var at := PopTakesForemost(strategy, births, acts, Anyone, popped, left, rest);
    WithoutShortens(births, births[at]);
  }

  lemma {:induction false} WithoutShortens(s: seq<ActivationId>, x: ActivationId)
    ensures |Without(s, x)| <= |s| && (x in s ==> |Without(s, x)| < |s|)
  {
    if s != [] { WithoutShortens(s[1..], x); }
  }

  lemma PopDrains(strategy: Strategy, births: seq<ActivationId>, acts: Activations, popped: Option<Activation>,
                  left: seq<ActivationId>, rest: Activations, later: seq<Activation>)
    requires (forall id :: id in births ==> id in acts) && PopOf(strategy, births, acts, Anyone, popped, left, rest) && popped.Some?
    requires Drains(strategy, left, rest, later)
    ensures Drains(strategy, births, acts, [popped.value] + later)
  {
    var at := PopTakesForemost(strategy, births, acts, Anyone, popped, left, rest);
    DrainsFrom(strategy, births, acts, at, later);
  }

  method AddAll(agenda: Agenda, batch: seq<Activation>)
    requires agenda.Valid() && |agenda.births| + |batch| < U32_MAX
    modifies agenda
    ensures agenda.Valid() && agenda.strategy == old(agenda.strategy) && |agenda.births| == old(|agenda.births|) + |batch|
    ensures old(agenda.Valid()) && Payloads(agenda.Contents()) == Payloads(old(agenda.Contents())) + Payloads(batch)
  {
    hide Consistent, Chronicle;
    for i := 0 to |batch|
      invariant agenda.Valid() && agenda.strategy == old(agenda.strategy) && |agenda.births| == old(|agenda.births|) + i
      invariant Payloads(agenda.Contents()) == Payloads(old(agenda.Contents())) + Payloads(batch[..i])
    {
      ghost var before := agenda.Contents();
      var id := agenda.Add(batch[i]);
      assert Payloads(agenda.Contents()) == Payloads(before) + [Payload(batch[i])];
      assert Payloads(batch[..i + 1]) == Payloads(batch[..i]) + [Payload(batch[i])];
    }
    assert batch[..|batch|] == batch;
  }

  /** Two batches with a renumbering between them, popped until empty: each salience fires in the order of adding
      under Breadth and in its reverse under Depth. */
  method FireAcrossRebase(agenda: Agenda, early: seq<Activation>, late: seq<Activation>) returns (fired: seq<Activation>)
    requires agenda.Valid() && |agenda.births| + |early| + |late| < U32_MAX
    modifies agenda
    ensures agenda.Valid() && agenda.births == [] && agenda.strategy == old(agenda.strategy) && old(agenda.Valid())
    ensures FiresInOrder(agenda.strategy, Payloads(old(agenda.Contents())) + Payloads(early) + Payloads(late), Payloads(fired))
  {
    hide Consistent, Chronicle, FiresInOrder, Drains;
    AddAll(agenda, early);
    agenda.RebaseSequences();
    AddAll(agenda, late);
    ghost var births, acts := agenda.births, agenda.activations;
    ContentsAreLive(agenda.State());
    fired := Drain(agenda);
    BreadthIsFifoDepthIsLifo(agenda.strategy, births, acts, fired);
    PayloadsInOrder(agenda.strategy, Live(births, acts), fired);
  }

  lemma ContentsAreLive(b: Book)
    requires Consistent(b)
    ensures NoDuplicates(b.births) && (forall id :: id in b.births ==> id in b.acts) && Payloads(Chronicle(b)) == Payloads(Live(b.births, b.acts))
  {
  }
}
