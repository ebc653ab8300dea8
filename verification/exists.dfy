/** Exists memory: support sets in both directions, and the pass-through protocol around them. */
module ExistsMemories {
  import opened Syntax

  datatype State = State(
    support: map<TokenId, set<FactId>>,
    satisfied: map<TokenId, TokenId>,
    supported: map<FactId, set<TokenId>>)

  const EMPTY: State := State(map[], map[], map[])

  function FactsOf(s: State, p: TokenId): set<FactId> { if p in s.support then s.support[p] else {} }

  function ParentsOf(s: State, f: FactId): set<TokenId> { if f in s.supported then s.supported[f] else {} }

  /** The two support indices are exact inverses and keep no empty entries. */
  ghost predicate Inverse(s: State) {
    && (forall p, f :: f in FactsOf(s, p) <==> p in ParentsOf(s, f))
    && (forall p :: p in s.support ==> s.support[p] != {})
    && (forall f :: f in s.supported ==> s.supported[f] != {})
  }

  /** Exactly the supported parents have a pass-through. */
  ghost predicate Settled(s: State) {
    forall p :: p in s.satisfied <==> FactsOf(s, p) != {}
  }

  function WithSupport(s: State, p: TokenId, f: FactId): State {
    s.(support := s.support[p := FactsOf(s, p) + {f}], supported := s.supported[f := ParentsOf(s, f) + {p}])
  }

  function Dropped<K, V>(m: map<K, set<V>>, k: K, v: V): map<K, set<V>> {
    if k !in m then m else if m[k] - {v} == {} then m - {k} else m[k := m[k] - {v}]
  }

  function WithoutSupport(s: State, p: TokenId, f: FactId): State {
    s.(support := Dropped(s.support, p, f), supported := Dropped(s.supported, f, p))
  }

  function WithoutParent(s: State, p: TokenId): State {
    State(s.support - {p}, s.satisfied - {p},
          map f | f in s.supported && s.supported[f] - {p} != {} :: s.supported[f] - {p})
  }

  lemma WithSupportInverse(s: State, p: TokenId, f: FactId)
    requires Inverse(s)
    ensures var after := WithSupport(s, p, f);
      && Inverse(after) && FactsOf(after, p) == FactsOf(s, p) + {f} && forall q :: q != p ==> FactsOf(after, q) == FactsOf(s, q)
  {
    var after := WithSupport(s, p, f);
    forall q, g ensures g in FactsOf(after, q) <==> q in ParentsOf(after, g) {
      assert g in FactsOf(s, q) <==> q in ParentsOf(s, g);
    }
  }

  lemma WithoutSupportInverse(s: State, p: TokenId, f: FactId)
    requires Inverse(s)
    ensures var after := WithoutSupport(s, p, f);
      && Inverse(after) && FactsOf(after, p) == FactsOf(s, p) - {f} && forall q :: q != p ==> FactsOf(after, q) == FactsOf(s, q)
  {
    var after := WithoutSupport(s, p, f);
    forall q, g ensures g in FactsOf(after, q) <==> q in ParentsOf(after, g) {
      assert g in FactsOf(s, q) <==> q in ParentsOf(s, g);
    }
  }

  lemma WithoutParentInverse(s: State, p: TokenId)
    requires Inverse(s)
    ensures var after := WithoutParent(s, p);
      && Inverse(after) && FactsOf(after, p) == {} && forall q :: q != p ==> FactsOf(after, q) == FactsOf(s, q)
  {
    var after := WithoutParent(s, p);
    forall q, g ensures g in FactsOf(after, q) <==> q in ParentsOf(after, g) {
      assert g in FactsOf(s, q) <==> q in ParentsOf(s, g);
    }
  }

  // ----- the memory object -----

  class ExistsMemory {
    var support: map<TokenId, set<FactId>>
    var satisfied: map<TokenId, TokenId>
    var factToParents: map<FactId, set<TokenId>>

    ghost function Maps(): State
      reads this
    {
      State(support, satisfied, factToParents)
    }

    constructor ()
      ensures Maps() == EMPTY
    {
      support, satisfied, factToParents := map[], map[], map[];
    }

    method AddSupport(p: TokenId, f: FactId) returns (count: nat)
      modifies this
      ensures Maps() == WithSupport(old(Maps()), p, f) && count == |FactsOf(Maps(), p)| > 0
    {
      support := support[p := (if p in support then support[p] else {}) + {f}];
      factToParents := factToParents[f := (if f in factToParents then factToParents[f] else {}) + {p}];
      count := |support[p]|;
      assert f in support[p];
    }

    method RemoveSupport(p: TokenId, f: FactId) returns (count: nat, removed: bool)
      modifies this
      ensures Maps() == WithoutSupport(old(Maps()), p, f)
      ensures count == |FactsOf(Maps(), p)| && (removed <==> f in FactsOf(old(Maps()), p))
    {
      removed := false;
      if p in support {
        removed := f in support[p];
        var facts := support[p] - {f};
        support := if facts == {} then support - {p} else support[p := facts];
      }
      if f in factToParents {
        var parents := factToParents[f] - {p};
        factToParents := if parents == {} then factToParents - {f} else factToParents[f := parents];
      }
      count := if p in support then |support[p]| else 0;
    }

    method SetSatisfied(p: TokenId, passthrough: TokenId)
      modifies this`satisfied
      ensures Maps() == old(Maps()).(satisfied := old(satisfied)[p := passthrough])
    {
      satisfied := satisfied[p := passthrough];
    }

    method RemoveSatisfied(p: TokenId) returns (passthrough: Option<TokenId>)
      modifies this`satisfied
      ensures passthrough == if p in old(satisfied) then Some(old(satisfied)[p]) else None
      ensures Maps() == old(Maps()).(satisfied := old(satisfied) - {p})
    {
      passthrough := if p in satisfied then Some(satisfied[p]) else None;
      satisfied := satisfied - {p};
    }

    /** Forget a retracted parent in all three maps. */
    method RemoveParentToken(p: TokenId)
      requires Inverse(Maps())
      modifies this
      ensures Maps() == WithoutParent(old(Maps()), p)
    {
      satisfied := satisfied - {p};
      ghost var s := old(Maps());
      if p in support {
        var facts := support[p];
        support := support - {p};
        var pending := facts;
        while pending != {}
          invariant pending <= facts && support == old(support) - {p} && satisfied == old(satisfied) - {p}
          invariant factToParents == map f | f in s.supported && (f !in facts - pending || s.supported[f] - {p} != {})
                                       :: if f in facts - pending then s.supported[f] - {p} else s.supported[f]
        {
          var f :| f in pending;
          pending := pending - {f};
          if f in factToParents {
            var parents := factToParents[f] - {p};
            factToParents := if parents == {} then factToParents - {f} else factToParents[f := parents];
          }
        }
      }
      forall f | f in s.supported ensures p in s.supported[f] <==> f in FactsOf(s, p) {
        assert f in FactsOf(s, p) <==> p in ParentsOf(s, f);
      }
      assert forall f :: f in s.supported && f !in FactsOf(s, p) ==> s.supported[f] - {p} == s.supported[f];
      assert factToParents == WithoutParent(s, p).supported;
    }

    method Clear()
      modifies this
      ensures Maps() == EMPTY
    {
      support, satisfied, factToParents := map[], map[], map[];
    }

    // ----- the caller's protocol -----

    /** A parent token enters: the facts that already match support it at once. */
    method Enter(p: TokenId, facts: set<FactId>, passthrough: TokenId) returns (created: bool)
      modifies this
      ensures Maps() == After(old(Maps()), Entered(p, facts, passthrough))
      ensures created <==> Creates(old(Maps()), Entered(p, facts, passthrough), p)
    {
      hide WithSupport, WithSupports;
      ghost var s := Maps();
      var pending := facts;
      WithSupportsStep(s, p, {}, 0);
      assert facts - pending == {};
      while pending != {}
        invariant pending <= facts && Maps() == WithSupports(s, p, facts - pending)
      {
        var f :| f in pending;
        WithSupportsStep(s, p, facts - pending, f);
        assert facts - (pending - {f}) == facts - pending + {f};
        pending := pending - {f};
        var count := AddSupport(p, f);
      }
      assert facts - pending == facts;
      created := facts != {};
      if created { SetSatisfied(p, passthrough); }
    }

    /** A fact starts supporting a parent: the first support creates the pass-through. */
    method Support(p: TokenId, f: FactId, passthrough: TokenId) returns (created: bool)
      modifies this
      ensures Maps() == After(old(Maps()), Supported(p, f, passthrough))
      ensures created <==> Creates(old(Maps()), Supported(p, f, passthrough), p)
    {
      var before := if p in support then |support[p]| else 0;
      var count := AddSupport(p, f);
      created := before == 0 && count > 0;
      NoneOrEmpty(old(FactsOf(Maps(), p)));
      if created { SetSatisfied(p, passthrough); }
    }

    /** A fact stops supporting a parent: losing the last support retracts the pass-through stored for it. */
    method Withdraw(p: TokenId, f: FactId) returns (retracted: Option<TokenId>)
      modifies this
      ensures Maps() == After(old(Maps()), Withdrawn(p, f))
      ensures retracted.Some? <==> Retracts(old(Maps()), Withdrawn(p, f), p)
      ensures retracted.Some? ==> p in old(satisfied) && retracted.value == old(satisfied)[p]
    {
      var count, removed := RemoveSupport(p, f);
      NoneOrEmpty(FactsOf(Maps(), p));
      retracted := None;
      if removed && count == 0 { retracted := RemoveSatisfied(p); }
    }
  }

  lemma NoneOrEmpty(s: set<nat>)
    ensures |s| == 0 <==> s == {}
  {
  }

  // ----- whole runs of the protocol -----

  datatype Event =
    | Entered(parent: TokenId, facts: set<FactId>, passthrough: TokenId)
    | Supported(parent: TokenId, fact: FactId, passthrough: TokenId)
    | Withdrawn(parent: TokenId, fact: FactId)
    | Forgotten(parent: TokenId)
    | Cleared

  function WithSupports(s: State, p: TokenId, facts: set<FactId>): State {
    s.(support := if facts == {} then s.support else s.support[p := FactsOf(s, p) + facts],
       supported := map f | f in s.supported.Keys + facts :: if f in facts then ParentsOf(s, f) + {p} else s.supported[f])
  }

  /** Supporting with a set of facts at once is supporting with each in turn. */
  lemma WithSupportsStep(s: State, p: TokenId, facts: set<FactId>, f: FactId)
    ensures WithSupports(s, p, {}) == s
    ensures WithSupport(WithSupports(s, p, facts), p, f) == WithSupports(s, p, facts + {f})
  {
    assert WithSupports(s, p, {}).supported == s.supported;
    SupportStep(s, p, facts, f);
    SupportedStep(s, p, facts, f);
  }

  lemma SupportStep(s: State, p: TokenId, facts: set<FactId>, f: FactId)
    ensures WithSupport(WithSupports(s, p, facts), p, f).support == WithSupports(s, p, facts + {f}).support
  {
    assert FactsOf(s, p) + facts + {f} == FactsOf(s, p) + (facts + {f});
    assert facts == {} ==> FactsOf(s, p) + {f} == FactsOf(s, p) + (facts + {f});
    assert f in facts + {f};
  }

  lemma SupportedStep(s: State, p: TokenId, facts: set<FactId>, f: FactId)
    ensures WithSupport(WithSupports(s, p, facts), p, f).supported == WithSupports(s, p, facts + {f}).supported
  {
    var once, both := WithSupport(WithSupports(s, p, facts), p, f).supported, WithSupports(s, p, facts + {f}).supported;
    assert once.Keys == both.Keys;
    forall g | g in both ensures once[g] == both[g] {
      assert ParentsOf(s, g) + {p} + {p} == ParentsOf(s, g) + {p};
    }
  }

  function After(s: State, e: Event): State {
    match e
    case Entered(p, facts, passthrough) =>
      var grown := WithSupports(s, p, facts);
      if facts == {} then grown else grown.(satisfied := grown.satisfied[p := passthrough])
    case Supported(p, f, passthrough) =>
      var grown := WithSupport(s, p, f);
      if FactsOf(s, p) == {} then grown.(satisfied := grown.satisfied[p := passthrough]) else grown
    case Withdrawn(p, f) =>
      var less := WithoutSupport(s, p, f);
      if f in FactsOf(s, p) && FactsOf(less, p) == {} then less.(satisfied := less.satisfied - {p}) else less
    case Forgotten(p) => WithoutParent(s, p)
    case Cleared => EMPTY
  }

  /** A parent token enters the node once. */
  predicate Allowed(s: State, e: Event) { e.Entered? ==> FactsOf(s, e.parent) == {} }

  predicate Creates(s: State, e: Event, p: TokenId) {
    (e.Entered? && e.parent == p && e.facts != {}) || (e.Supported? && e.parent == p && FactsOf(s, p) == {})
  }

  predicate Retracts(s: State, e: Event, p: TokenId) {
    p in s.satisfied && (
      || (e.Withdrawn? && e.parent == p && e.fact in FactsOf(s, p) && FactsOf(WithoutSupport(s, p, e.fact), p) == {})
      || (e.Forgotten? && e.parent == p)
      || e.Cleared?)
  }

  function Reached(events: seq<Event>): State {
    if events == [] then EMPTY else After(Reached(events[..|events| - 1]), events[|events| - 1])
  }

  predicate Run(events: seq<Event>) {
    events == [] || (Run(events[..|events| - 1]) && Allowed(Reached(events[..|events| - 1]), events[|events| - 1]))
  }

  function Creations(events: seq<Event>, p: TokenId): nat {
    if events == [] then 0
    else Creations(events[..|events| - 1], p)
           + if Creates(Reached(events[..|events| - 1]), events[|events| - 1], p) then 1 else 0
  }

  function Retractions(events: seq<Event>, p: TokenId): nat {
    if events == [] then 0
    else Retractions(events[..|events| - 1], p)
           + if Retracts(Reached(events[..|events| - 1]), events[|events| - 1], p) then 1 else 0
  }

  lemma WithSupportsInverse(s: State, p: TokenId, facts: set<FactId>)
    requires Inverse(s)
    ensures var after := WithSupports(s, p, facts);
      && Inverse(after) && FactsOf(after, p) == FactsOf(s, p) + facts && forall q :: q != p ==> FactsOf(after, q) == FactsOf(s, q)
  {
    var after := WithSupports(s, p, facts);
    assert facts == {} ==> FactsOf(s, p) + facts == FactsOf(s, p);
    forall q, g ensures g in FactsOf(after, q) <==> q in ParentsOf(after, g) {
      assert g in FactsOf(s, q) <==> q in ParentsOf(s, g);
    }
  }

  lemma InverseIgnoresPassThroughs(s: State, satisfied: map<TokenId, TokenId>)
    requires Inverse(s)
    ensures Inverse(s.(satisfied := satisfied)) && forall p :: FactsOf(s.(satisfied := satisfied), p) == FactsOf(s, p)
  {
    var t := s.(satisfied := satisfied);
    forall p, f ensures f in FactsOf(t, p) <==> p in ParentsOf(t, f) {
      assert f in FactsOf(s, p) <==> p in ParentsOf(s, f);
    }
  }

  lemma EventKeeps(s: State, e: Event)
    requires Inverse(s) && Settled(s) && Allowed(s, e)
    ensures Inverse(After(s, e)) && Settled(After(s, e))
  {
    var after := After(s, e).satisfied;
    match e
    case Entered(p, facts, _) =>
      WithSupportsInverse(s, p, facts);
      InverseIgnoresPassThroughs(WithSupports(s, p, facts), after);
    case Supported(p, f, _) =>
      WithSupportInverse(s, p, f);
      InverseIgnoresPassThroughs(WithSupport(s, p, f), after);
    case Withdrawn(p, f) =>
      WithoutSupportInverse(s, p, f);
      InverseIgnoresPassThroughs(WithoutSupport(s, p, f), after);
    case Forgotten(p) => WithoutParentInverse(s, p);
    case Cleared =>
  }

  lemma EventBalance(s: State, e: Event, p: TokenId)
    requires Inverse(s) && Settled(s) && Allowed(s, e)
    ensures Creates(s, e, p) ==> p !in s.satisfied && p in After(s, e).satisfied && !Retracts(s, e, p)
    ensures Retracts(s, e, p) ==> p in s.satisfied && p !in After(s, e).satisfied
    ensures !Creates(s, e, p) && !Retracts(s, e, p) ==> (p in s.satisfied <==> p in After(s, e).satisfied)
  {
    EventKeeps(s, e);
    match e
    case Entered(q, facts, _) => WithSupportsInverse(s, q, facts);
    case Supported(q, f, _) => WithSupportInverse(s, q, f);
    case Withdrawn(q, f) => WithoutSupportInverse(s, q, f);
    case Forgotten(q) => WithoutParentInverse(s, q);
    case Cleared =>
  }

  /** In every run: the indices are inverse, a parent is satisfied exactly when it is supported, and its
      pass-throughs created minus those retracted are one or none accordingly. */
  lemma {:induction false} RunBalances(events: seq<Event>, p: TokenId)
    requires Run(events)
    ensures Inverse(Reached(events)) && Settled(Reached(events))
    ensures Creations(events, p) == Retractions(events, p) + if FactsOf(Reached(events), p) != {} then 1 else 0
  {
    if events != [] {
      var before, e := events[..|events| - 1], events[|events| - 1];
      RunBalances(before, p);
      EventKeeps(Reached(before), e);
      EventBalance(Reached(before), e, p);
    }
  }

  // ----- what the maps hold, told by the events alone -----

  predicate Gives(e: Event, p: TokenId, f: FactId) {
    (e.Entered? && e.parent == p && f in e.facts) || (e.Supported? && e.parent == p && e.fact == f)
  }

  predicate Ends(e: Event, p: TokenId, f: FactId) {
    (e.Withdrawn? && e.parent == p && e.fact == f) || (e.Forgotten? && e.parent == p) || e.Cleared?
  }

  /** Some event gave the support and none after it ended it. */
  ghost predicate StillSupported(events: seq<Event>, p: TokenId, f: FactId) {
    exists k :: 0 <= k < |events| && Gives(events[k], p, f) && forall j :: k < j < |events| ==> !Ends(events[j], p, f)
  }

  lemma StillSupportedSnoc(before: seq<Event>, e: Event, p: TokenId, f: FactId)
    ensures StillSupported(before + [e], p, f) <==> Gives(e, p, f) || (StillSupported(before, p, f) && !Ends(e, p, f))
  {
    var events := before + [e];
    if Gives(e, p, f) { assert events[|before|] == e; }
    if StillSupported(before, p, f) && !Ends(e, p, f) {
      var k :| 0 <= k < |before| && Gives(before[k], p, f) && forall j :: k < j < |before| ==> !Ends(before[j], p, f);
      assert events[k] == before[k];
    }
    if StillSupported(events, p, f) && !Gives(e, p, f) {
      var k :| 0 <= k < |events| && Gives(events[k], p, f) && forall j :: k < j < |events| ==> !Ends(events[j], p, f);
      assert before[k] == events[k] && forall j :: k < j < |before| ==> before[j] == events[j];
      assert events[|before|] == e;
    }
  }

  /** In every run a fact supports a parent exactly when some event gave that support and none after it ended it. */
  lemma {:induction false} RunSupports(events: seq<Event>, p: TokenId, f: FactId)
    requires Run(events)
    ensures f in FactsOf(Reached(events), p) <==> StillSupported(events, p, f)
  {
    if events != [] {
      var before, e := events[..|events| - 1], events[|events| - 1];
      RunSupports(before, p, f);
      RunBalances(before, p);
      EventSupports(Reached(before), e, p, f);
      StillSupportedSnoc(before, e, p, f);
      assert events == before + [e];
    }
  }

  lemma EventSupports(s: State, e: Event, p: TokenId, f: FactId)
    requires Inverse(s)
    ensures f in FactsOf(After(s, e), p) <==> Gives(e, p, f) || (f in FactsOf(s, p) && !Ends(e, p, f))
  {
    match e
    case Entered(q, facts, _) => WithSupportsInverse(s, q, facts);
    case Supported(q, g, _) => WithSupportInverse(s, q, g);
    case Withdrawn(q, g) => WithoutSupportInverse(s, q, g);
    case Forgotten(q) => WithoutParentInverse(s, q);
    case Cleared =>
  }

  /** Event `k` created the pass-through `t` of `p`, and no later event created one. */
  predicate CreatedLast(events: seq<Event>, k: nat, p: TokenId, t: TokenId) {
    && k < |events| && (events[k].Entered? || events[k].Supported?) && events[k].passthrough == t
    && Creates(Reached(events[..k]), events[k], p)
    && forall j :: k < j < |events| ==> !Creates(Reached(events[..j]), events[j], p)
  }

  lemma CreatedLastSnoc(before: seq<Event>, e: Event, k: nat, p: TokenId, t: TokenId)
    requires CreatedLast(before, k, p, t) && !Creates(Reached(before), e, p)
    ensures CreatedLast(before + [e], k, p, t)
  {
    var events := before + [e];
    assert forall j :: 0 <= j <= |before| ==> events[..j] == before[..j];
    assert before[..|before|] == before;
  }

  /** In every run the stored pass-through of a satisfied parent is the one given with its latest creating event. */
  lemma {:induction false} RunStoresLatest(events: seq<Event>, p: TokenId)
    requires Run(events) && p in Reached(events).satisfied
    ensures exists k :: CreatedLast(events, k, p, Reached(events).satisfied[p])
  {
    var before, e := events[..|events| - 1], events[|events| - 1];
    assert events == before + [e];
    RunBalances(before, p);
    EventBalance(Reached(before), e, p);
    if Creates(Reached(before), e, p) {
      assert CreatedLast(events, |before|, p, Reached(events).satisfied[p]);
    } else {
      RunStoresLatest(before, p);
      var k :| CreatedLast(before, k, p, Reached(before).satisfied[p]);
      KeptPassThrough(Reached(before), e, p);
      CreatedLastSnoc(before, e, k, p, Reached(before).satisfied[p]);
    }
  }

  lemma KeptPassThrough(s: State, e: Event, p: TokenId)
    requires p in s.satisfied && p in After(s, e).satisfied && !Creates(s, e, p)
    ensures After(s, e).satisfied[p] == s.satisfied[p]
  {
  }

  /** Whenever an event retracts a parent's pass-through, the token it takes back is the one given with that
      parent's latest creating event, and afterwards the parent has none. */
  lemma RunRetractsLatest(events: seq<Event>, e: Event, p: TokenId)
    requires Run(events) && Allowed(Reached(events), e) && Retracts(Reached(events), e, p)
    ensures exists k :: CreatedLast(events, k, p, Reached(events).satisfied[p])
    ensures p !in After(Reached(events), e).satisfied
  {
    RunStoresLatest(events, p);
    RunBalances(events, p);
    EventBalance(Reached(events), e, p);
  }
}
