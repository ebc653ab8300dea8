/** Conflict resolution: agenda keys, their total order, and the same order told by birth instead of by number. */
module AgendaOrder {
  import opened Syntax
  import opened Sequences

  type ActivationId = nat

  datatype Strategy = Depth | Breadth | Lex | Mea

  datatype Activation = Activation(id: ActivationId, rule: RuleId, token: TokenId, salience: int, complexity: nat,
                                   timestamp: nat, sequence: nat, recency: seq<nat>)

  datatype StrategyOrd =
    | DepthOrd(sequence: nat)
    | BreadthOrd(sequence: nat)
    | LexOrd(sorted: seq<nat>)
    | MeaOrd(first: nat, sorted: seq<nat>)

  datatype AgendaKey = AgendaKey(salience: int, order: StrategyOrd, complexity: nat, sequence: nat)

  // ----- recency vectors -----

  function InsertDescending(x: nat, s: seq<nat>): seq<nat> {
    if s == [] || s[0] <= x then [x] + s else [s[0]] + InsertDescending(x, s[1..])
  }

  function SortedDescending(s: seq<nat>): seq<nat> {
    if s == [] then [] else InsertDescending(s[0], SortedDescending(s[1..]))
  }

  predicate Descending(s: seq<nat>) {
    forall i, j :: 0 <= i < j < |s| ==> s[i] >= s[j]
  }

  lemma DescendingTail(s: seq<nat>)
    requires Descending(s) && s != []
    ensures Descending(s[1..]) && forall x :: x in s ==> x <= s[0]
  {
    forall i, j | 0 <= i < j < |s[1..]| ensures s[1..][i] >= s[1..][j] { assert s[i + 1] >= s[j + 1]; }
  }

  lemma DescendingCons(x: nat, s: seq<nat>)
    requires Descending(s) && forall y :: y in s ==> y <= x
    ensures Descending([x] + s)
  {
    var longer := [x] + s;
    forall i, j | 0 <= i < j < |longer| ensures longer[i] >= longer[j] {
      if i == 0 { assert longer[j] in s; }
    }
  }

  lemma {:induction false} InsertedMembers(x: nat, s: seq<nat>)
    ensures multiset(InsertDescending(x, s)) == multiset(s) + multiset{x}
    ensures forall y :: y in InsertDescending(x, s) <==> y in s || y == x
  {
    if s != [] {
      assert s == [s[0]] + s[1..];
      if s[0] > x { InsertedMembers(x, s[1..]); }
    }
  }

  lemma {:induction false} InsertedDescending(x: nat, s: seq<nat>)
    requires Descending(s)
    ensures Descending(InsertDescending(x, s))
  {
    if s != [] {
      DescendingTail(s);
      if s[0] <= x {
        DescendingCons(x, s);
      } else {
        InsertedDescending(x, s[1..]);
        InsertedMembers(x, s[1..]);
        DescendingCons(s[0], InsertDescending(x, s[1..]));
      }
    }
  }

  lemma {:induction false} SortedIsSorted(s: seq<nat>)
    ensures Descending(SortedDescending(s)) && multiset(SortedDescending(s)) == multiset(s)
  {
    if s != [] {
      SortedIsSorted(s[1..]);
      InsertedDescending(s[0], SortedDescending(s[1..]));
      InsertedMembers(s[0], SortedDescending(s[1..]));
      assert s == [s[0]] + s[1..];
    }
  }

  lemma {:induction false} DescendingUnique(a: seq<nat>, b: seq<nat>)
    requires Descending(a) && Descending(b) && multiset(a) == multiset(b)
    ensures a == b
  {
    assert |a| == |multiset(a)| && |b| == |multiset(b)|;
    if a != [] {
      SameHead(a, b);
      assert a == [a[0]] + a[1..] && b == [b[0]] + b[1..];
      DescendingTail(a);
      DescendingTail(b);
      DescendingUnique(a[1..], b[1..]);
    }
  }

  lemma SameHead(a: seq<nat>, b: seq<nat>)
    requires Descending(a) && Descending(b) && multiset(a) == multiset(b) && a != [] && b != []
    ensures a[0] == b[0] && multiset(a[1..]) == multiset(b[1..])
  {
    DescendingTail(a);
    DescendingTail(b);
    assert a[0] in multiset(a) && b[0] in multiset(b);
    assert a[0] in b && b[0] in a;
    assert a == [a[0]] + a[1..] && b == [b[0]] + b[1..];
    assert multiset(a[1..]) == multiset(a) - multiset{a[0]};
    assert multiset(b[1..]) == multiset(b) - multiset{b[0]};
  }

  /** The LEX key does not depend on the order of a recency vector. */
  lemma LexKeyIgnoresOrder(a: seq<nat>, b: seq<nat>)
    requires multiset(a) == multiset(b)
    ensures SortedDescending(a) == SortedDescending(b)
  {
    SortedIsSorted(a);
    SortedIsSorted(b);
    DescendingUnique(SortedDescending(a), SortedDescending(b));
  }

  /** Lexicographic order; a proper prefix is smaller. */
  predicate LexLess(a: seq<nat>, b: seq<nat>) {
    b != [] && (a == [] || a[0] < b[0] || (a[0] == b[0] && LexLess(a[1..], b[1..])))
  }

  lemma {:induction false} LexLessTotal(a: seq<nat>, b: seq<nat>)
    ensures !(LexLess(a, b) && LexLess(b, a)) && (a == b ==> !LexLess(a, b)) && (a != b ==> LexLess(a, b) || LexLess(b, a))
  {
    if a != [] && b != [] && a[0] == b[0] {
      LexLessTotal(a[1..], b[1..]);
      assert a == [a[0]] + a[1..] && b == [b[0]] + b[1..];
    }
  }

  lemma {:induction false} LexLessTransitive(a: seq<nat>, b: seq<nat>, c: seq<nat>)
    requires LexLess(a, b) && LexLess(b, c)
    ensures LexLess(a, c)
  {
    if a != [] && a[0] == b[0] == c[0] { LexLessTransitive(a[1..], b[1..], c[1..]); }
  }

  lemma {:induction false} ProperPrefixIsLess(a: seq<nat>, b: seq<nat>)
    requires a < b
    ensures LexLess(a, b)
  {
    if a != [] {
      assert a[0] == b[0] && a[1..] < b[1..];
      ProperPrefixIsLess(a[1..], b[1..]);
    }
  }

  /** The vectors agree before position `k`, and there `a` has the greater entry. */
  predicate GreaterAt(a: seq<nat>, b: seq<nat>, k: nat) {
    k < |a| && k < |b| && a[..k] == b[..k] && a[k] > b[k]
  }

  /** `a` is more recent than `b`: greater at the first difference, or longer by a proper extension. */
  ghost predicate MoreRecent(a: seq<nat>, b: seq<nat>) {
    b < a || exists k :: GreaterAt(a, b, k)
  }

  lemma GreaterAtTail(a: seq<nat>, b: seq<nat>, k: nat)
    requires a != [] && b != [] && a[0] == b[0]
    ensures GreaterAt(a[1..], b[1..], k) <==> GreaterAt(a, b, k + 1)
  {
    if k < |a| - 1 && k < |b| - 1 {
      assert a[..k + 1] == [a[0]] + a[1..][..k] && b[..k + 1] == [b[0]] + b[1..][..k];
      if a[..k + 1] == b[..k + 1] { assert a[1..][..k] == a[..k + 1][1..] && b[1..][..k] == b[..k + 1][1..]; }
    }
  }

  lemma PrefixTail(a: seq<nat>, b: seq<nat>)
    requires a != [] && b != [] && a[0] == b[0]
    ensures b[1..] < a[1..] <==> b < a
  {
    assert a == [a[0]] + a[1..] && b == [b[0]] + b[1..];
  }

  /** The lexicographic order is the order by the first difference, told by positions. */
  lemma {:induction false} LexLessIsMoreRecent(a: seq<nat>, b: seq<nat>)
    ensures LexLess(b, a) <==> MoreRecent(a, b)
  {
    if a == [] || b == [] {
      assert forall k: nat :: !GreaterAt(a, b, k);
    } else if a[0] != b[0] {
      assert a[..0] == b[..0];
      assert a[0] > b[0] ==> GreaterAt(a, b, 0);
      forall k: nat | 0 < k ensures !GreaterAt(a, b, k) {
        if k <= |a| && k <= |b| { assert a[..k][0] == a[0] && b[..k][0] == b[0]; }
      }
    } else {
      LexLessIsMoreRecent(a[1..], b[1..]);
      PrefixTail(a, b);
      forall k: nat ensures GreaterAt(a[1..], b[1..], k) <==> GreaterAt(a, b, k + 1) { GreaterAtTail(a, b, k); }
      if k: nat :| GreaterAt(a, b, k) { assert k > 0 && GreaterAt(a[1..], b[1..], k - 1); }
      if k: nat :| GreaterAt(a[1..], b[1..], k) { assert GreaterAt(a, b, k + 1); }
    }
  }

  // ----- keys -----

  function First(recency: seq<nat>): nat {
    if recency == [] then 0 else recency[0]
  }

  function OrderOf(strategy: Strategy, a: Activation): StrategyOrd {
    match strategy
    case Depth => DepthOrd(a.sequence)
    case Breadth => BreadthOrd(a.sequence)
    case Lex => LexOrd(SortedDescending(a.recency))
    case Mea => MeaOrd(First(a.recency), SortedDescending(a.recency))
  }

  function BuildKey(strategy: Strategy, a: Activation): AgendaKey {
    AgendaKey(a.salience, OrderOf(strategy, a), a.complexity, a.sequence)
  }

  function Variant(o: StrategyOrd): nat {
    match o
    case DepthOrd(_) => 0
    case BreadthOrd(_) => 1
    case LexOrd(_) => 2
    case MeaOrd(_, _) => 3
  }

  /** Earlier means popped first; orders of different strategies never meet in one agenda. */
  predicate OrderLess(a: StrategyOrd, b: StrategyOrd) {
    if Variant(a) != Variant(b) then Variant(a) < Variant(b)
    else match a
      case DepthOrd(s) => s > b.sequence
      case BreadthOrd(s) => s < b.sequence
      case LexOrd(sorted) => LexLess(b.sorted, sorted)
      case MeaOrd(first, sorted) => first > b.first || (first == b.first && LexLess(b.sorted, sorted))
  }

  predicate KeyLess(a: AgendaKey, b: AgendaKey) {
    || a.salience > b.salience
    || (a.salience == b.salience && (
          || OrderLess(a.order, b.order)
          || (a.order == b.order && (a.complexity > b.complexity || (a.complexity == b.complexity && a.sequence < b.sequence)))))
  }

  lemma OrderLessTotal(a: StrategyOrd, b: StrategyOrd)
    ensures !(OrderLess(a, b) && OrderLess(b, a)) && (a == b ==> !OrderLess(a, b)) && (a != b ==> OrderLess(a, b) || OrderLess(b, a))
  {
    if Variant(a) == Variant(b) && (a.LexOrd? || a.MeaOrd?) { LexLessTotal(a.sorted, b.sorted); }
  }

  lemma OrderLessTransitive(a: StrategyOrd, b: StrategyOrd, c: StrategyOrd)
    requires OrderLess(a, b) && OrderLess(b, c)
    ensures OrderLess(a, c)
  {
    if Variant(a) == Variant(b) == Variant(c) && (a.LexOrd? || a.MeaOrd?) {
      if LexLess(c.sorted, b.sorted) && LexLess(b.sorted, a.sorted) { LexLessTransitive(c.sorted, b.sorted, a.sorted); }
    }
  }

  /** The key order is a strict total order. */
  lemma KeyOrderIsTotal(a: AgendaKey, b: AgendaKey, c: AgendaKey)
    ensures !KeyLess(a, a) && !(KeyLess(a, b) && KeyLess(b, a))
    ensures a != b ==> KeyLess(a, b) || KeyLess(b, a)
    ensures KeyLess(a, b) && KeyLess(b, c) ==> KeyLess(a, c)
  {
    OrderLessTotal(a.order, a.order);
    OrderLessTotal(a.order, b.order);
    OrderLessTotal(b.order, c.order);
    if OrderLess(a.order, b.order) && OrderLess(b.order, c.order) { OrderLessTransitive(a.order, b.order, c.order); }
  }

  // ----- the same order without sequence numbers -----

  /** Where the strategy puts entry `i` of a birth-ordered list before entry `j`. */
  predicate StrategyBeats(strategy: Strategy, live: seq<Activation>, i: nat, j: nat)
    requires i < |live| && j < |live|
  {
    var a, b := SortedDescending(live[i].recency), SortedDescending(live[j].recency);
    match strategy
    case Depth => i > j
    case Breadth => i < j
    case Lex => LexLess(b, a)
    case Mea => First(live[i].recency) > First(live[j].recency) || (First(live[i].recency) == First(live[j].recency) && LexLess(b, a))
  }

  predicate StrategyTies(strategy: Strategy, live: seq<Activation>, i: nat, j: nat)
    requires i < |live| && j < |live|
  {
    match strategy
    case Depth => i == j
    case Breadth => i == j
    case Lex => SortedDescending(live[i].recency) == SortedDescending(live[j].recency)
    case Mea => First(live[i].recency) == First(live[j].recency) && SortedDescending(live[i].recency) == SortedDescending(live[j].recency)
  }

  /** Entry `i` fires before entry `j`: salience, strategy, complexity, then birth. */
  predicate Beats(strategy: Strategy, live: seq<Activation>, i: nat, j: nat)
    requires i < |live| && j < |live|
  {
    || live[i].salience > live[j].salience
    || (live[i].salience == live[j].salience && (
          || StrategyBeats(strategy, live, i, j)
          || (StrategyTies(strategy, live, i, j) && (
                || live[i].complexity > live[j].complexity
                || (live[i].complexity == live[j].complexity && i < j)))))
  }

  predicate Increasing(live: seq<Activation>) {
    forall i, j :: 0 <= i < j < |live| ==> live[i].sequence < live[j].sequence
  }

  function Erase(a: Activation): Activation { a.(sequence := 0) }

  function Erased(live: seq<Activation>): seq<Activation> {
    seq(|live|, i requires 0 <= i < |live| => Erase(live[i]))
  }

  /** With sequences handed out in birth order, the key order is the birth-told order: numbers are invisible. */
  lemma KeyOrderIsBirthOrder(strategy: Strategy, live: seq<Activation>, i: nat, j: nat)
    requires Increasing(live) && i < |live| && j < |live|
    ensures KeyLess(BuildKey(strategy, live[i]), BuildKey(strategy, live[j])) <==> Beats(strategy, Erased(live), i, j)
  {
    if i < j { assert live[i].sequence < live[j].sequence; }
    if j < i { assert live[j].sequence < live[i].sequence; }
  }

  /** Under LEX, at equal salience, more recency beats its own proper prefix. */
  lemma LongerRecencyWins(live: seq<Activation>, i: nat, j: nat)
    requires i < |live| && j < |live| && live[i].salience == live[j].salience
    requires SortedDescending(live[j].recency) < SortedDescending(live[i].recency)
    ensures Beats(Lex, live, i, j) && !Beats(Lex, live, j, i)
  {
    var a, b := SortedDescending(live[i].recency), SortedDescending(live[j].recency);
    ProperPrefixIsLess(b, a);
    LexLessTotal(a, b);
  }

  // ----- the best entry -----

  ghost predicate Best(strategy: Strategy, live: seq<Activation>, eligible: set<nat>, i: nat) {
    && i in eligible && i < |live|
    && forall j :: j in eligible && j < |live| && j != i ==> Beats(strategy, live, i, j)
  }

  lemma BeatsIsStrict(strategy: Strategy, live: seq<Activation>, i: nat, j: nat)
    requires i < |live| && j < |live|
    ensures !(Beats(strategy, live, i, j) && Beats(strategy, live, j, i))
    ensures i != j ==> Beats(strategy, live, i, j) || Beats(strategy, live, j, i)
  {
    LexLessTotal(SortedDescending(live[i].recency), SortedDescending(live[j].recency));
  }

  /** At most one entry is best: the specification of every pop is deterministic. */
  lemma BestUnique(strategy: Strategy, live: seq<Activation>, eligible: set<nat>, i: nat, j: nat)
    requires Best(strategy, live, eligible, i) && Best(strategy, live, eligible, j)
    ensures i == j
  {
    BeatsIsStrict(strategy, live, i, j);
  }
}
