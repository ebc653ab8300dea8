/** Lists of distinct ids: what removing an element and joining lists keep. */
module Sequences {

  predicate NoDuplicates<T(==)>(s: seq<T>) {
    forall i, j :: 0 <= i < j < |s| ==> s[i] != s[j]
  }

  function Without(s: seq<nat>, x: nat): seq<nat> {
    if s == [] then []
    else (if s[0] == x then [] else [s[0]]) + Without(s[1..], x)
  }

  lemma {:induction false} WithoutMembers(s: seq<nat>, x: nat)
    ensures forall y :: y in Without(s, x) <==> y in s && y != x
  {
    if s != [] {
      WithoutMembers(s[1..], x);
      assert s == [s[0]] + s[1..];
    }
  }

  lemma {:induction false} WithoutAbsent(s: seq<nat>, x: nat)
    requires x !in s
    ensures Without(s, x) == s
  {
    if s != [] { WithoutAbsent(s[1..], x); }
  }

  lemma {:induction false} WithoutSnoc(s: seq<nat>, y: nat, x: nat)
    ensures Without(s + [y], x) == Without(s, x) + if y == x then [] else [y]
  {
    if s == [] {
      assert [y][1..] == [];
      assert [] + [y] == [y];
    } else {
      assert (s + [y])[1..] == s[1..] + [y] && (s + [y])[0] == s[0];
      WithoutSnoc(s[1..], y, x);
      var head: seq<nat>, tail := if s[0] == x then [] else [s[0]], if y == x then [] else [y];
      assert head + (Without(s[1..], x) + tail) == head + Without(s[1..], x) + tail;
    }
  }

  lemma {:induction false} WithoutDistinct(s: seq<nat>, x: nat)
    requires NoDuplicates(s)
    ensures NoDuplicates(Without(s, x))
    ensures x in s ==> |Without(s, x)| == |s| - 1
  {
    if s != [] {
      assert forall i, j :: 0 <= i < j < |s[1..]| ==> s[1..][i] == s[i + 1] && s[1..][j] == s[j + 1];
      WithoutDistinct(s[1..], x);
      assert s[0] !in s[1..];
      WithoutMembers(s[1..], x);
      if s[0] == x { WithoutAbsent(s[1..], x); }
    }
  }

  /** Removing a distinct element removes one position. */
  lemma {:induction false} WithoutAt(s: seq<nat>, i: nat)
    requires NoDuplicates(s) && i < |s|
    ensures Without(s, s[i]) == s[..i] + s[i + 1..]
  {
    var rest := s[1..];
    assert s == [s[0]] + rest;
    assert forall a, b :: 0 <= a < b < |rest| ==> rest[a] == s[a + 1] && rest[b] == s[b + 1];
    if i == 0 {
      assert s[0] !in rest;
      WithoutAbsent(rest, s[0]);
    } else {
      WithoutAt(rest, i - 1);
      assert s[..i] == [s[0]] + rest[..i - 1];
    }
  }

  lemma DistinctSnoc(s: seq<nat>, x: nat)
    requires NoDuplicates(s) && x !in s
    ensures NoDuplicates(s + [x])
  {
  }

  lemma DistinctConcat(a: seq<nat>, b: seq<nat>)
    requires NoDuplicates(a) && NoDuplicates(b) && forall x :: x in a ==> x !in b
    ensures NoDuplicates(a + b)
  {
    forall i, j | 0 <= i < j < |a + b| ensures (a + b)[i] != (a + b)[j] {
      if i < |a| <= j { assert a[i] in a && b[j - |a|] in b; }
    }
  }

  lemma SomeMember(s: seq<nat>)
    ensures s != [] ==> exists x :: x in s
  {
    if s != [] { assert s[0] in s; }
  }

  // ----- order -----

  /** Some occurrence of `b` comes after some occurrence of `a`. */
  ghost predicate InOrder(s: seq<nat>, a: nat, b: nat) {
    exists x, y :: 0 <= x < y < |s| && s[x] == a && s[y] == b
  }

  lemma InOrderLater(first: nat, rest: seq<nat>, a: nat, b: nat)
    requires InOrder(rest, a, b)
    ensures InOrder([first] + rest, a, b)
  {
    var x, y :| 0 <= x < y < |rest| && rest[x] == a && rest[y] == b;
    assert ([first] + rest)[x + 1] == a && ([first] + rest)[y + 1] == b;
  }

  lemma InOrderFirst(first: nat, rest: seq<nat>, b: nat)
    requires b in rest
    ensures InOrder([first] + rest, first, b)
  {
    var y :| 0 <= y < |rest| && rest[y] == b;
    assert ([first] + rest)[0] == first && ([first] + rest)[y + 1] == b;
  }

  lemma InOrderSnoc(before: seq<nat>, x: nat, a: nat, b: nat)
    requires InOrder(before, a, b)
    ensures InOrder(before + [x], a, b)
  {
    var i, j :| 0 <= i < j < |before| && before[i] == a && before[j] == b;
    assert (before + [x])[i] == a && (before + [x])[j] == b;
  }

  lemma InOrderLast(before: seq<nat>, x: nat, a: nat)
    requires a in before
    ensures InOrder(before + [x], a, x)
  {
    var i :| 0 <= i < |before| && before[i] == a;
    assert (before + [x])[i] == a && (before + [x])[|before|] == x;
  }

  /** Survivors keep their relative order. */
  lemma {:induction false} WithoutKeepsOrder(s: seq<nat>, t: nat)
    ensures forall i, j :: 0 <= i < j < |Without(s, t)| ==> InOrder(s, Without(s, t)[i], Without(s, t)[j])
  {
    hide InOrder;
    if s != [] {
      var rest, left, all := s[1..], Without(s[1..], t), Without(s, t);
      assert s == [s[0]] + rest;
      WithoutKeepsOrder(rest, t);
      WithoutMembers(rest, t);
      forall i, j | 0 <= i < j < |all| ensures InOrder(s, all[i], all[j]) {
        if s[0] == t {
          assert all == left;
          InOrderLater(s[0], rest, left[i], left[j]);
        } else if i == 0 {
          assert all == [s[0]] + left && all[j] == left[j - 1] && left[j - 1] in left;
          InOrderFirst(s[0], rest, left[j - 1]);
        } else {
          assert all == [s[0]] + left && all[i] == left[i - 1] && all[j] == left[j - 1];
          InOrderLater(s[0], rest, left[i - 1], left[j - 1]);
        }
      }
    }
  }
}
