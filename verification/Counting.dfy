/** Counting positions of a sequence that satisfy a predicate. */
module Counting {

  function Where<T>(xs: seq<T>, f: T -> bool): set<nat> {
    set k: nat | k < |xs| && f(xs[k])
  }

  function Count<T>(xs: seq<T>, f: T -> bool): nat {
    |Where(xs, f)|
  }

  function Unit(b: bool): nat {
    if b then 1 else 0
  }

  lemma CountUpdate<T>(xs: seq<T>, k: nat, x: T, f: T -> bool)
    requires k < |xs|
    ensures Count(xs[k := x], f) == Count(xs, f) - Unit(f(xs[k])) + Unit(f(x))
  {
    var rest := Where(xs, f) - {k};
    assert Where(xs[k := x], f) == if f(x) then rest + {k} else rest;
    assert Where(xs, f) == if f(xs[k]) then rest + {k} else rest;
  }

  lemma CountAppend<T>(xs: seq<T>, x: T, f: T -> bool)
    ensures Count(xs + [x], f) == Count(xs, f) + Unit(f(x))
  {
    assert Where(xs + [x], f) == if f(x) then Where(xs, f) + {|xs|} else Where(xs, f);
  }

  lemma CountZero<T>(xs: seq<T>, f: T -> bool)
    ensures Count(xs, f) == 0 <==> forall k :: 0 <= k < |xs| ==> !f(xs[k])
  {
    if Count(xs, f) == 0 {
      assert Where(xs, f) == {};
      forall k | 0 <= k < |xs| ensures !f(xs[k]) { assert k !in Where(xs, f); }
    } else {
      var k :| k in Where(xs, f);
    }
  }

  lemma CountBelow<T>(xs: seq<T>, f: T -> bool)
    ensures Count(xs, f) <= |xs|
    decreases |xs|
  {
    if xs == [] {
      assert Where(xs, f) == {};
    } else {
      var front := xs[..|xs| - 1];
      CountBelow(front, f);
      CountAppend(front, xs[|xs| - 1], f);
      assert xs == front + [xs[|xs| - 1]];
    }
  }

  lemma SubsetSize<T>(a: set<T>, b: set<T>)
    requires a <= b
    ensures |a| <= |b|
    ensures |a| == |b| <==> a == b
  {
    assert b == a + (b - a);
  }

  /** Two disjoint classes that together hold every position. */
  lemma CountSplit<T>(xs: seq<T>, f: T -> bool, g: T -> bool)
    requires forall k :: 0 <= k < |xs| ==> f(xs[k]) != g(xs[k])
    ensures Count(xs, f) + Count(xs, g) == |xs|
    decreases |xs|
  {
    if xs == [] {
      assert Where(xs, f) == {} && Where(xs, g) == {};
    } else {
      var front := xs[..|xs| - 1];
      CountSplit(front, f, g);
      CountAppend(front, xs[|xs| - 1], f);
      CountAppend(front, xs[|xs| - 1], g);
      assert xs == front + [xs[|xs| - 1]];
    }
  }

  /** Occurrences of a value in a list. */
  function Occurs(list: seq<int>, r: int): nat {
    multiset(list)[r]
  }

  /** A list without one occurrence of a value it holds. */
  lemma Without(list: seq<int>, x: int) returns (rest: seq<int>)
    requires Occurs(list, x) > 0
    ensures multiset(list) == multiset(rest) + multiset{x}
  {
    var j :| 0 <= j < |list| && list[j] == x;
    rest := list[..j] + list[j + 1..];
    assert list == list[..j] + [list[j]] + list[j + 1..];
  }

  /** Lists in which every value occurs equally often are rearrangements of each other. */
  lemma {:induction false} SameCounts(a: seq<int>, b: seq<int>)
    requires forall r :: Occurs(a, r) == Occurs(b, r)
    ensures multiset(a) == multiset(b)
    decreases |a|
  {
    if a == [] {
      NoneOccur(b);
    } else {
      var n := |a| - 1;
      assert a == a[..n] + [a[n]];
      var rest := Without(b, a[n]);
      forall r ensures Occurs(a[..n], r) == Occurs(rest, r) {
        assert Occurs(a, r) == Occurs(b, r);
      }
      SameCounts(a[..n], rest);
    }
  }

  lemma NoneOccur(b: seq<int>)
    requires forall r :: Occurs(b, r) == Occurs([], r)
    ensures b == []
  {
    assert |b| > 0 ==> Occurs(b, b[0]) > 0;
  }
}
