/** Sizes of finite sets of indices. */
module Sets {

  // {0, ..., n - 1}
  function Below(n: nat): (r: set<int>)
    ensures |r| == n && forall i :: i in r <==> 0 <= i < n
  {
    if n == 0 then {} else Below(n - 1) + {n - 1}
  }

  function ToSet(xs: seq<nat>): set<nat> {
    set x | x in xs
  }

  lemma ToSetConcat(xs: seq<nat>, ys: seq<nat>)
    ensures ToSet(xs + ys) == ToSet(xs) + ToSet(ys)
  {}

  lemma {:induction false} ToSetSize(xs: seq<nat>)
    ensures |ToSet(xs)| <= |xs|
  {
    if xs != [] {
      var init, last := xs[..|xs| - 1], xs[|xs| - 1];
      assert xs == init + [last];
      ToSetSize(init);
      assert ToSet(xs) == ToSet(init) + {last};
    }
  }

  // The sequence holds exactly the set's elements, each once.
  ghost predicate Lists<T(!new)>(xs: seq<T>, s: set<T>) {
    (forall x :: x in xs <==> x in s) && (forall a, b | 0 <= a < b < |xs| :: xs[a] != xs[b])
  }

  lemma ListsOneMore<T(!new)>(xs: seq<T>, s: set<T>, x: T)
    requires Lists(xs, s) && x !in s
    ensures Lists(xs + [x], s + {x})
  {}

  lemma {:induction false} ListsSize<T(!new)>(xs: seq<T>, s: set<T>)
    requires Lists(xs, s)
    ensures |xs| == |s|
    decreases |xs|
  {
    if xs == [] {
      assert s == {};
    } else {
      var init, last := xs[..|xs| - 1], xs[|xs| - 1];
      assert xs == init + [last] && last in xs;
      ListsSize(init, s - {last});
    }
  }

  lemma Without<T>(s: set<T>, x: T, t: set<T>)
    requires x in s && s <= t
    ensures s - {x} <= t && |s - {x}| < |s|
  {}

  lemma WithoutNone<T, U>(m: map<T, U>)
    ensures m - {} == m
  {}

  lemma SubsetSize<T>(a: set<T>, b: set<T>)
    requires a <= b
    ensures |a| <= |b|
    ensures |a| == |b| ==> a == b
  {
    assert b == a + (b - a);
  }

  // A set of indices below n has n elements exactly when it has all of them.
  lemma FullExactly(a: set<int>, n: nat)
    requires forall i | i in a :: 0 <= i < n
    ensures |a| <= n
    ensures |a| == n <==> forall i :: 0 <= i < n ==> i in a
  {
    SubsetSize(a, Below(n));
    if forall i :: 0 <= i < n ==> i in a {
      assert a == Below(n);
    }
  }
}
