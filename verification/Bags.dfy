// Sums over lists of distinct keys, the shape of every count map iterated in arbitrary order.
module Bags {

  ghost predicate Distinct<K(!new)>(ks: seq<K>) {
    forall i, j :: 0 <= i < j < |ks| ==> ks[i] != ks[j]
  }

  // The total multiplicity of the listed keys.
  function SumOver<K(==)>(ks: seq<K>, bag: multiset<K>): nat {
    if ks == [] then 0 else SumOver(ks[..|ks| - 1], bag) + bag[ks[|ks| - 1]]
  }

  lemma {:induction false} SumSame<K(!new)>(ks: seq<K>, a: multiset<K>, b: multiset<K>)
    requires forall k :: k in ks ==> a[k] == b[k]
    ensures SumOver(ks, a) == SumOver(ks, b)
  {
    if ks != [] {
      var n := |ks| - 1;
      assert ks == ks[..n] + [ks[n]];
      SumSame(ks[..n], a, b);
    }
  }

  // Keys that cover a bag add up to its size, in whatever order they are listed.
  lemma {:induction false} CoverSum<K(!new)>(ks: seq<K>, bag: multiset<K>)
    requires Distinct(ks) && forall k :: k in bag ==> k in ks
    ensures SumOver(ks, bag) == |bag|
  {
    if ks == [] {
      assert bag == multiset{};
    } else {
      var n := |ks| - 1;
      assert ks == ks[..n] + [ks[n]];
      var rest := bag[ks[n] := 0];
      CoverSum(ks[..n], rest);
      SumSame(ks[..n], bag, rest);
    }
  }

  // The listed keys that a projection sends to p.
  function Marginal<K(==), P(==)>(ks: seq<K>, bag: multiset<K>, project: K -> P, p: P): nat {
    if ks == [] then 0
    else
      var n := |ks| - 1;
      Marginal(ks[..n], bag, project, p) + if project(ks[n]) == p then bag[ks[n]] else 0
  }

  function Projected<K, P>(xs: seq<K>, project: K -> P): seq<P> {
    seq(|xs|, i requires 0 <= i < |xs| => project(xs[i]))
  }

  lemma {:induction false} MarginalBump<K(!new), P(!new)>(ks: seq<K>, bag: multiset<K>, project: K -> P, p: P, x: K)
    requires Distinct(ks)
    ensures Marginal(ks, bag + multiset{x}, project, p) ==
            Marginal(ks, bag, project, p) + if x in ks && project(x) == p then 1 else 0
  {
    if ks != [] {
      var n := |ks| - 1;
      assert ks == ks[..n] + [ks[n]];
      MarginalBump(ks[..n], bag, project, p, x);
    }
  }

  lemma {:induction false} MarginalOfNothing<K(!new), P(!new)>(ks: seq<K>, project: K -> P, p: P)
    ensures Marginal(ks, multiset{}, project, p) == 0
  {
    if ks != [] { MarginalOfNothing(ks[..|ks| - 1], project, p); }
  }

  // Adding up fine counts over everything that projects to p gives the coarse count of p.
  lemma {:induction false} MarginalIsCoarse<K(!new), P(!new)>(ks: seq<K>, xs: seq<K>, project: K -> P, p: P)
    requires Distinct(ks) && forall x :: x in xs ==> x in ks
    ensures Marginal(ks, multiset(xs), project, p) == multiset(Projected(xs, project))[p]
  {
    if xs == [] {
      MarginalOfNothing(ks, project, p);
    } else {
      var n := |xs| - 1;
      assert xs == xs[..n] + [xs[n]];
      MarginalIsCoarse(ks, xs[..n], project, p);
      MarginalBump(ks, multiset(xs[..n]), project, p, xs[n]);
      assert Projected(xs, project) == Projected(xs[..n], project) + [project(xs[n])];
    }
  }

  // ----- The same sums read off a count map -----

  // counts is the count map of a list: no key without an occurrence, and the right numbers.
  ghost predicate IsCount<K(!new)>(counts: map<K, int>, xs: seq<K>) {
    && (forall k :: k in counts <==> k in multiset(xs))
    && (forall k :: k in counts ==> counts[k] == multiset(xs)[k])
  }

  lemma CountNext<K(!new)>(counts: map<K, int>, xs: seq<K>, k: K)
    requires IsCount(counts, xs)
    ensures IsCount(counts[k := (if k in counts then counts[k] else 0) + 1], xs + [k])
  {
  }

  // The values of a map added up in the given order, over the keys that project to p.
  function SumAt<K(==), P(==)>(order: seq<K>, counts: map<K, int>, project: K -> P, p: P): int
    requires forall k :: k in order ==> k in counts
  {
    if order == [] then 0
    else
      var n := |order| - 1;
      SumAt(order[..n], counts, project, p) + if project(order[n]) == p then counts[order[n]] else 0
  }

  lemma {:induction false} SumAtIsMarginal<K(!new), P(!new)>(order: seq<K>, counts: map<K, int>, xs: seq<K>,
                                                             project: K -> P, p: P)
    requires IsCount(counts, xs) && forall k :: k in order ==> k in counts
    ensures SumAt(order, counts, project, p) == Marginal(order, multiset(xs), project, p)
  {
    if order != [] {
      var n := |order| - 1;
      assert order[n] in order;
      SumAtIsMarginal(order[..n], counts, xs, project, p);
    }
  }

  // Iterating a count map in any order and adding up what projects to p counts the elements that
  // project to p.
  lemma SumCountsProjection<K(!new), P(!new)>(order: seq<K>, counts: map<K, int>, xs: seq<K>, project: K -> P, p: P)
    requires IsCount(counts, xs) && Distinct(order) && forall k :: k in order <==> k in counts
    ensures SumAt(order, counts, project, p) == multiset(Projected(xs, project))[p]
  {
    SumAtIsMarginal(order, counts, xs, project, p);
    forall x | x in xs ensures x in order { assert x in multiset(xs); }
    MarginalIsCoarse(order, xs, project, p);
  }

  // The values of a count map add up to the number of elements.
  lemma SumCountsEverything<K(!new)>(order: seq<K>, counts: map<K, int>, xs: seq<K>)
    requires IsCount(counts, xs) && Distinct(order) && forall k :: k in order <==> k in counts
    ensures SumAt(order, counts, k => true, true) == |xs|
  {
    SumCountsProjection(order, counts, xs, k => true, true);
    AllTrue(Projected(xs, k => true));
  }

  lemma {:induction false} AllTrue(bs: seq<bool>)
    requires forall i :: 0 <= i < |bs| ==> bs[i]
    ensures multiset(bs)[true] == |bs|
  {
    if bs != [] {
      AllTrue(bs[..|bs| - 1]);
      assert bs == bs[..|bs| - 1] + [true];
    }
  }

  // At how many places of a list the predicate holds.
  ghost function Times<T(!new)>(xs: seq<T>, p: T -> bool): nat {
    |set i: nat | i < |xs| && p(xs[i])|
  }

  lemma TimesNext<T(!new)>(xs: seq<T>, p: T -> bool)
    requires xs != []
    ensures Times(xs, p) == Times(xs[..|xs| - 1], p) + if p(xs[|xs| - 1]) then 1 else 0
  {
    var n := |xs| - 1;
    var front := set i: nat | i < n && p(xs[..n][i]);
    var all := set i: nat | i < |xs| && p(xs[i]);
    assert forall i: nat :: i < n ==> xs[..n][i] == xs[i];
    if p(xs[n]) {
      assert all == front + {n};
    } else {
      assert all == front;
    }
  }

  lemma TimesNone<T(!new)>(p: T -> bool)
    ensures Times([], p) == 0
  {
    var none: seq<T> := [];
    assert (set i: nat | i < |none| && p(none[i])) == {};
  }

  lemma TimesPositive<T(!new)>(xs: seq<T>, p: T -> bool)
    ensures Times(xs, p) > 0 <==> exists x :: x in xs && p(x)
  {
    var places := set i: nat | i < |xs| && p(xs[i]);
    if x :| x in xs && p(x) {
      var i :| 0 <= i < |xs| && xs[i] == x;
      assert i in places;
    }
    if |places| > 0 {
      var i :| i in places;
      assert xs[i] in xs && p(xs[i]);
    }
  }
}
