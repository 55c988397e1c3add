/** Walks in a finite relation given as a set of pairs. */
module Walks {
  // A walk can be shortened to a simple one, and a simple walk visits no more vertices than there are.

  predicate Distinct<T(==)>(s: seq<T>) {
    forall i, j :: 0 <= i < j < |s| ==> s[i] != s[j]
  }

  lemma DistinctConcat<T(!new)>(a: seq<T>, b: seq<T>)
    requires Distinct(a) && Distinct(b) && forall x :: x in b ==> x !in a
    ensures Distinct(a + b)
  {
    forall i, j | 0 <= i < j < |a + b|
      ensures (a + b)[i] != (a + b)[j]
    {
      if i < |a| <= j {
        assert (a + b)[j] in b && (a + b)[i] in a;
      }
    }
  }

  lemma DistinctSnoc<T>(a: seq<T>, x: T)
    ensures Distinct(a + [x]) <==> Distinct(a) && x !in a
  {
    var s := a + [x];
    assert s[|a|] == x;
    if Distinct(s) {
      assert forall i :: 0 <= i < |a| ==> s[i] == a[i];
    }
  }

  ghost predicate IsWalk<T>(edges: set<(T, T)>, p: seq<T>) {
    && p != []
    && forall i :: 0 <= i < |p| - 1 ==> (p[i], p[i + 1]) in edges
  }

  ghost predicate WalkFromTo<T>(edges: set<(T, T)>, a: T, b: T, p: seq<T>) {
    IsWalk(edges, p) && p[0] == a && p[|p| - 1] == b
  }

  /** Some walk with exactly `n` edges leads from `a` to `b`. */
  ghost predicate Hops<T(!new)>(edges: set<(T, T)>, a: T, b: T, n: nat) {
    exists p :: WalkFromTo(edges, a, b, p) && |p| == n + 1
  }

  /** Some walk with at least one edge leads from `a` to `b`. */
  ghost predicate Reaches<T(!new)>(edges: set<(T, T)>, a: T, b: T) {
    exists n: nat :: n >= 1 && Hops(edges, a, b, n)
  }

  ghost predicate Acyclic<T(!new)>(edges: set<(T, T)>) {
    forall x :: !Reaches(edges, x, x)
  }

  lemma HopsZero<T(!new)>(edges: set<(T, T)>, a: T, b: T)
    ensures Hops(edges, a, b, 0) <==> a == b
  {
    if a == b {
      assert WalkFromTo(edges, a, b, [a]);
    }
  }

  lemma HopsOne<T(!new)>(edges: set<(T, T)>, a: T, b: T)
    ensures Hops(edges, a, b, 1) <==> (a, b) in edges
  {
    if (a, b) in edges {
      assert WalkFromTo(edges, a, b, [a, b]);
    }
    if Hops(edges, a, b, 1) {
      var p :| WalkFromTo(edges, a, b, p) && |p| == 2;
      assert (p[0], p[1]) in edges;
    }
  }

  lemma HopsConcat<T(!new)>(edges: set<(T, T)>, a: T, b: T, c: T, m: nat, n: nat)
    requires Hops(edges, a, b, m) && Hops(edges, b, c, n)
    ensures Hops(edges, a, c, m + n)
  {
    var p :| WalkFromTo(edges, a, b, p) && |p| == m + 1;
    var q :| WalkFromTo(edges, b, c, q) && |q| == n + 1;
    var r := p + q[1..];
    forall i | 0 <= i < |r| - 1
      ensures (r[i], r[i + 1]) in edges
    {
      if i < m {
        assert (p[i], p[i + 1]) in edges;
      } else {
        assert (q[i - m], q[i - m + 1]) in edges;
      }
    }
    assert WalkFromTo(edges, a, c, r);
  }

  /** Cutting a walk after `m` edges. */
  lemma HopsSplit<T(!new)>(edges: set<(T, T)>, a: T, c: T, m: nat, n: nat) returns (b: T)
    requires Hops(edges, a, c, m + n)
    ensures Hops(edges, a, b, m) && Hops(edges, b, c, n)
  {
    var p :| WalkFromTo(edges, a, c, p) && |p| == m + n + 1;
    b := p[m];
    assert WalkFromTo(edges, a, b, p[..m + 1]);
    assert WalkFromTo(edges, b, c, p[m..]);
  }

  lemma ReachesTransitive<T(!new)>(edges: set<(T, T)>, a: T, b: T, c: T)
    requires Reaches(edges, a, b) && Reaches(edges, b, c)
    ensures Reaches(edges, a, c)
  {
    var m: nat :| m >= 1 && Hops(edges, a, b, m);
    var n: nat :| n >= 1 && Hops(edges, b, c, n);
    HopsConcat(edges, a, b, c, m, n);
  }

  lemma EdgeReaches<T(!new)>(edges: set<(T, T)>, a: T, b: T)
    requires (a, b) in edges
    ensures Reaches(edges, a, b)
  {
    HopsOne(edges, a, b);
  }

  /** A set closed under the relation that holds the successors of `a` holds all that `a` reaches. */
  lemma {:induction false} ReachesStaysInside<T(!new)>(edges: set<(T, T)>, inside: set<T>, a: T, p: seq<T>)
    requires IsWalk(edges, p) && p[0] == a && |p| >= 2
    requires forall y :: (a, y) in edges ==> y in inside
    requires forall x, y :: x in inside && (x, y) in edges ==> y in inside
    ensures p[|p| - 1] in inside
    decreases |p|
  {
    var q := p[..|p| - 1];
    assert (p[|p| - 2], p[|p| - 1]) in edges;
    if |q| >= 2 {
      ReachesStaysInside(edges, inside, a, q);
    }
  }

  function Reverse<T>(s: seq<T>): (r: seq<T>)
    ensures |r| == |s| && forall i :: 0 <= i < |s| ==> r[i] == s[|s| - 1 - i]
  {
    if s == [] then [] else Reverse(s[1..]) + [s[0]]
  }

  lemma ConverseHops<T(!new)>(edges: set<(T, T)>, back: set<(T, T)>, a: T, b: T, n: nat)
    requires forall x, y :: (x, y) in edges ==> (y, x) in back
    requires Hops(edges, a, b, n)
    ensures Hops(back, b, a, n)
  {
    var p :| WalkFromTo(edges, a, b, p) && |p| == n + 1;
    var q := Reverse(p);
    forall i | 0 <= i < |q| - 1
      ensures (q[i], q[i + 1]) in back
    {
      assert (p[|p| - 2 - i], p[|p| - 1 - i]) in edges;
    }
    assert WalkFromTo(back, b, a, q);
  }

  function Elements<T(==)>(s: seq<T>): set<T> {
    set x | x in s
  }

  lemma {:induction false} DistinctCard<T>(s: seq<T>)
    requires Distinct(s)
    ensures |Elements(s)| == |s|
  {
    if s != [] {
      var rest, last := s[..|s| - 1], s[|s| - 1];
      assert s == rest + [last];
      DistinctSnoc(rest, last);
      DistinctCard(rest);
      assert Elements(s) == Elements(rest) + {last};
      assert last !in Elements(rest);
    }
  }

  lemma SubsetCard<T>(small: set<T>, large: set<T>)
    requires small <= large
    ensures |small| <= |large|
  {
    assert large == small + (large - small);
  }

  lemma Pigeonhole<T>(s: seq<T>, pool: set<T>)
    requires Distinct(s) && forall x :: x in s ==> x in pool
    ensures |s| <= |pool|
  {
    DistinctCard(s);
    SubsetCard(Elements(s), pool);
  }

  /** The vertex ids `0 .. n`. */
  function Below(n: nat): (s: set<nat>)
    ensures |s| == n
    ensures forall x: nat :: x in s <==> x < n
  {
    if n == 0 then {} else Below(n - 1) + {n - 1}
  }
}
