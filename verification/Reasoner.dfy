/** Forward-chaining closure, SYMMETRIC and TRANSITIVE (onto/reasoner.py). */
module Reasoner {
  import opened Results
  import opened Walks

  // The rules are prp-symp and prp-trp of section 4.3 of the W3C OWL 2 Web Ontology Language Profiles.

  type Pair = (nat, nat)

  // ---------------------------------------------------------------- reference meaning

  /** `a` and `c` are joined through some middle element. */
  ghost predicate Via(relation: set<Pair>, a: nat, c: nat) {
    exists b: nat :: (a, b) in relation && (b, c) in relation
  }

  /** `after` is `before` with every composition of two of its pairs added. */
  ghost predicate IsPass(before: set<Pair>, after: set<Pair>) {
    forall p: Pair :: p in after <==> p in before || Via(before, p.0, p.1)
  }

  /** One pass of the transitive rule. */
  ghost function Pass(relation: set<Pair>): (r: set<Pair>)
    ensures IsPass(relation, r)
  {
    var r := relation + set p, q | p in relation && q in relation && p.1 == q.0 :: (p.0, q.1);
    assert IsPass(relation, r) by {
      forall p: Pair
        ensures p in r <==> p in relation || Via(relation, p.0, p.1)
      {
        if Via(relation, p.0, p.1) {
          var b: nat :| (p.0, b) in relation && (b, p.1) in relation;
          assert (p.0, b).1 == (b, p.1).0;
        }
      }
    }
    var s :| IsPass(relation, s);
    s
  }

  ghost function Iterate<T>(step: T -> T, x: T, k: nat): T {
    if k == 0 then x else step(Iterate(step, x, k - 1))
  }

  lemma {:induction false} FixpointStays<T>(step: T -> T, x: T, k: nat, m: nat)
    requires k <= m && step(Iterate(step, x, k)) == Iterate(step, x, k)
    ensures Iterate(step, x, m) == Iterate(step, x, k)
    decreases m
  {
    if k < m {
      FixpointStays(step, x, k, m - 1);
    }
  }

  lemma {:induction false} IterateKeeps<T>(step: T -> T, x: T, k: nat, m: nat, keeps: (T, T) -> bool)
    requires k <= m && (forall y :: keeps(y, y)) && (forall y, z :: keeps(y, z) ==> keeps(y, step(z)))
    ensures keeps(Iterate(step, x, k), Iterate(step, x, m))
    decreases m
  {
    if k < m {
      IterateKeeps(step, x, k, m - 1, keeps);
    }
  }

  /** The relation after `k` passes of the transitive rule. */
  ghost function Passes(edges: set<Pair>, k: nat): set<Pair> {
    Iterate(Pass, edges, k)
  }

  ghost function Pow2(k: nat): nat {
    if k == 0 then 1 else 2 * Pow2(k - 1)
  }

  ghost predicate ReachesWithin(edges: set<Pair>, a: nat, b: nat, m: nat) {
    exists n :: 1 <= n <= m && Hops(edges, a, b, n)
  }

  ghost predicate HoldsWithin(edges: set<Pair>, relation: set<Pair>, m: nat) {
    forall p: Pair :: p in relation <==> ReachesWithin(edges, p.0, p.1, m)
  }

  /** One pass doubles the covered distance. */
  lemma PassDoubles(edges: set<Pair>, relation: set<Pair>, m: nat)
    requires HoldsWithin(edges, relation, m) && m >= 1
    ensures HoldsWithin(edges, Pass(relation), 2 * m)
  {
    forall p: Pair
      ensures p in Pass(relation) <==> ReachesWithin(edges, p.0, p.1, 2 * m)
    {
      if Via(relation, p.0, p.1) {
        var x: nat :| (p.0, x) in relation && (x, p.1) in relation;
        assert ReachesWithin(edges, p.0, x, m) && ReachesWithin(edges, x, p.1, m);
        var i :| 1 <= i <= m && Hops(edges, p.0, x, i);
        var j :| 1 <= j <= m && Hops(edges, x, p.1, j);
        HopsConcat(edges, p.0, x, p.1, i, j);
      }
      if ReachesWithin(edges, p.0, p.1, 2 * m) && p !in relation {
        var n :| 1 <= n <= 2 * m && Hops(edges, p.0, p.1, n);
        assert n > m;
        var x := HopsSplit(edges, p.0, p.1, m, n - m);
        assert ReachesWithin(edges, p.0, x, m) && ReachesWithin(edges, x, p.1, m);
        assert (p.0, x) in relation && (x, p.1) in relation;
      }
    }
  }

  /** After `k` passes the relation is exactly the walks of 1 to 2^k edges. */
  lemma {:induction false} PassesCover(edges: set<Pair>, k: nat)
    ensures HoldsWithin(edges, Passes(edges, k), Pow2(k)) && Pow2(k) >= 1
  {
    if k == 0 {
      forall p: Pair
        ensures p in edges <==> ReachesWithin(edges, p.0, p.1, 1)
      {
        HopsOne(edges, p.0, p.1);
      }
    } else {
      PassesCover(edges, k - 1);
      PassDoubles(edges, Passes(edges, k - 1), Pow2(k - 1));
    }
  }

  lemma {:induction false} ClosedHoldsWalks(edges: set<Pair>, relation: set<Pair>, m: nat, a: nat, b: nat, n: nat)
    requires HoldsWithin(edges, relation, m) && m >= 1 && Pass(relation) == relation
    requires n >= 1 && Hops(edges, a, b, n)
    ensures (a, b) in relation
    decreases n
  {
    if n == 1 {
      assert ReachesWithin(edges, a, b, m);
    } else {
      var x := HopsSplit(edges, a, b, n - 1, 1);
      ClosedHoldsWalks(edges, relation, m, a, x, n - 1);
      ClosedHoldsWalks(edges, relation, m, x, b, 1);
      assert Via(relation, a, b);
    }
  }

  ghost predicate IsTransitiveClosure(edges: set<Pair>, relation: set<Pair>) {
    forall p: Pair :: p in relation <==> Reaches(edges, p.0, p.1)
  }

  /** A pass that adds nothing leaves exactly the transitive closure. */
  lemma QuietPassMeansClosure(edges: set<Pair>, k: nat)
    requires Pass(Passes(edges, k)) == Passes(edges, k)
    ensures IsTransitiveClosure(edges, Passes(edges, k))
  {
    PassesCover(edges, k);
    var relation := Passes(edges, k);
    forall p: Pair
      ensures p in relation <==> Reaches(edges, p.0, p.1)
    {
      if p in relation {
        assert ReachesWithin(edges, p.0, p.1, Pow2(k));
      }
      if Reaches(edges, p.0, p.1) {
        var n: nat :| n >= 1 && Hops(edges, p.0, p.1, n);
        ClosedHoldsWalks(edges, relation, Pow2(k), p.0, p.1, n);
      }
    }
  }

  /** The pass cap is complete for every relation whose distances fit under 2^cap. */
  lemma CapIsComplete(edges: set<Pair>, k: nat)
    requires forall a, b :: Reaches(edges, a, b) ==> ReachesWithin(edges, a, b, Pow2(k))
    ensures IsTransitiveClosure(edges, Passes(edges, k))
  {
    PassesCover(edges, k);
    forall p: Pair
      ensures ReachesWithin(edges, p.0, p.1, Pow2(k)) <==> Reaches(edges, p.0, p.1)
    {
    }
  }

  lemma QuietPassesStay(edges: set<Pair>, k: nat, m: nat)
    requires k <= m && Pass(Passes(edges, k)) == Passes(edges, k)
    ensures Passes(edges, m) == Passes(edges, k)
  {
    FixpointStays(Pass, edges, k, m);
  }

  lemma PassesGrow(edges: set<Pair>, k: nat, m: nat)
    requires k <= m
    ensures Passes(edges, k) <= Passes(edges, m)
  {
    IterateKeeps(Pass, edges, k, m, (y: set<Pair>, z: set<Pair>) => y <= z);
  }

  // ---------------------------------------------------------------- symmetry

  ghost predicate Symmetric(relation: set<Pair>) {
    forall a: nat, b: nat :: (a, b) in relation ==> (b, a) in relation
  }

  ghost function Converse(relation: set<Pair>): set<Pair> {
    set p | p in relation :: (p.1, p.0)
  }

  lemma ConverseMakesSymmetric(relation: set<Pair>)
    ensures Symmetric(relation + Converse(relation))
  {
    forall a: nat, b: nat | (a, b) in relation + Converse(relation)
      ensures (b, a) in relation + Converse(relation)
    {
      if (a, b) in relation {
        assert (b, a) in Converse(relation);
      }
    }
  }

  lemma PassKeepsSymmetry(relation: set<Pair>)
    requires Symmetric(relation)
    ensures Symmetric(Pass(relation))
  {
    forall a: nat, c: nat | (a, c) in Pass(relation)
      ensures (c, a) in Pass(relation)
    {
      if Via(relation, a, c) {
        var b: nat :| (a, b) in relation && (b, c) in relation;
        assert (c, b) in relation && (b, a) in relation;
        assert Via(relation, c, a);
      }
    }
  }

  /** Symmetry survives every later transitive pass. */
  lemma {:induction false} PassesKeepSymmetry(edges: set<Pair>, k: nat)
    requires Symmetric(edges)
    ensures Symmetric(Passes(edges, k))
  {
    if k > 0 {
      PassesKeepSymmetry(edges, k - 1);
      PassKeepsSymmetry(Passes(edges, k - 1));
      assert Passes(edges, k) == Pass(Passes(edges, k - 1));
    }
  }
}
