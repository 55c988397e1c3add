/** Sums of multisets over sequences: the algebra of nested loops with multiplicities. */
module Bags {
  import opened Seqs

  /** The multiset a loop over `xs` emits when each `x` emits `f(x)`. */
  ghost function Each<A, B>(xs: seq<A>, f: A -> multiset<B>): multiset<B> {
    if xs == [] then multiset{} else Each(xs[..|xs| - 1], f) + f(xs[|xs| - 1])
  }

  lemma {:induction false} EachSame<A, B>(xs: seq<A>, f: A -> multiset<B>, g: A -> multiset<B>)
    requires forall i :: 0 <= i < |xs| ==> f(xs[i]) == g(xs[i])
    ensures Each(xs, f) == Each(xs, g)
  {
    if xs != [] {
      EachSame(xs[..|xs| - 1], f, g);
    }
  }

  lemma {:induction false} EachNothing<A, B>(xs: seq<A>, f: A -> multiset<B>)
    requires forall i :: 0 <= i < |xs| ==> f(xs[i]) == multiset{}
    ensures Each(xs, f) == multiset{}
  {
    if xs != [] {
      EachNothing(xs[..|xs| - 1], f);
    }
  }

  lemma {:induction false} EachPlus<A, B>(xs: seq<A>, f: A -> multiset<B>, g: A -> multiset<B>, h: A -> multiset<B>)
    requires forall i :: 0 <= i < |xs| ==> h(xs[i]) == f(xs[i]) + g(xs[i])
    ensures Each(xs, h) == Each(xs, f) + Each(xs, g)
  {
    if xs != [] {
      EachPlus(xs[..|xs| - 1], f, g, h);
    }
  }

  /** Two nested loops may be exchanged. */
  lemma {:induction false} EachSwap<A, B, C>(xs: seq<A>, ys: seq<B>, h: (A, B) -> multiset<C>)
    ensures Each(xs, x => Each(ys, y => h(x, y))) == Each(ys, y => Each(xs, x => h(x, y)))
    decreases |xs|
  {
    if xs == [] {
      EachNothing(ys, y => Each(xs, x => h(x, y)));
    } else {
      var init, last := xs[..|xs| - 1], xs[|xs| - 1];
      EachSwap(init, ys, h);
      EachPlus(ys, y => Each(init, x => h(x, y)), y => h(last, y), y => Each(xs, x => h(x, y)));
    }
  }

  ghost function Along<A, B, C>(ys: seq<B>, h: (A, B) -> multiset<C>, x: A): multiset<C> {
    Each(ys, y => h(x, y))
  }

  ghost function Across<A, B, C>(xs: seq<A>, h: (A, B) -> multiset<C>, y: B): multiset<C> {
    Each(xs, x => h(x, y))
  }

  lemma AlongIs<A, B, C>(ys: seq<B>, h: (A, B) -> multiset<C>, x: A, f: B -> multiset<C>)
    requires forall j :: 0 <= j < |ys| ==> f(ys[j]) == h(x, ys[j])
    ensures Along(ys, h, x) == Each(ys, f)
  {
    EachSame(ys, f, y => h(x, y));
  }

  lemma AcrossIs<A, B, C>(xs: seq<A>, h: (A, B) -> multiset<C>, y: B, f: A -> multiset<C>)
    requires forall i :: 0 <= i < |xs| ==> f(xs[i]) == h(xs[i], y)
    ensures Across(xs, h, y) == Each(xs, f)
  {
    EachSame(xs, f, x => h(x, y));
  }

  /** Exchange of two loops whose inner loops are given by name. */
  lemma EachSwapAs<A, B, C>(xs: seq<A>, ys: seq<B>, h: (A, B) -> multiset<C>, f: A -> multiset<C>, g: B -> multiset<C>)
    requires forall i :: 0 <= i < |xs| ==> f(xs[i]) == Along(ys, h, xs[i])
    requires forall j :: 0 <= j < |ys| ==> g(ys[j]) == Across(xs, h, ys[j])
    ensures Each(xs, f) == Each(ys, g)
  {
    EachSwap(xs, ys, h);
    EachSame(xs, f, x => Each(ys, y => h(x, y)));
    EachSame(ys, g, y => Each(xs, x => h(x, y)));
  }

  ghost function Loops<X, Y, B>(xs: seq<X>, ys: seq<Y>, k: (X, Y) -> multiset<B>): multiset<B> {
    Each(xs, x => Each(ys, y => k(x, y)))
  }

  /** A double loop is known from what it emits per outer element. */
  lemma LoopsAre<X, Y, B>(xs: seq<X>, ys: seq<Y>, k: (X, Y) -> multiset<B>, f: X -> multiset<B>)
    requires forall i :: 0 <= i < |xs| ==> f(xs[i]) == Along(ys, k, xs[i])
    ensures Each(xs, f) == Loops(xs, ys, k)
  {
    EachSame(xs, f, x => Each(ys, y => k(x, y)));
  }

  /** The two inner loops below a fixed outermost element. */
  ghost function Inner<X, Y, Z, B>(ys: seq<Y>, zs: seq<Z>, h: (X, Y, Z) -> multiset<B>, x: X): multiset<B> {
    Each(ys, y => Each(zs, z => h(x, y, z)))
  }

  /** The two outer loops around a fixed innermost element, middle loop first. */
  ghost function Outer<X, Y, Z, B>(ys: seq<Y>, xs: seq<X>, h: (X, Y, Z) -> multiset<B>, z: Z): multiset<B> {
    Each(ys, y => Each(xs, x => h(x, y, z)))
  }

  lemma InnerIs<X, Y, Z, B>(ys: seq<Y>, zs: seq<Z>, h: (X, Y, Z) -> multiset<B>, x: X, k: (Y, Z) -> multiset<B>)
    requires forall i, j :: 0 <= i < |ys| && 0 <= j < |zs| ==> k(ys[i], zs[j]) == h(x, ys[i], zs[j])
    ensures Loops(ys, zs, k) == Inner(ys, zs, h, x)
  {
    var f, g := (y: Y) => Each(zs, z => k(y, z)), (y: Y) => Each(zs, z => h(x, y, z));
    forall i | 0 <= i < |ys|
      ensures f(ys[i]) == g(ys[i])
    {
      EachSame(zs, z => k(ys[i], z), z => h(x, ys[i], z));
    }
    EachSame(ys, f, g);
  }

  ghost function Tip<X, Y, Z, B>(xs: seq<X>, h: (X, Y, Z) -> multiset<B>, y: Y, z: Z): multiset<B> {
    Each(xs, x => h(x, y, z))
  }

  lemma TipIs<X, Y, Z, B>(xs: seq<X>, h: (X, Y, Z) -> multiset<B>, y: Y, z: Z, f: X -> multiset<B>)
    requires forall i :: 0 <= i < |xs| ==> f(xs[i]) == h(xs[i], y, z)
    ensures Tip(xs, h, y, z) == Each(xs, f)
  {
    EachSame(xs, f, x => h(x, y, z));
  }

  lemma OuterIs<X, Y, Z, B>(ys: seq<Y>, xs: seq<X>, h: (X, Y, Z) -> multiset<B>, z: Z, f: Y -> multiset<B>)
    requires forall j :: 0 <= j < |ys| ==> f(ys[j]) == Tip(xs, h, ys[j], z)
    ensures Outer(ys, xs, h, z) == Each(ys, f)
  {
    EachSame(ys, f, y => Each(xs, x => h(x, y, z)));
  }

  /** Three nested loops turned inside out. */
  lemma EachRotate<X, Y, Z, B>(xs: seq<X>, ys: seq<Y>, zs: seq<Z>, h: (X, Y, Z) -> multiset<B>,
                               f: X -> multiset<B>, g: Z -> multiset<B>)
    requires forall i :: 0 <= i < |xs| ==> f(xs[i]) == Inner(ys, zs, h, xs[i])
    requires forall k :: 0 <= k < |zs| ==> g(zs[k]) == Outer(ys, xs, h, zs[k])
    ensures Each(xs, f) == Each(zs, g)
  {
    var H := (x: X, y: Y) => Each(zs, z => h(x, y, z));
    var K := (y: Y, z: Z) => Each(xs, x => h(x, y, z));
    var mid := (y: Y) => Across(xs, H, y);
    forall i | 0 <= i < |xs|
      ensures f(xs[i]) == Along(ys, H, xs[i])
    {
      AlongIs(ys, H, xs[i], y => Each(zs, z => h(xs[i], y, z)));
    }
    EachSwapAs(xs, ys, H, f, mid);
    forall j | 0 <= j < |ys|
      ensures mid(ys[j]) == Along(zs, K, ys[j])
    {
      var y := ys[j];
      var hy := (x: X, z: Z) => h(x, y, z);
      var byX, byZ := (x: X) => H(x, y), (z: Z) => K(y, z);
      forall i | 0 <= i < |xs|
        ensures byX(xs[i]) == Along(zs, hy, xs[i])
      {
        AlongIs(zs, hy, xs[i], z => h(xs[i], y, z));
      }
      forall k | 0 <= k < |zs|
        ensures byZ(zs[k]) == Across(xs, hy, zs[k])
      {
        AcrossIs(xs, hy, zs[k], x => h(x, y, zs[k]));
      }
      EachSwapAs(xs, zs, hy, byX, byZ);
    }
    forall k | 0 <= k < |zs|
      ensures g(zs[k]) == Across(ys, K, zs[k])
    {
      AcrossIs(ys, K, zs[k], y => Each(xs, x => h(x, y, zs[k])));
    }
    EachSwapAs(ys, zs, K, mid, g);
  }

  lemma {:induction false} EachConcat<A, B>(xs: seq<A>, ys: seq<A>, f: A -> multiset<B>)
    ensures Each(xs + ys, f) == Each(xs, f) + Each(ys, f)
  {
    if ys == [] {
      assert xs + ys == xs;
    } else {
      EachConcat(xs, ys[..|ys| - 1], f);
      assert (xs + ys)[..|xs + ys| - 1] == xs + ys[..|ys| - 1];
    }
  }

  lemma {:induction false} InEach<A, B>(xs: seq<A>, f: A -> multiset<B>, x: B)
    ensures x in Each(xs, f) <==> exists i :: 0 <= i < |xs| && x in f(xs[i])
  {
    if xs != [] {
      var n := |xs| - 1;
      InEach(xs[..n], f, x);
      assert forall i :: 0 <= i < n ==> xs[..n][i] == xs[i];
    }
  }

  lemma EachSnoc<A, B>(xs: seq<A>, x: A, f: A -> multiset<B>)
    ensures Each(xs + [x], f) == Each(xs, f) + f(x)
  {
    assert (xs + [x])[..|xs|] == xs;
  }

  /** Emitting through a relabelling of the positions. */
  lemma {:induction false} EachMapped<A, A', B>(xs: seq<A>, ys: seq<A'>, f: A -> multiset<B>, g: A' -> multiset<B>)
    requires |xs| == |ys| && forall i :: 0 <= i < |xs| ==> f(xs[i]) == g(ys[i])
    ensures Each(xs, f) == Each(ys, g)
  {
    if xs != [] {
      EachMapped(xs[..|xs| - 1], ys[..|xs| - 1], f, g);
    }
  }

  // ---------------------------------------------------------------- loops that emit at least as much

  lemma SumsAgree<B>(a: multiset<B>, a': multiset<B>, b: multiset<B>, b': multiset<B>)
    requires a' <= a && b' <= b
    ensures a' + b' <= a + b
    ensures a + b == a' + b' <==> a == a' && b == b'
  {
    if a + b == a' + b' {
      forall x
        ensures a[x] == a'[x] && b[x] == b'[x]
      {
        assert (a + b)[x] == (a' + b')[x] && a'[x] <= a[x] && b'[x] <= b[x];
      }
    }
  }

  /** If every turn of a loop emits at least as much as another's, the totals agree only where all turns do. */
  lemma {:induction false} EachDominates<A, B>(xs: seq<A>, f: A -> multiset<B>, g: A -> multiset<B>)
    requires forall i :: 0 <= i < |xs| ==> g(xs[i]) <= f(xs[i])
    ensures Each(xs, g) <= Each(xs, f)
    ensures Each(xs, f) == Each(xs, g) <==> forall i :: 0 <= i < |xs| ==> f(xs[i]) == g(xs[i])
  {
    if xs != [] {
      var n := |xs| - 1;
      var init := xs[..n];
      EachDominates(init, f, g);
      SumsAgree(Each(init, f), Each(init, g), f(xs[n]), g(xs[n]));
      assert (forall i :: 0 <= i < |init| ==> f(init[i]) == g(init[i]))
          <==> forall i :: 0 <= i < n ==> f(xs[i]) == g(xs[i]) by {
        assert forall i :: 0 <= i < n ==> init[i] == xs[i];
      }
    }
  }

  lemma {:induction false} EachEmpty<A, B>(xs: seq<A>, f: A -> multiset<B>)
    ensures Each(xs, f) == multiset{} <==> forall i :: 0 <= i < |xs| ==> f(xs[i]) == multiset{}
  {
    if xs != [] {
      var n := |xs| - 1;
      EachEmpty(xs[..n], f);
      SumsAgree(Each(xs[..n], f), multiset{}, f(xs[n]), multiset{});
      assert forall i :: 0 <= i < n ==> xs[..n][i] == xs[i];
    }
  }
}
