/** Sequence operations in the style of the array library the engine is written against. */
module Seqs {
  import opened Walks

  predicate AllBelow(s: seq<nat>, n: int) {
    forall i :: 0 <= i < |s| ==> s[i] < n
  }

  /** `a[idx]` for an index array. */
  function Gather<T>(a: seq<T>, idx: seq<nat>): (r: seq<T>)
    requires AllBelow(idx, |a|)
    ensures |r| == |idx| && forall i :: 0 <= i < |idx| ==> r[i] == a[idx[i]]
  {
    seq(|idx|, i requires 0 <= i < |idx| => a[idx[i]])
  }

  function Zip<A, B>(a: seq<A>, b: seq<B>): (r: seq<(A, B)>)
    requires |a| == |b|
    ensures |r| == |a| && forall i :: 0 <= i < |a| ==> r[i] == (a[i], b[i])
  {
    seq(|a|, i requires 0 <= i < |a| => (a[i], b[i]))
  }

  function Flatten<T>(ss: seq<seq<T>>): seq<T> {
    if ss == [] then [] else Flatten(ss[..|ss| - 1]) + ss[|ss| - 1]
  }

  lemma {:induction false} FlattenConcat<T>(a: seq<seq<T>>, b: seq<seq<T>>)
    ensures Flatten(a + b) == Flatten(a) + Flatten(b)
  {
    if b == [] {
      assert a + b == a;
    } else {
      FlattenConcat(a, b[..|b| - 1]);
      assert (a + b)[..|a + b| - 1] == a + b[..|b| - 1];
    }
  }

  lemma {:induction false} InFlatten<T>(ss: seq<seq<T>>, x: T)
    ensures x in Flatten(ss) <==> exists i :: 0 <= i < |ss| && x in ss[i]
  {
    if ss != [] {
      InFlatten(ss[..|ss| - 1], x);
      assert forall i :: 0 <= i < |ss| - 1 ==> ss[..|ss| - 1][i] == ss[i];
    }
  }

  lemma {:induction false} FlattenBelow(ss: seq<seq<nat>>, n: nat)
    requires forall v :: 0 <= v < |ss| ==> AllBelow(ss[v], n)
    ensures AllBelow(Flatten(ss), n)
  {
    if ss != [] {
      FlattenBelow(ss[..|ss| - 1], n);
    }
  }

  /** The blocks of a flattened sequence sit between the lengths of its flattened prefixes. */
  lemma {:induction false} FlattenBlock<T>(ss: seq<seq<T>>, v: nat)
    requires v < |ss|
    ensures |Flatten(ss[..v])| + |ss[v]| == |Flatten(ss[..v + 1])| <= |Flatten(ss)|
    ensures Flatten(ss)[|Flatten(ss[..v])|..|Flatten(ss[..v + 1])|] == ss[v]
  {
    assert ss[..v + 1][..v] == ss[..v];
    var rest := ss[v + 1..];
    assert ss == ss[..v + 1] + rest;
    FlattenConcat(ss[..v + 1], rest);
  }

  lemma FlattenGrows<T>(ss: seq<seq<T>>, i: nat, j: nat)
    requires i <= j <= |ss|
    ensures |Flatten(ss[..i])| <= |Flatten(ss[..j])|
  {
    assert ss[..j] == ss[..i] + ss[i..j];
    FlattenConcat(ss[..i], ss[i..j]);
  }

  /** Sorted blocks, each wholly before the next, flatten to a sorted sequence. */
  lemma {:induction false} FlattenSorted<T>(less: (T, T) -> bool, ss: seq<seq<T>>)
    requires forall v :: 0 <= v < |ss| ==> SortedStrictly(less, ss[v])
    requires forall u, v, x, y :: 0 <= u < v < |ss| && x in ss[u] && y in ss[v] ==> less(x, y)
    ensures SortedStrictly(less, Flatten(ss))
  {
    if ss != [] {
      var n := |ss| - 1;
      var front := Flatten(ss[..n]);
      FlattenSorted(less, ss[..n]);
      forall x, y | x in front && y in ss[n]
        ensures less(x, y)
      {
        InFlatten(ss[..n], x);
      }
    }
  }

  lemma {:induction false} GatherFlatten<T>(values: seq<T>, ss: seq<seq<nat>>, tt: seq<seq<T>>)
    requires forall v :: 0 <= v < |ss| ==> AllBelow(ss[v], |values|)
    requires |tt| == |ss| && forall v :: 0 <= v < |ss| ==> tt[v] == Gather(values, ss[v])
    ensures AllBelow(Flatten(ss), |values|)
    ensures Gather(values, Flatten(ss)) == Flatten(tt)
  {
    FlattenBelow(ss, |values|);
    if ss != [] {
      GatherFlatten(values, ss[..|ss| - 1], tt[..|ss| - 1]);
    }
  }

  function Fill<T>(x: T, count: nat): (r: seq<T>)
    ensures |r| == count && forall i :: 0 <= i < count ==> r[i] == x
  {
    seq(count, _ => x)
  }

  /** `np.repeat(a, lens)`. */
  function Repeat<T>(a: seq<T>, lens: seq<nat>): seq<T>
    requires |a| == |lens|
  {
    if a == [] then [] else Repeat(a[..|a| - 1], lens[..|a| - 1]) + Fill(a[|a| - 1], lens[|a| - 1])
  }

  function Sum(lens: seq<nat>): nat {
    if lens == [] then 0 else Sum(lens[..|lens| - 1]) + lens[|lens| - 1]
  }

  /** `np.concatenate(([0], np.cumsum(lens[:-1])))`: the start of each block. */
  function BlockStarts(lens: seq<nat>): (r: seq<nat>)
    ensures |r| == |lens|
  {
    if lens == [] then [] else BlockStarts(lens[..|lens| - 1]) + [Sum(lens[..|lens| - 1])]
  }

  function Range(lo: nat, hi: nat): (r: seq<nat>)
    requires lo <= hi
    ensures |r| == hi - lo && forall i :: 0 <= i < |r| ==> r[i] == lo + i
  {
    seq(hi - lo, i requires 0 <= i => lo + i)
  }

  lemma {:induction false} RepeatLength<T>(a: seq<T>, lens: seq<nat>)
    requires |a| == |lens|
    ensures |Repeat(a, lens)| == Sum(lens)
  {
    if a != [] {
      RepeatLength(a[..|a| - 1], lens[..|a| - 1]);
    }
  }

  /** Dropping later repeats, keeping first occurrences (`dict.fromkeys`). */
  function Dedup<T(==,!new)>(s: seq<T>): (r: seq<T>)
    ensures Distinct(r)
    ensures forall x :: x in r <==> x in s
  {
    if s == [] then []
    else
      var rest := Dedup(s[..|s| - 1]);
      if s[|s| - 1] in rest then rest else rest + [s[|s| - 1]]
  }

  ghost predicate TotalOrder<T(!new)>(less: (T, T) -> bool) {
    && (forall x :: !less(x, x))
    && (forall x, y, z :: less(x, y) && less(y, z) ==> less(x, z))
    && (forall x, y :: less(x, y) || x == y || less(y, x))
  }

  ghost predicate SortedStrictly<T>(less: (T, T) -> bool, s: seq<T>) {
    forall i, j :: 0 <= i < j < |s| ==> less(s[i], s[j])
  }

  /** A strictly sorted listing is determined by its elements. */
  lemma {:induction false} SortedUnique<T(!new)>(less: (T, T) -> bool, s: seq<T>, t: seq<T>)
    requires TotalOrder(less) && SortedStrictly(less, s) && SortedStrictly(less, t)
    requires forall x :: x in s <==> x in t
    ensures s == t
    decreases |s|
  {
    assert s == [] <==> t == [] by {
      assert s != [] ==> s[0] in t;
      assert t != [] ==> t[0] in s;
    }
    if s != [] {
      assert s[0] in t;
      assert t[0] in s;
      assert s[0] == t[0];
      forall x
        ensures x in s[1..] <==> x in t[1..]
      {
        assert x in s <==> x == s[0] || x in s[1..];
        assert x in t <==> x == t[0] || x in t[1..];
      }
      SortedUnique(less, s[1..], t[1..]);
    }
  }

  lemma TimesGrows(a: nat, b: nat, n: nat)
    requires a <= b
    ensures a * n <= b * n
  {
    assert b * n == a * n + (b - a) * n;
  }
}
