/** The CSR and CSC builders (graph/csr_builder.py, graph/csc_builder.py). */
module CsrBuilder {
  import opened Results
  import opened Seqs
  import opened Walks

  // An edge table is three aligned columns `src`, `dst`, `eid`. The builder sorts the table stably by source
  // and cuts it into one slice per vertex.

  datatype Csr = Csr(offsets: seq<nat>, neighbors: seq<nat>, eids: Option<seq<nat>>)

  // ---------------------------------------------------------------- reference meaning

  /** The values attached to the edges that leave `v`, in table order. */
  function Outgoing<T>(src: seq<nat>, values: seq<T>, v: nat): seq<T>
    requires |src| == |values|
  {
    if src == [] then []
    else
      var n := |src| - 1;
      Outgoing(src[..n], values[..n], v) + if src[n] == v then [values[n]] else []
  }

  /** How many table rows carry the key `u` in one column and the value `x` in the other. */
  function Multiplicity<T(==)>(src: seq<nat>, values: seq<T>, u: nat, x: T): nat
    requires |src| == |values|
  {
    if src == [] then 0
    else
      var n := |src| - 1;
      Multiplicity(src[..n], values[..n], u, x) + if src[n] == u && values[n] == x then 1 else 0
  }

  // ---------------------------------------------------------------- the builder

  function Positions(src: seq<nat>, v: nat): (r: seq<nat>)
    ensures AllBelow(r, |src|)
  {
    if src == [] then []
    else
      var n := |src| - 1;
      Positions(src[..n], v) + if src[n] == v then [n] else []
  }

  lemma {:induction false} PositionsAscending(src: seq<nat>, v: nat)
    ensures forall i, j :: 0 <= i < j < |Positions(src, v)| ==> Positions(src, v)[i] < Positions(src, v)[j]
    ensures forall k: nat :: k in Positions(src, v) <==> k < |src| && src[k] == v
  {
    if src != [] {
      var n := |src| - 1;
      PositionsAscending(src[..n], v);
      forall k: nat | k < |src| && src[k] == v
        ensures k in Positions(src, v)
      {
        if k < n {
          assert src[..n][k] == v;
        }
      }
    }
  }

  function Buckets(src: seq<nat>, n: nat): (r: seq<seq<nat>>)
    ensures |r| == n && forall v :: 0 <= v < n ==> r[v] == Positions(src, v)
  {
    seq(n, v requires 0 <= v => Positions(src, v))
  }

  /** `np.argsort(src, kind="stable")` for keys below `n`, as a counting sort. */
  function StableOrder(src: seq<nat>, n: nat): (r: seq<nat>)
    ensures AllBelow(r, |src|)
  {
    FlattenBelow(Buckets(src, n), |src|);
    Flatten(Buckets(src, n))
  }

  ghost predicate Before(src: seq<nat>, i: nat, j: nat) {
    i < |src| && j < |src| && (src[i] < src[j] || (src[i] == src[j] && i < j))
  }

  /** What a stable argsort is: every row once, by key, ties in table order. */
  ghost predicate IsStableArgsort(src: seq<nat>, order: seq<nat>) {
    && (forall k: nat :: k in order <==> k < |src|)
    && (forall i, j :: 0 <= i < j < |order| ==> Before(src, order[i], order[j]))
  }

  /** Before, extended to a total order. */
  ghost function StableLess(src: seq<nat>): (nat, nat) -> bool {
    (i: nat, j: nat) =>
      if i < |src| && j < |src| then src[i] < src[j] || (src[i] == src[j] && i < j)
      else i < |src| || (j >= |src| && i < j)
  }

  lemma StableLessIsBefore(src: seq<nat>, i: nat, j: nat)
    requires i < |src| && j < |src|
    ensures StableLess(src)(i, j) <==> Before(src, i, j)
  {
  }

  lemma StableLessTotal(src: seq<nat>)
    ensures TotalOrder(StableLess(src))
  {
  }

  lemma BucketsSorted(src: seq<nat>, n: nat)
    requires AllBelow(src, n)
    ensures SortedStrictly(StableLess(src), Flatten(Buckets(src, n)))
  {
    var less, buckets := StableLess(src), Buckets(src, n);
    forall v: nat | v < n
      ensures SortedStrictly(less, buckets[v])
    {
      PositionsAscending(src, v);
    }
    forall u, v, x, y | 0 <= u < v < n && x in buckets[u] && y in buckets[v]
      ensures less(x, y)
    {
      PositionsAscending(src, u);
      PositionsAscending(src, v);
    }
    FlattenSorted(less, buckets);
  }

  lemma BucketsHoldAll(src: seq<nat>, n: nat, k: nat)
    requires AllBelow(src, n)
    ensures k in Flatten(Buckets(src, n)) <==> k < |src|
  {
    var buckets := Buckets(src, n);
    InFlatten(buckets, k);
    if k < |src| {
      PositionsAscending(src, src[k]);
      assert k in buckets[src[k]];
    } else if k in Flatten(buckets) {
      var v :| 0 <= v < |buckets| && k in buckets[v];
      PositionsAscending(src, v);
    }
  }

  lemma SortedIsStable(src: seq<nat>, order: seq<nat>)
    requires forall k: nat :: k in order <==> k < |src|
    ensures SortedStrictly(StableLess(src), order)
      <==> forall i, j :: 0 <= i < j < |order| ==> Before(src, order[i], order[j])
  {
    forall i, j | 0 <= i < j < |order|
      ensures StableLess(src)(order[i], order[j]) <==> Before(src, order[i], order[j])
    {
      assert order[i] in order && order[j] in order;
      StableLessIsBefore(src, order[i], order[j]);
    }
  }

  /** The counting sort is the stable argsort, the only one there is. */
  lemma StableOrderIsArgsort(src: seq<nat>, n: nat, order: seq<nat>)
    requires AllBelow(src, n)
    ensures IsStableArgsort(src, order) <==> order == StableOrder(src, n)
  {
    var best := StableOrder(src, n);
    BucketsSorted(src, n);
    forall k: nat
      ensures k in best <==> k < |src|
    {
      BucketsHoldAll(src, n, k);
    }
    SortedIsStable(src, best);
    if IsStableArgsort(src, order) {
      SortedIsStable(src, order);
      StableLessTotal(src);
      SortedUnique(StableLess(src), order, best);
    }
  }

  function Count(keys: seq<nat>, v: nat): nat {
    if keys == [] then 0 else Count(keys[..|keys| - 1], v) + if keys[|keys| - 1] == v then 1 else 0
  }

  lemma {:induction false} CountConcat(a: seq<nat>, b: seq<nat>, v: nat)
    ensures Count(a + b, v) == Count(a, v) + Count(b, v)
  {
    if b == [] {
      assert a + b == a;
    } else {
      CountConcat(a, b[..|b| - 1], v);
      assert (a + b)[..|a + b| - 1] == a + b[..|b| - 1];
    }
  }

  function Bincount(keys: seq<nat>, n: nat): (r: seq<nat>)
    ensures |r| == n && forall v :: 0 <= v < n ==> r[v] == Count(keys, v)
  {
    seq(n, v requires 0 <= v => Count(keys, v))
  }

  lemma {:induction false} FlattenKeyCount(ss: seq<seq<nat>>, v: nat)
    requires forall u :: 0 <= u < |ss| ==> AllEqual(ss[u], u)
    ensures Count(Flatten(ss), v) == if v < |ss| then |ss[v]| else 0
  {
    if ss != [] {
      var n := |ss| - 1;
      FlattenKeyCount(ss[..n], v);
      AllEqualCount(ss[n], n, v);
      CountConcat(Flatten(ss[..n]), ss[n], v);
    }
  }

  /** The sorted column of `values`, bucket by bucket. */
  function SortedBuckets<T>(src: seq<nat>, values: seq<T>, n: nat): (r: seq<seq<T>>)
    requires |src| == |values|
    ensures |r| == n && forall v :: 0 <= v < n ==> r[v] == Outgoing(src, values, v)
  {
    seq(n, v requires 0 <= v => Outgoing(src, values, v))
  }

  lemma SortedColumn<T>(src: seq<nat>, values: seq<T>, n: nat)
    requires |src| == |values|
    ensures Gather(values, StableOrder(src, n)) == Flatten(SortedBuckets(src, values, n))
  {
    var buckets, columns := Buckets(src, n), SortedBuckets(src, values, n);
    forall v | 0 <= v < n
      ensures columns[v] == Gather(values, buckets[v])
    {
      PositionsGather(src, values, v);
    }
    GatherFlatten(values, buckets, columns);
  }

  lemma KeyCount(src: seq<nat>, n: nat, v: nat)
    requires v < n
    ensures Count(Gather(src, StableOrder(src, n)), v) == |Positions(src, v)|
  {
    var keys := SortedBuckets(src, src, n);
    var sorted := Gather(src, StableOrder(src, n));
    assert sorted == Flatten(keys) by {
      SortedColumn(src, src, n);
    }
    assert Count(sorted, v) == |keys[v]| by {
      forall u: nat | u < n
        ensures AllEqual(keys[u], u)
      {
        OwnKeys(src, u);
      }
      FlattenKeyCount(keys, v);
    }
    OwnKeys(src, v);
  }

  predicate AllEqual(s: seq<nat>, x: nat) {
    forall i :: 0 <= i < |s| ==> s[i] == x
  }

  lemma {:induction false} OwnKeys(src: seq<nat>, v: nat)
    ensures AllEqual(Outgoing(src, src, v), v) && |Outgoing(src, src, v)| == |Positions(src, v)|
  {
    if src != [] {
      OwnKeys(src[..|src| - 1], v);
    }
  }

  lemma {:induction false} AllEqualCount(s: seq<nat>, x: nat, v: nat)
    requires AllEqual(s, x)
    ensures Count(s, v) == if v == x then |s| else 0
  {
    if s != [] {
      AllEqualCount(s[..|s| - 1], x, v);
    }
  }

  lemma {:induction false} PositionsGather<T>(src: seq<nat>, values: seq<T>, v: nat)
    requires |src| == |values|
    ensures Gather(values, Positions(src, v)) == Outgoing(src, values, v)
  {
    if src != [] {
      var n := |src| - 1;
      PositionsGather(src[..n], values[..n], v);
      assert Gather(values[..n], Positions(src[..n], v)) == Gather(values, Positions(src[..n], v));
    }
  }

  /** The slice of `v` lists what leaves `v`, in table order, with aligned edge ids. */
  ghost predicate SliceMeans(csr: Csr, src: seq<nat>, dst: seq<nat>, eids: Option<seq<nat>>, v: nat)
    requires |src| == |dst| && (eids.Some? ==> |eids.value| == |src|)
  {
    && v + 1 < |csr.offsets|
    && csr.offsets[v] <= csr.offsets[v + 1] <= |csr.neighbors|
    && csr.neighbors[csr.offsets[v]..csr.offsets[v + 1]] == Outgoing(src, dst, v)
    && (eids.Some? ==>
          && csr.eids.Some? && |csr.eids.value| == |csr.neighbors|
          && csr.eids.value[csr.offsets[v]..csr.offsets[v + 1]] == Outgoing(src, eids.value, v))
  }

  /** The layout every reader relies on. */
  ghost predicate Represents(csr: Csr, src: seq<nat>, dst: seq<nat>, eids: Option<seq<nat>>, n: nat)
    requires |src| == |dst| && (eids.Some? ==> |eids.value| == |src|)
  {
    && |csr.offsets| == n + 1
    && csr.offsets[0] == 0
    && csr.offsets[n] == |src| == |csr.neighbors|
    && (forall i, j :: 0 <= i <= j <= n ==> csr.offsets[i] <= csr.offsets[j])
    && csr.eids.Some? == eids.Some?
    && (csr.eids.Some? ==> |csr.eids.value| == |csr.neighbors|)
    && forall v: nat :: v < n ==> SliceMeans(csr, src, dst, eids, v)
  }

  lemma {:induction false} OutgoingIsRow(src: seq<nat>, dst: seq<nat>, v: nat, w: nat)
    requires |src| == |dst|
    ensures w in Outgoing(src, dst, v) <==> exists k :: 0 <= k < |src| && src[k] == v && dst[k] == w
  {
    if src != [] {
      var n := |src| - 1;
      OutgoingIsRow(src[..n], dst[..n], v, w);
      forall k | 0 <= k < n && src[k] == v && dst[k] == w
        ensures w in Outgoing(src[..n], dst[..n], v)
      {
        assert src[..n][k] == v && dst[..n][k] == w;
      }
    }
  }

  /** How many keys are below `m`. */
  function CountBelow(keys: seq<nat>, m: nat): nat {
    if keys == [] then 0 else CountBelow(keys[..|keys| - 1], m) + if keys[|keys| - 1] < m then 1 else 0
  }

  lemma {:induction false} CountBelowNext(src: seq<nat>, dst: seq<nat>, m: nat)
    requires |src| == |dst|
    ensures CountBelow(src, m + 1) == CountBelow(src, m) + |Outgoing(src, dst, m)|
  {
    if src != [] {
      CountBelowNext(src[..|src| - 1], dst[..|src| - 1], m);
    }
  }

  lemma {:induction false} CountBelowAll(keys: seq<nat>, m: nat)
    ensures CountBelow(keys, m) <= |keys| && (CountBelow(keys, m) == |keys| ==> AllBelow(keys, m))
  {
    if keys != [] {
      CountBelowAll(keys[..|keys| - 1], m);
    }
  }

  lemma {:induction false} CountBelowZero(keys: seq<nat>)
    ensures CountBelow(keys, 0) == 0
  {
    if keys != [] {
      CountBelowZero(keys[..|keys| - 1]);
    }
  }

  lemma {:induction false} OffsetIsCountBelow(csr: Csr, src: seq<nat>, dst: seq<nat>, eids: Option<seq<nat>>, n: nat,
                                              m: nat)
    requires |src| == |dst| && (eids.Some? ==> |eids.value| == |src|) && Represents(csr, src, dst, eids, n) && m <= n
    ensures csr.offsets[m] == CountBelow(src, m)
  {
    if m == 0 {
      CountBelowZero(src);
    } else {
      OffsetIsCountBelow(csr, src, dst, eids, n, m - 1);
      CountBelowNext(src, dst, m - 1);
      assert SliceMeans(csr, src, dst, eids, m - 1);
    }
  }

  /** A layout that accounts for every row has no key outside its vertex space. */
  lemma LayoutBoundsKeys(csr: Csr, src: seq<nat>, dst: seq<nat>, eids: Option<seq<nat>>, n: nat)
    requires |src| == |dst| && (eids.Some? ==> |eids.value| == |src|) && Represents(csr, src, dst, eids, n)
    ensures AllBelow(src, n)
  {
    OffsetIsCountBelow(csr, src, dst, eids, n, n);
    CountBelowAll(src, n);
  }

  /** `build_csr_arrays`: offsets are filled in place by a running sum over the key counts. */
  method BuildCsrArrays(src: seq<nat>, dst: seq<nat>, eids: Option<seq<nat>>, n: int) returns (r: Result<Csr>)
    ensures r.Ok? <==>
            && |src| == |dst| && (eids.Some? ==> |eids.value| == |src|)
            && n >= 0 && AllBelow(src, n)
    ensures r.Ok? ==> Represents(r.value, src, dst, eids, n)
  {
    if |src| != |dst| {
      return Err("CDB-7082");
    }
    if eids.Some? && |eids.value| != |src| {
      return Err("CDB-7082");
    }
    if n < 0 {
      return Err("CDB-7082");
    }
    if i :| 0 <= i < |src| && src[i] >= n {
      return Err("CDB-7082");
    }
    var order := StableOrder(src, n);
    var counts := Bincount(Gather(src, order), n);
    OffsetsAreSums(src, counts, n);
    var offsets := FillOffsets(Offsets(src, n), counts, n);
    r := Ok(Csr(offsets[..], Gather(dst, order), if eids.Some? then Some(Gather(eids.value, order)) else None));
    LayoutIsRight(src, dst, eids, n, r.value);
  }

  /** The running sums of the counts, filled in from left to right. */
  method FillOffsets(ghost sums: seq<nat>, counts: seq<nat>, n: nat) returns (offsets: array<nat>)
    requires RunningSums(sums, counts) && |counts| == n
    ensures fresh(offsets) && offsets[..] == sums
  {
    offsets := new nat[n + 1](_ => 0);
    for v := 0 to n
      invariant forall i :: 0 <= i <= v ==> offsets[i] == sums[i]
    {
      offsets[v + 1] := offsets[v] + counts[v];
    }
  }

  ghost predicate RunningSums(sums: seq<nat>, counts: seq<nat>) {
    |sums| == |counts| + 1 && sums[0] == 0 && forall v :: 0 <= v < |counts| ==> sums[v + 1] == sums[v] + counts[v]
  }

  lemma OffsetsAreSums(src: seq<nat>, counts: seq<nat>, n: nat)
    requires counts == Bincount(Gather(src, StableOrder(src, n)), n)
    ensures RunningSums(Offsets(src, n), counts)
  {
    assert Buckets(src, n)[..0] == [];
    forall v | 0 <= v < n
      ensures Offsets(src, n)[v + 1] == Offsets(src, n)[v] + counts[v]
    {
      OffsetStep(src, counts, n, v);
    }
  }

  lemma OffsetStep(src: seq<nat>, counts: seq<nat>, n: nat, v: nat)
    requires counts == Bincount(Gather(src, StableOrder(src, n)), n) && v < n
    ensures Offsets(src, n)[v + 1] == Offsets(src, n)[v] + counts[v]
  {
    KeyCount(src, n, v);
    FlattenBlock(Buckets(src, n), v);
  }

  ghost function Offsets(src: seq<nat>, n: nat): (r: seq<nat>)
    ensures |r| == n + 1 && forall v :: 0 <= v <= n ==> r[v] == |Flatten(Buckets(src, n)[..v])|
  {
    seq(n + 1, v requires 0 <= v <= n => |Flatten(Buckets(src, n)[..v])|)
  }

  lemma LayoutIsRight(src: seq<nat>, dst: seq<nat>, eids: Option<seq<nat>>, n: nat, csr: Csr)
    requires |src| == |dst| && (eids.Some? ==> |eids.value| == |src|)
    requires AllBelow(src, n)
    requires csr.offsets == Offsets(src, n)
    requires csr.neighbors == Gather(dst, StableOrder(src, n))
    requires csr.eids == if eids.Some? then Some(Gather(eids.value, StableOrder(src, n))) else None
    ensures Represents(csr, src, dst, eids, n)
  {
    OffsetsShape(src, n);
    forall v: nat | v < n
      ensures SliceMeans(csr, src, dst, eids, v)
    {
      SliceOf(src, dst, n, v);
      if eids.Some? {
        SliceOf(src, eids.value, n, v);
      }
    }
  }

  lemma OffsetsShape(src: seq<nat>, n: nat)
    requires AllBelow(src, n)
    ensures Offsets(src, n)[0] == 0 && Offsets(src, n)[n] == |src| == |StableOrder(src, n)|
    ensures forall i, j :: 0 <= i <= j <= n ==> Offsets(src, n)[i] <= Offsets(src, n)[j]
  {
    var buckets := Buckets(src, n);
    assert buckets[..n] == buckets;
    StableOrderIsArgsort(src, n, StableOrder(src, n));
    ArgsortLength(src, StableOrder(src, n));
    forall i, j | 0 <= i <= j <= n
      ensures Offsets(src, n)[i] <= Offsets(src, n)[j]
    {
      FlattenGrows(buckets, i, j);
    }
  }

  lemma ArgsortLength(src: seq<nat>, order: seq<nat>)
    requires IsStableArgsort(src, order)
    ensures |order| == |src|
  {
    DistinctCard(order);
    assert Elements(order) == Below(|src|);
  }

  lemma SliceOf<T>(src: seq<nat>, values: seq<T>, n: nat, v: nat)
    requires |src| == |values| && v < n
    ensures Offsets(src, n)[v] <= Offsets(src, n)[v + 1] <= |StableOrder(src, n)|
    ensures Gather(values, StableOrder(src, n))[Offsets(src, n)[v]..Offsets(src, n)[v + 1]] == Outgoing(src, values, v)
  {
    var buckets, order := Buckets(src, n), StableOrder(src, n);
    var lo, hi := Offsets(src, n)[v], Offsets(src, n)[v + 1];
    FlattenBlock(buckets, v);
    PositionsGather(src, values, v);
    assert Gather(values, order)[lo..hi] == Gather(values, order[lo..hi]);
  }

  /** `build_csc`: the same builder over the swapped columns; an empty table drops its eids. */
  method BuildCsc(src: seq<nat>, dst: seq<nat>, eids: Option<seq<nat>>, n: int) returns (r: Result<Csr>)
    requires |src| == |dst| && (eids.Some? ==> |eids.value| == |src|)
    ensures r.Ok? <==> n >= 0 && AllBelow(dst, n)
    ensures r.Ok? ==> Represents(r.value, dst, src, if src == [] then None else eids, n)
  {
    if src == [] {
      r := BuildCsrArrays(src, dst, None, n);
    } else {
      r := BuildCsrArrays(dst, src, eids, n);
    }
  }

  // ---------------------------------------------------------------- transpose

  lemma {:induction false} OutgoingCount<T>(src: seq<nat>, values: seq<T>, u: nat, x: T)
    requires |src| == |values|
    ensures multiset(Outgoing(src, values, u))[x] == Multiplicity(src, values, u, x)
  {
    if src != [] {
      OutgoingCount(src[..|src| - 1], values[..|src| - 1], u, x);
    }
  }

  lemma {:induction false} MultiplicitySwap(src: seq<nat>, dst: seq<nat>, u: nat, v: nat)
    requires |src| == |dst|
    ensures Multiplicity(src, dst, u, v) == Multiplicity(dst, src, v, u)
  {
    if src != [] {
      MultiplicitySwap(src[..|src| - 1], dst[..|src| - 1], u, v);
    }
  }

  lemma {:induction false} MultiplicitySwapWithEid(src: seq<nat>, dst: seq<nat>, eids: seq<nat>, u: nat, v: nat, e: nat)
    requires |src| == |dst| == |eids|
    ensures Multiplicity(src, Zip(dst, eids), u, (v, e)) == Multiplicity(dst, Zip(src, eids), v, (u, e))
  {
    if src != [] {
      var n := |src| - 1;
      MultiplicitySwapWithEid(src[..n], dst[..n], eids[..n], u, v, e);
      assert Zip(dst, eids)[..n] == Zip(dst[..n], eids[..n]);
      assert Zip(src, eids)[..n] == Zip(src[..n], eids[..n]);
    }
  }

  lemma {:induction false} OutgoingZip<A, B>(src: seq<nat>, a: seq<A>, b: seq<B>, v: nat)
    requires |src| == |a| == |b|
    ensures |Outgoing(src, a, v)| == |Outgoing(src, b, v)|
    ensures Zip(Outgoing(src, a, v), Outgoing(src, b, v)) == Outgoing(src, Zip(a, b), v)
  {
    if src != [] {
      var n := |src| - 1;
      OutgoingZip(src[..n], a[..n], b[..n], v);
      assert Zip(a, b)[..n] == Zip(a[..n], b[..n]);
    }
  }

  function Slice(csr: Csr, v: nat): seq<nat>
    requires v + 1 < |csr.offsets| && csr.offsets[v] <= csr.offsets[v + 1] <= |csr.neighbors|
  {
    csr.neighbors[csr.offsets[v]..csr.offsets[v + 1]]
  }

  function SliceWithEids(csr: Csr, v: nat): seq<(nat, nat)>
    requires v + 1 < |csr.offsets| && csr.offsets[v] <= csr.offsets[v + 1] <= |csr.neighbors|
    requires csr.eids.Some? && |csr.eids.value| == |csr.neighbors|
  {
    Zip(Slice(csr, v), csr.eids.value[csr.offsets[v]..csr.offsets[v + 1]])
  }

  /** With edge ids: the row of `u` holds (v, e) as often as the column of `v` holds (u, e). */
  lemma EidsTransposed(out: Csr, into: Csr, src: seq<nat>, dst: seq<nat>, eids: seq<nat>, u: nat, v: nat, e: nat)
    requires |src| == |dst| == |eids|
    requires SliceMeans(out, src, dst, Some(eids), u) && SliceMeans(into, dst, src, Some(eids), v)
    ensures multiset(SliceWithEids(out, u))[(v, e)] == multiset(SliceWithEids(into, v))[(u, e)]
  {
    OutgoingZip(src, dst, eids, u);
    OutgoingZip(dst, src, eids, v);
    OutgoingCount(src, Zip(dst, eids), u, (v, e));
    OutgoingCount(dst, Zip(src, eids), v, (u, e));
    MultiplicitySwapWithEid(src, dst, eids, u, v, e);
  }

  /** CSR and CSC of one table are transposes, parallel edges counted. */
  lemma NeighborsTransposed(out: Csr, into: Csr, src: seq<nat>, dst: seq<nat>, eids: Option<seq<nat>>, u: nat, v: nat)
    requires |src| == |dst| && (eids.Some? ==> |eids.value| == |src|)
    requires SliceMeans(out, src, dst, eids, u) && SliceMeans(into, dst, src, eids, v)
    ensures multiset(Slice(out, u))[v] == multiset(Slice(into, v))[u]
  {
    OutgoingCount(src, dst, u, v);
    OutgoingCount(dst, src, v, u);
    MultiplicitySwap(src, dst, u, v);
  }
}
