/** The CSR reader: look-ups, degrees, flat-index fan-out (graph/csr_reader.py). */
module CsrReader {
  import opened Results
  import opened Seqs
  import opened Walks
  import opened CsrBuilder

  /** What a CSR file guarantees to its readers. */
  predicate Readable(csr: Csr) {
    && |csr.offsets| >= 1
    && csr.offsets[|csr.offsets| - 1] <= |csr.neighbors|
    && (forall i, j :: 0 <= i <= j < |csr.offsets| ==> csr.offsets[i] <= csr.offsets[j])
    && (csr.eids.Some? ==> |csr.eids.value| == |csr.neighbors|)
  }

  function NumVertices(csr: Csr): nat
    requires Readable(csr)
  {
    |csr.offsets| - 1
  }

  function Neighbors(csr: Csr, v: nat): seq<nat>
    requires Readable(csr) && v < NumVertices(csr)
  {
    Slice(csr, v)
  }

  function EdgeIds(csr: Csr, v: nat): (r: seq<nat>)
    requires Readable(csr) && v < NumVertices(csr) && csr.eids.Some?
    ensures |r| == |Neighbors(csr, v)|
  {
    csr.eids.value[csr.offsets[v]..csr.offsets[v + 1]]
  }

  function NeighborsOf(csr: Csr, vid: int): Result<seq<nat>>
    requires Readable(csr)
  {
    if vid < 0 || vid >= NumVertices(csr) then Err("CDB-7083") else Ok(Neighbors(csr, vid))
  }

  function Degrees(csr: Csr, vids: seq<nat>): (r: seq<nat>)
    requires Readable(csr) && AllBelow(vids, NumVertices(csr))
    ensures |r| == |vids| && forall i :: 0 <= i < |r| ==> r[i] == |Neighbors(csr, vids[i])|
  {
    seq(|vids|, i requires 0 <= i < |vids| => csr.offsets[vids[i] + 1] - csr.offsets[vids[i]])
  }

  /** A built file is readable, and each look-up lists the edges that leave the vertex. */
  lemma BuiltIsReadable(csr: Csr, src: seq<nat>, dst: seq<nat>, eids: Option<seq<nat>>, n: nat)
    requires |src| == |dst| && (eids.Some? ==> |eids.value| == |src|)
    requires Represents(csr, src, dst, eids, n)
    ensures Readable(csr) && NumVertices(csr) == n
    ensures forall v: nat :: v < n ==> NeighborsOf(csr, v) == Ok(Outgoing(src, dst, v))
  {
    if n > 0 {
      assert SliceMeans(csr, src, dst, eids, n - 1);
    }
    forall v: nat | v < n
      ensures NeighborsOf(csr, v) == Ok(Outgoing(src, dst, v))
    {
      assert SliceMeans(csr, src, dst, eids, v);
    }
  }

  // ---------------------------------------------------------------- fan-out

  datatype Fan = Fan(src: seq<nat>, dst: seq<nat>, eid: Option<seq<nat>>)

  function Starts(csr: Csr, vids: seq<nat>): (r: seq<nat>)
    requires Readable(csr) && AllBelow(vids, NumVertices(csr))
    ensures |r| == |vids|
  {
    seq(|vids|, i requires 0 <= i < |vids| => csr.offsets[vids[i]])
  }

  /** The "repeat + arange" trick: one flat index array for all segments. */
  function FlatIndex(starts: seq<nat>, lens: seq<nat>): seq<int>
    requires |starts| == |lens|
  {
    RepeatLength(starts, lens);
    RepeatLength(BlockStarts(lens), lens);
    seq(Sum(lens), k requires 0 <= k < Sum(lens) => Repeat(starts, lens)[k] + (k - Repeat(BlockStarts(lens), lens)[k]))
  }

  function Segments(starts: seq<nat>, lens: seq<nat>): (r: seq<seq<nat>>)
    requires |starts| == |lens|
    ensures |r| == |lens| && forall i :: 0 <= i < |r| ==> r[i] == Range(starts[i], starts[i] + lens[i])
  {
    seq(|lens|, i requires 0 <= i < |lens| => Range(starts[i], starts[i] + lens[i]))
  }

  lemma FlatIndexSnoc(starts: seq<nat>, lens: seq<nat>)
    requires |starts| == |lens| && lens != []
    ensures var n := |lens| - 1;
      FlatIndex(starts, lens) == FlatIndex(starts[..n], lens[..n]) + Range(starts[n], starts[n] + lens[n])
  {
    var n := |lens| - 1;
    RepeatLength(starts[..n], lens[..n]);
    RepeatLength(BlockStarts(lens[..n]), lens[..n]);
    RepeatLength(starts, lens);
    RepeatLength(BlockStarts(lens), lens);
    assert BlockStarts(lens)[..n] == BlockStarts(lens[..n]);
  }

  lemma {:induction false} FlatIndexIsSegments(starts: seq<nat>, lens: seq<nat>)
    requires |starts| == |lens|
    ensures FlatIndex(starts, lens) == Flatten(Segments(starts, lens))
    decreases |lens|
  {
    if lens != [] {
      var n := |lens| - 1;
      FlatIndexIsSegments(starts[..n], lens[..n]);
      FlatIndexSnoc(starts, lens);
      assert Segments(starts, lens)[..n] == Segments(starts[..n], lens[..n]);
    }
  }

  /** The unsampled part of `batch_neighbors`, for seeds inside the vertex space. */
  function FanOut(csr: Csr, vids: seq<nat>, wantEids: bool): Fan
    requires Readable(csr) && AllBelow(vids, NumVertices(csr)) && (wantEids ==> csr.eids.Some?)
  {
    var starts, lens := Starts(csr, vids), Degrees(csr, vids);
    SegmentsInside(csr, vids);
    FlatIndexIsSegments(starts, lens);
    var idx: seq<nat> := FlatIndex(starts, lens);
    Fan(Repeat(vids, lens), Gather(csr.neighbors, idx), if wantEids then Some(Gather(csr.eids.value, idx)) else None)
  }

  lemma SegmentsInside(csr: Csr, vids: seq<nat>)
    requires Readable(csr) && AllBelow(vids, NumVertices(csr))
    ensures forall i :: 0 <= i < |vids| ==> AllBelow(Segments(Starts(csr, vids), Degrees(csr, vids))[i],
      |csr.neighbors|)
    ensures AllBelow(Flatten(Segments(Starts(csr, vids), Degrees(csr, vids))), |csr.neighbors|)
  {
    var segs := Segments(Starts(csr, vids), Degrees(csr, vids));
    forall i | 0 <= i < |vids|
      ensures AllBelow(segs[i], |csr.neighbors|)
    {
      assert csr.offsets[vids[i] + 1] <= |csr.neighbors|;
    }
    FlattenBelow(segs, |csr.neighbors|);
  }

  /** The slices of one column (neighbours or edge ids) for a list of seeds. */
  function Lists(csr: Csr, column: seq<nat>, vids: seq<nat>): (r: seq<seq<nat>>)
    requires Readable(csr) && |column| == |csr.neighbors| && AllBelow(vids, NumVertices(csr))
    ensures |r| == |vids|
    ensures forall i :: 0 <= i < |r| ==> r[i] == column[csr.offsets[vids[i]]..csr.offsets[vids[i] + 1]]
  {
    seq(|vids|, i requires 0 <= i < |vids| => column[csr.offsets[vids[i]]..csr.offsets[vids[i] + 1]])
  }

  lemma FlatColumn(csr: Csr, column: seq<nat>, vids: seq<nat>)
    requires Readable(csr) && |column| == |csr.neighbors| && AllBelow(vids, NumVertices(csr))
    ensures AllBelow(Flatten(Segments(Starts(csr, vids), Degrees(csr, vids))), |column|)
    ensures Gather(column, Flatten(Segments(Starts(csr, vids), Degrees(csr, vids))))
      == Flatten(Lists(csr, column, vids))
  {
    var segs, lists := Segments(Starts(csr, vids), Degrees(csr, vids)), Lists(csr, column, vids);
    SegmentsInside(csr, vids);
    forall i | 0 <= i < |vids|
      ensures lists[i] == Gather(column, segs[i])
    {
      assert |lists[i]| == |segs[i]|;
    }
    GatherFlatten(column, segs, lists);
  }

  /** The flat-index fan-out is the concatenation of the single look-ups, repeated seeds included. */
  lemma FanOutIsConcatenation(csr: Csr, vids: seq<nat>, wantEids: bool)
    requires Readable(csr) && AllBelow(vids, NumVertices(csr)) && (wantEids ==> csr.eids.Some?)
    ensures FanOut(csr, vids, wantEids).dst == Flatten(Lists(csr, csr.neighbors, vids))
    ensures FanOut(csr, vids, wantEids).src == Repeat(vids, Degrees(csr, vids))
    ensures FanOut(csr, vids, wantEids).eid == if wantEids then Some(Flatten(Lists(csr, csr.eids.value, vids)))
      else None
  {
    FlatIndexIsSegments(Starts(csr, vids), Degrees(csr, vids));
    FlatColumn(csr, csr.neighbors, vids);
    if wantEids {
      FlatColumn(csr, csr.eids.value, vids);
    }
  }

  /** Origins repeated by degree line up with the fanned-out targets. */
  lemma {:induction false} RepeatAligned<T>(origins: seq<T>, lists: seq<seq<nat>>, lens: seq<nat>)
    requires |origins| == |lists| == |lens| && forall i :: 0 <= i < |lens| ==> lens[i] == |lists[i]|
    ensures |Repeat(origins, lens)| == |Flatten(lists)| == Sum(lens)
    ensures Zip(Repeat(origins, lens), Flatten(lists)) == Flatten(Labelled(origins, lists))
    decreases |lists|
  {
    if lists != [] {
      var n := |lists| - 1;
      RepeatAligned(origins[..n], lists[..n], lens[..n]);
      LabelledLast(origins, lists);
      AlignedSnoc(Repeat(origins[..n], lens[..n]), Fill(origins[n], lens[n]), Flatten(lists[..n]), lists[n],
          Labelled(origins, lists));
    }
  }

  lemma AlignedSnoc<A, B>(a: seq<A>, b: seq<A>, c: seq<B>, d: seq<B>, labelled: seq<seq<(A, B)>>)
    requires |a| == |c| && |b| == |d| && labelled != []
    requires Flatten(labelled[..|labelled| - 1]) == Zip(a, c) && labelled[|labelled| - 1] == Zip(b, d)
    ensures Zip(a + b, c + d) == Flatten(labelled)
  {
    ZipConcat(a, b, c, d);
  }

  lemma ZipConcat<A, B>(a: seq<A>, b: seq<A>, c: seq<B>, d: seq<B>)
    requires |a| == |c| && |b| == |d|
    ensures Zip(a + b, c + d) == Zip(a, c) + Zip(b, d)
  {
  }

  lemma LabelledLast<T>(origins: seq<T>, lists: seq<seq<nat>>)
    requires |origins| == |lists| && lists != []
    ensures var n := |lists| - 1;
      && Labelled(origins, lists)[..n] == Labelled(origins[..n], lists[..n])
      && Labelled(origins, lists)[n] == Zip(Fill(origins[n], |lists[n]|), lists[n])
  {
  }

  function Labelled<T>(origins: seq<T>, lists: seq<seq<nat>>): (r: seq<seq<(T, nat)>>)
    requires |origins| == |lists|
    ensures |r| == |lists|
    ensures forall i :: 0 <= i < |r| ==> |r[i]| == |lists[i]|
    ensures forall i, j :: 0 <= i < |r| && 0 <= j < |r[i]| ==> r[i][j] == (origins[i], lists[i][j])
  {
    seq(|lists|, i requires 0 <= i < |lists| =>
      seq(|lists[i]|, j requires 0 <= j < |lists[i]| => (origins[i], lists[i][j])))
  }

  lemma InLabelled(origins: seq<nat>, lists: seq<seq<nat>>, i: nat, s: nat, d': nat)
    requires |origins| == |lists| && i < |lists|
    ensures (s, d') in Labelled(origins, lists)[i] <==> origins[i] == s && d' in lists[i]
  {
    var row := Labelled(origins, lists)[i];
    if origins[i] == s && d' in lists[i] {
      var j :| 0 <= j < |lists[i]| && lists[i][j] == d';
      assert row[j] == (s, d');
    }
  }

  /** A pair the fan-out may contain: a seed and one of its neighbours. */
  ghost predicate FanEdge(csr: Csr, vids: seq<nat>, s: nat, d: nat)
    requires Readable(csr)
  {
    s in vids && s < NumVertices(csr) && d in Neighbors(csr, s)
  }

  ghost predicate OnlyEdges(csr: Csr, vids: seq<nat>, fan: Fan)
    requires Readable(csr)
  {
    |fan.src| == |fan.dst| && forall i :: 0 <= i < |fan.src| ==> FanEdge(csr, vids, fan.src[i], fan.dst[i])
  }

  lemma FanOutOnlyEdges(csr: Csr, vids: seq<nat>, wantEids: bool)
    requires Readable(csr) && AllBelow(vids, NumVertices(csr)) && (wantEids ==> csr.eids.Some?)
    ensures OnlyEdges(csr, vids, FanOut(csr, vids, wantEids))
  {
    var fan, lists := FanOut(csr, vids, wantEids), Lists(csr, csr.neighbors, vids);
    FanOutIsConcatenation(csr, vids, wantEids);
    RepeatAligned(vids, lists, Degrees(csr, vids));
    forall i | 0 <= i < |fan.src|
      ensures FanEdge(csr, vids, fan.src[i], fan.dst[i])
    {
      assert Zip(fan.src, fan.dst)[i] == (fan.src[i], fan.dst[i]);
      LabelledEdge(csr, vids, fan.src[i], fan.dst[i]);
    }
  }

  lemma InLabelledLists(origins: seq<nat>, lists: seq<seq<nat>>, s: nat, d: nat)
    requires |origins| == |lists|
    ensures (s, d) in Flatten(Labelled(origins, lists))
      <==> exists i :: 0 <= i < |origins| && origins[i] == s && d in lists[i]
  {
    InFlatten(Labelled(origins, lists), (s, d));
    forall i | 0 <= i < |origins|
      ensures (s, d) in Labelled(origins, lists)[i] <==> origins[i] == s && d in lists[i]
    {
      InLabelled(origins, lists, i, s, d);
    }
  }

  lemma LabelledEdge(csr: Csr, vids: seq<nat>, s: nat, d: nat)
    requires Readable(csr) && AllBelow(vids, NumVertices(csr))
    ensures (s, d) in Flatten(Labelled(vids, Lists(csr, csr.neighbors, vids))) <==> FanEdge(csr, vids, s, d)
  {
    var lists := Lists(csr, csr.neighbors, vids);
    InLabelledLists(vids, lists, s, d);
    assert forall i :: 0 <= i < |vids| ==> lists[i] == Neighbors(csr, vids[i]);
  }

  /** And every such pair is there. */
  lemma FanOutHasEdge(csr: Csr, vids: seq<nat>, wantEids: bool, s: nat, d: nat)
    requires Readable(csr) && AllBelow(vids, NumVertices(csr)) && (wantEids ==> csr.eids.Some?)
      && FanEdge(csr, vids, s, d)
    ensures var fan := FanOut(csr, vids, wantEids);
      |fan.src| == |fan.dst| && exists i :: 0 <= i < |fan.src| && fan.src[i] == s && fan.dst[i] == d
  {
    var fan, lists := FanOut(csr, vids, wantEids), Lists(csr, csr.neighbors, vids);
    FanOutIsConcatenation(csr, vids, wantEids);
    RepeatAligned(vids, lists, Degrees(csr, vids));
    LabelledEdge(csr, vids, s, d);
    ZipHolds(fan.src, fan.dst, s, d);
  }

  lemma ZipHolds(a: seq<nat>, b: seq<nat>, x: nat, y: nat)
    requires |a| == |b| && (x, y) in Zip(a, b)
    ensures exists i :: 0 <= i < |a| && a[i] == x && b[i] == y
  {
    var i :| 0 <= i < |Zip(a, b)| && Zip(a, b)[i] == (x, y);
    assert a[i] == x && b[i] == y;
  }
}
