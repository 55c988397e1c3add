/** What one turn of the GNN sampler draws of each node (api.py `_sample_gnn_subgraph`, graph/csr_reader.py). */
module SampleDraws {
  import opened Results
  import opened Walks
  import opened Seqs
  import opened CsrBuilder
  import opened CsrReader
  import opened CsrSampling
  import opened SampleTrace
  import opened SampleMeaning

  // ---------------------------------------------------------------- blocks of one source each

  lemma {:induction false} OutgoingAppend(src: seq<nat>, dst: seq<nat>, src': seq<nat>, dst': seq<nat>, v: nat)
    requires |src| == |dst| && |src'| == |dst'|
    ensures Outgoing(src + src', dst + dst', v) == Outgoing(src, dst, v) + Outgoing(src', dst', v)
    decreases |src'|
  {
    if src' == [] {
      assert src + src' == src && dst + dst' == dst;
    } else {
      var n := |src'| - 1;
      OutgoingAppend(src, dst, src'[..n], dst'[..n], v);
      assert (src + src')[..|src| + n] == src + src'[..n] && (dst + dst')[..|src| + n] == dst + dst'[..n];
    }
  }

  lemma {:induction false} OutgoingBlock(src: seq<nat>, dst: seq<nat>, x: nat, v: nat)
    requires |src| == |dst| && AllEqual(src, x)
    ensures Outgoing(src, dst, v) == if x == v then dst else []
  {
    if src != [] {
      var n := |src| - 1;
      OutgoingBlock(src[..n], dst[..n], x, v);
      assert dst == dst[..n] + [dst[n]];
    }
  }

  /** Block `k` of the sources holds the `k`-th node only, and is as long as that block of the values. */
  ghost predicate Blocks(vids: seq<nat>, copies: seq<seq<nat>>, lists: seq<seq<nat>>, slots: seq<seq<nat>>) {
    && |vids| == |copies| == |lists| == |slots|
    && forall k :: 0 <= k < |vids| ==>
      AllEqual(copies[k], vids[k]) && |copies[k]| == |lists[k]| && AllBelow(slots[k], |lists[k]|)
  }

  lemma {:induction false} PickedLengths(vids: seq<nat>, copies: seq<seq<nat>>, lists: seq<seq<nat>>,
                                         slots: seq<seq<nat>>)
    requires Blocks(vids, copies, lists, slots)
    ensures |PickAll(copies, slots)| == |PickAll(lists, slots)|
    decreases |vids|
  {
    if vids != [] {
      var n := |vids| - 1;
      PickedLengths(vids[..n], copies[..n], lists[..n], slots[..n]);
    }
  }

  /** The last block adds its own slots to what is listed under its node, nothing elsewhere. */
  lemma PickedSnoc(vids: seq<nat>, copies: seq<seq<nat>>, lists: seq<seq<nat>>, slots: seq<seq<nat>>, v: nat)
    requires vids != [] && Blocks(vids, copies, lists, slots)
    ensures var n := |vids| - 1;
      && Blocks(vids[..n], copies[..n], lists[..n], slots[..n])
      && |PickAll(copies[..n], slots[..n])| == |PickAll(lists[..n], slots[..n])|
      && |PickAll(copies, slots)| == |PickAll(lists, slots)|
      && Outgoing(PickAll(copies, slots), PickAll(lists, slots), v)
         == Outgoing(PickAll(copies[..n], slots[..n]), PickAll(lists[..n], slots[..n]), v)
            + if vids[n] == v then Gather(lists[n], slots[n]) else []
  {
    var n := |vids| - 1;
    PickedLengths(vids[..n], copies[..n], lists[..n], slots[..n]);
    var own, theirs := Gather(copies[n], slots[n]), Gather(lists[n], slots[n]);
    OutgoingAppend(PickAll(copies[..n], slots[..n]), PickAll(lists[..n], slots[..n]), own, theirs, v);
    OutgoingBlock(own, theirs, vids[n], v);
  }

  lemma {:induction false} PickedNone(vids: seq<nat>, copies: seq<seq<nat>>, lists: seq<seq<nat>>,
                                      slots: seq<seq<nat>>, v: nat)
    requires Blocks(vids, copies, lists, slots) && v !in vids
    ensures |PickAll(copies, slots)| == |PickAll(lists, slots)|
    ensures Outgoing(PickAll(copies, slots), PickAll(lists, slots), v) == []
    decreases |vids|
  {
    if vids != [] {
      var n := |vids| - 1;
      PickedSnoc(vids, copies, lists, slots, v);
      PickedNone(vids[..n], copies[..n], lists[..n], slots[..n], v);
    }
  }

  /** Seen from one node, the chosen slots of all blocks are the chosen slots of its own. */
  lemma {:induction false} PickedOf(vids: seq<nat>, copies: seq<seq<nat>>, lists: seq<seq<nat>>, slots: seq<seq<nat>>,
                                    i: nat)
    requires Blocks(vids, copies, lists, slots) && Distinct(vids) && i < |vids|
    ensures |PickAll(copies, slots)| == |PickAll(lists, slots)|
    ensures Outgoing(PickAll(copies, slots), PickAll(lists, slots), vids[i]) == Gather(lists[i], slots[i])
    decreases |vids|
  {
    var n := |vids| - 1;
    PickedSnoc(vids, copies, lists, slots, vids[i]);
    if i < n {
      PickedOf(vids[..n], copies[..n], lists[..n], slots[..n], i);
    } else {
      PickedNone(vids[..n], copies[..n], lists[..n], slots[..n], vids[n]);
    }
  }

  // ---------------------------------------------------------------- one node

  /** All neighbours, or a fanout of them by the strategy. */
  ghost predicate DrawnFrom(list: seq<nat>, fanout: nat, replace: bool, strategy: Strategy, drawn: seq<nat>) {
    if fanout == 0 || strategy == All then drawn == list
    else exists slot: seq<nat> ::
      ValidSlot(slot, |list|, fanout, replace, strategy) && AllBelow(slot, |list|) && drawn == Gather(list, slot)
  }

  lemma CopiesBlocks(csr: Csr, vids: seq<nat>, slots: seq<seq<nat>>)
    requires Readable(csr) && AllBelow(vids, NumVertices(csr)) && |slots| == |vids|
    requires forall i :: 0 <= i < |vids| ==> AllBelow(slots[i], Degrees(csr, vids)[i])
    ensures Blocks(vids, Copies(vids, Degrees(csr, vids)), Lists(csr, csr.neighbors, vids), slots)
    ensures forall i :: 0 <= i < |vids| ==> Lists(csr, csr.neighbors, vids)[i] == Neighbors(csr, vids[i])
  {
  }

  lemma SlotsDraw(csr: Csr, vids: seq<nat>, fan: Fan, slots: seq<seq<nat>>, i: nat)
    requires Readable(csr) && AllBelow(vids, NumVertices(csr)) && Distinct(vids) && i < |vids|
    requires KeepsSlots(csr, vids, fan, slots)
    ensures |fan.src| == |fan.dst| && AllBelow(slots[i], |Neighbors(csr, vids[i])|)
    ensures Outgoing(fan.src, fan.dst, vids[i]) == Gather(Neighbors(csr, vids[i]), slots[i])
  {
    CopiesBlocks(csr, vids, slots);
    PickedOf(vids, Copies(vids, Degrees(csr, vids)), Lists(csr, csr.neighbors, vids), slots, i);
  }

  lemma WholeKeepsSlots(csr: Csr, vids: seq<nat>, fan: Fan)
    requires Readable(csr) && AllBelow(vids, NumVertices(csr)) && fan.eid.None?
    requires fan.src == Repeat(vids, Degrees(csr, vids)) && fan.dst == Flatten(Lists(csr, csr.neighbors, vids))
    ensures KeepsSlots(csr, vids, fan, WholeSlots(Degrees(csr, vids)))
  {
    RepeatIsCopies(vids, Degrees(csr, vids));
    WholeColumn(Copies(vids, Degrees(csr, vids)), Degrees(csr, vids));
    WholeListed(csr, csr.neighbors, vids);
  }

  lemma GatherWhole(list: seq<nat>)
    ensures AllBelow(Range(0, |list|), |list|) && Gather(list, Range(0, |list|)) == list
  {
  }

  /** A sample draws of each node it is asked for as many distinct neighbours as the fanout allows. */
  lemma FanDraws(csr: Csr, vids: seq<nat>, fanout: nat, replace: bool, strategy: Strategy, fan: Fan, u: nat)
    requires IsSample(csr, vids, fanout, replace, strategy, fan) && u in vids
    ensures |fan.src| == |fan.dst|
    ensures DrawnFrom(Neighbors(csr, u), fanout, replace, strategy, Outgoing(fan.src, fan.dst, u))
  {
    var i :| 0 <= i < |vids| && vids[i] == u;
    if fanout == 0 || strategy == All {
      var bare := Fan(fan.src, fan.dst, None);
      WholeKeepsSlots(csr, vids, bare);
      SlotsDraw(csr, vids, bare, WholeSlots(Degrees(csr, vids)), i);
      GatherWhole(Neighbors(csr, u));
    } else {
      var slots :| ValidSlots(Degrees(csr, vids), slots, fanout, replace, strategy)
        && KeepsSlots(csr, vids, fan, slots);
      SlotsDraw(csr, vids, fan, slots, i);
      assert ValidSlot(slots[i], Degrees(csr, vids)[i], fanout, replace, strategy);
    }
  }

  /** So does every turn, of each frontier node its reader has. */
  lemma TurnDraws(g: Graph, o: Options, frontier: seq<nat>, fanout: nat, t: Turn, u: nat)
    requires IsTurn(g, o, frontier, fanout, t) && u in frontier && u < NumVertices(g.readers[t.reader].csr)
    ensures var csr := g.readers[t.reader].csr;
      DrawnFrom(Neighbors(csr, u), fanout, o.replace, o.strategy, Outgoing(t.fan.src, t.fan.dst, u))
  {
    var csr := g.readers[t.reader].csr;
    FanDraws(csr, Covered(frontier, NumVertices(csr)), fanout, o.replace, o.strategy, t.fan, u);
  }

  /** Without repeats a draw takes the fanout's number of different places of the list, or all of them. */
  lemma DrawnWithoutRepeats(list: seq<nat>, fanout: nat, strategy: Strategy, drawn: seq<nat>)
    requires DrawnFrom(list, fanout, false, strategy, drawn) && fanout > 0 && strategy != All
    ensures |drawn| == if |list| <= fanout then |list| else fanout
    ensures exists slot: seq<nat> ::
      Distinct(slot) && |slot| == |drawn| && AllBelow(slot, |list|) && drawn == Gather(list, slot)
  {
    var slot: seq<nat> :| ValidSlot(slot, |list|, fanout, false, strategy) && AllBelow(slot, |list|)
      && drawn == Gather(list, slot);
    assert Distinct(slot) && |slot| == |drawn|;
  }

  /**
    In a run without an edge cap, every layer has, for each reader of each requested
    type, a turn recorded whole that draws so much of every frontier node.
    */
  lemma LayerDraws(g: Graph, start: seq<nat>, fanouts: seq<nat>, o: Options, run: Trace, s: Sample, i: nat, p: nat,
                   q: nat) returns (j: nat)
    requires Traced(g, start, fanouts, o, run, s) && o.limits.maxEdges.None?
    requires i < |run.layers| && p < |g.types| && q < |g.types[p]|
    ensures j < |run.layers[i]|
    ensures var t := run.layers[i][j];
      && t.reader == g.types[p][q] && t.reader < |g.readers| && t.kept == |t.fan.dst| == |t.fan.src|
      && Readable(g.readers[t.reader].csr)
      && forall u :: u in run.frontiers[i] && u < NumVertices(g.readers[t.reader].csr) ==>
        DrawnFrom(Neighbors(g.readers[t.reader].csr, u), fanouts[i], o.replace, o.strategy,
                  Outgoing(t.fan.src, t.fan.dst, u))
  {
    LayerAt(g, o, fanouts, run, s.nodes, false, i);
    j := TurnServing(g, o, run.frontiers[i], fanouts[i], run.layers[i], run.frontiers[i + 1], s.nodes, p, q);
    var t := run.layers[i][j];
    TurnIsWhole(g, start, fanouts, o, run, s, i, j);
    forall u | u in run.frontiers[i] && u < NumVertices(g.readers[t.reader].csr)
      ensures DrawnFrom(Neighbors(g.readers[t.reader].csr, u), fanouts[i], o.replace, o.strategy,
                        Outgoing(t.fan.src, t.fan.dst, u))
    {
      TurnDraws(g, o, run.frontiers[i], fanouts[i], t, u);
    }
  }

  /** The frontier nodes a reader has are visited in frontier order. */
  lemma {:induction false} CoveredInOrder(s: seq<nat>, n: nat, i: nat, j: nat)
    requires i < j < |Covered(s, n)|
    ensures exists p, q :: 0 <= p < q < |s| && s[p] == Covered(s, n)[i] && s[q] == Covered(s, n)[j]
  {
    var m := |s| - 1;
    var front := Covered(s[..m], n);
    if j < |front| {
      CoveredInOrder(s[..m], n, i, j);
      var p, q :| 0 <= p < q < m && s[..m][p] == front[i] && s[..m][q] == front[j];
      assert s[p] == front[i] && s[q] == front[j];
    } else {
      assert front[i] in s[..m];
      var p :| 0 <= p < m && s[..m][p] == front[i];
      assert s[p] == front[i];
    }
  }
}
