/** What a sampler run means: stored edges, distances, budgets, coverage (api.py `_sample_gnn_subgraph`). */
module SampleMeaning {
  import opened Results
  import opened Walks
  import opened Seqs
  import opened CsrBuilder
  import opened CsrReader
  import opened CsrSampling
  import opened Relabel
  import opened SampleTrace

  /** The relation of this reader holds an edge from `a` to `b`. */
  ghost predicate HoldsEdge(reader: Reader, a: nat, b: nat) {
    && Readable(reader.csr)
    && if reader.incoming then b < NumVertices(reader.csr) && a in Neighbors(reader.csr, b)
       else a < NumVertices(reader.csr) && b in Neighbors(reader.csr, a)
  }

  /** Some reader of a requested edge type holds an edge from `a` to `b`. */
  ghost predicate Stored(g: Graph, a: nat, b: nat) {
    exists i, j :: 0 <= i < |g.types| && 0 <= j < |g.types[i]| && g.types[i][j] < |g.readers|
        && HoldsEdge(g.readers[g.types[i][j]], a, b)
  }

  /** Reader `k` serves a requested type. */
  ghost predicate Requested(g: Graph, k: nat) {
    exists i, j :: 0 <= i < |g.types| && 0 <= j < |g.types[i]| && g.types[i][j] == k
  }

  // ---------------------------------------------------------------- one turn

  ghost predicate PairsStored(g: Graph, src: seq<nat>, dst: seq<nat>) {
    |src| == |dst| && forall i :: 0 <= i < |src| ==> Stored(g, src[i], dst[i])
  }

  /** `y` is found from `x` through this reader. */
  ghost predicate Leads(reader: Reader, x: nat, y: nat) {
    Readable(reader.csr) && x < NumVertices(reader.csr) && y in Neighbors(reader.csr, x)
  }

  /** Some reader of a requested type leads from `u` to `v`. */
  ghost predicate LeadsTo(g: Graph, u: nat, v: nat) {
    exists i, j :: 0 <= i < |g.types| && 0 <= j < |g.types[i]| && g.types[i][j] < |g.readers|
        && Leads(g.readers[g.types[i][j]], u, v)
  }

  ghost predicate LedFrom(g: Graph, frontier: seq<nat>, v: nat) {
    exists u :: u in frontier && LeadsTo(g, u, v)
  }

  lemma TurnIsRequested(g: Graph, turns: seq<Turn>, full: bool, j: nat)
    requires Served(turns, Flatten(g.types), full) && j < |turns|
    ensures Requested(g, turns[j].reader)
  {
    InFlatten(g.types, turns[j].reader);
  }

  lemma FanIsStored(g: Graph, k: nat, vids: seq<nat>, fan: Fan)
    requires k < |g.readers| && Requested(g, k) && Readable(g.readers[k].csr) && OnlyEdges(g.readers[k].csr, vids, fan)
    ensures var (a, b) := if g.readers[k].incoming then (fan.dst, fan.src) else (fan.src, fan.dst); PairsStored(g, a, b)
  {
    var p, q :| 0 <= p < |g.types| && 0 <= q < |g.types[p]| && g.types[p][q] == k;
    forall i | 0 <= i < |fan.src|
      ensures g.readers[k].incoming ==> Stored(g, fan.dst[i], fan.src[i])
      ensures !g.readers[k].incoming ==> Stored(g, fan.src[i], fan.dst[i])
    {
      assert FanEdge(g.readers[k].csr, vids, fan.src[i], fan.dst[i]);
      assert g.readers[k].incoming ==> HoldsEdge(g.readers[g.types[p][q]], fan.dst[i], fan.src[i]);
      assert !g.readers[k].incoming ==> HoldsEdge(g.readers[g.types[p][q]], fan.src[i], fan.dst[i]);
    }
  }

  lemma FanIsLed(g: Graph, k: nat, frontier: seq<nat>, vids: seq<nat>, fan: Fan)
    requires k < |g.readers| && Requested(g, k) && Readable(g.readers[k].csr) && OnlyEdges(g.readers[k].csr, vids, fan)
    requires forall x :: x in vids ==> x in frontier
    ensures forall i :: 0 <= i < |fan.src| ==> fan.src[i] in frontier && LedFrom(g, frontier, fan.dst[i])
  {
    var p, q :| 0 <= p < |g.types| && 0 <= q < |g.types[p]| && g.types[p][q] == k;
    forall i | 0 <= i < |fan.src|
      ensures fan.src[i] in frontier && LedFrom(g, frontier, fan.dst[i])
    {
      assert FanEdge(g.readers[k].csr, vids, fan.src[i], fan.dst[i]);
      assert Leads(g.readers[g.types[p][q]], fan.src[i], fan.dst[i]);
      assert LeadsTo(g, fan.src[i], fan.dst[i]);
    }
  }

  lemma PrefixStored(g: Graph, a: seq<nat>, b: seq<nat>, n: nat)
    requires PairsStored(g, a, b) && n <= |a|
    ensures PairsStored(g, a[..n], b[..n])
  {
  }

  /** What a turn records are stored edges, its far ends one step from the frontier. */
  lemma TurnIsStored(g: Graph, o: Options, frontier: seq<nat>, fanout: nat, t: Turn)
    requires IsTurn(g, o, frontier, fanout, t) && Requested(g, t.reader)
    ensures PairsStored(g, Sources(g, t), Targets(g, t))
  {
    var csr := g.readers[t.reader].csr;
    FanIsStored(g, t.reader, Covered(frontier, NumVertices(csr)), t.fan);
    if g.readers[t.reader].incoming {
      PrefixStored(g, t.fan.dst, t.fan.src, t.kept);
    } else {
      PrefixStored(g, t.fan.src, t.fan.dst, t.kept);
    }
  }

  /** The ends of a turn are in the frontier or one step from it. */
  ghost predicate Explored(g: Graph, frontier: seq<nat>, t: Turn) {
    && (forall x :: x in FarEnds(t) ==> LedFrom(g, frontier, x))
    && (forall x :: x in Sources(g, t) || x in Targets(g, t) ==> x in frontier || LedFrom(g, frontier, x))
  }

  lemma TurnIsExplored(g: Graph, o: Options, frontier: seq<nat>, fanout: nat, t: Turn)
    requires IsTurn(g, o, frontier, fanout, t) && Requested(g, t.reader)
    ensures Explored(g, frontier, t)
  {
    FanIsLed(g, t.reader, frontier, Covered(frontier, NumVertices(g.readers[t.reader].csr)), t.fan);
  }

  // ---------------------------------------------------------------- all turns of a run

  lemma TurnOfLayer(g: Graph, o: Options, fanouts: seq<nat>, run: Trace, nodes: seq<nat>, full: bool, t: Turn)
    returns (i: nat)
    requires LayersTraced(g, o, fanouts, run, nodes, full) && t in Flatten(run.layers)
    ensures i < |run.layers| && t in run.layers[i] && IsTurn(g, o, run.frontiers[i], fanouts[i], t)
    ensures Requested(g, t.reader)
  {
    InFlatten(run.layers, t);
    i :| 0 <= i < |run.layers| && t in run.layers[i];
    LayerAt(g, o, fanouts, run, nodes, full, i);
    var j :| 0 <= j < |run.layers[i]| && run.layers[i][j] == t;
    TurnIsRequested(g, run.layers[i], full, j);
  }

  lemma {:induction false} AllStored(g: Graph, turns: seq<Turn>)
    requires forall t :: t in turns ==> PairsStored(g, Sources(g, t), Targets(g, t))
    ensures PairsStored(g, AllSources(g, turns), AllTargets(g, turns))
  {
    if turns != [] {
      var n := |turns| - 1;
      assert turns[n] in turns;
      AllStored(g, turns[..n]);
      ColumnsSnoc(g, turns);
      StoredConcat(g, AllSources(g, turns[..n]), AllTargets(g, turns[..n]), Sources(g, turns[n]), Targets(g, turns[n]));
    }
  }

  lemma StoredConcat(g: Graph, a: seq<nat>, b: seq<nat>, a': seq<nat>, b': seq<nat>)
    requires PairsStored(g, a, b) && PairsStored(g, a', b')
    ensures PairsStored(g, a + a', b + b')
  {
  }

  /** Everything a run records is a stored edge of a requested type. */
  lemma TracedIsStored(g: Graph, start: seq<nat>, fanouts: seq<nat>, o: Options, run: Trace, s: Sample)
    requires Traced(g, start, fanouts, o, run, s)
    ensures PairsStored(g, s.src, s.dst)
  {
    forall t | t in Flatten(run.layers)
      ensures PairsStored(g, Sources(g, t), Targets(g, t))
    {
      var i := TurnOfLayer(g, o, fanouts, run, s.nodes, Full(o.limits.maxEdges, |s.src|), t);
      TurnIsStored(g, o, run.frontiers[i], fanouts[i], t);
    }
    AllStored(g, Flatten(run.layers));
  }

  // ---------------------------------------------------------------- distances

  /** `v` is `h` steps away from a seed. */
  ghost predicate HopsAway(g: Graph, seeds: seq<nat>, v: nat, h: nat)
    decreases h
  {
    if h == 0 then v in seeds else exists u :: HopsAway(g, seeds, u, h - 1) && LeadsTo(g, u, v)
  }

  /** Every listed node is at most `layers` steps away from a seed. */
  ghost predicate Near(g: Graph, seeds: seq<nat>, layers: nat, nodes: seq<nat>) {
    forall x :: x in nodes ==> exists h: nat :: h <= layers && HopsAway(g, seeds, x, h)
  }

  ghost predicate AtHop(g: Graph, seeds: seq<nat>, h: nat, list: seq<nat>) {
    forall x :: x in list ==> HopsAway(g, seeds, x, h)
  }

  lemma HandedOnAtHop(g: Graph, start: seq<nat>, i: nat, o: Options, frontier: seq<nat>, fanout: nat,
                      turns: seq<Turn>, ahead: seq<nat>, nodes: seq<nat>, full: bool)
    requires LayerDone(g, o, frontier, fanout, turns, ahead, nodes, full) && AtHop(g, start, i, frontier)
    ensures AtHop(g, start, i + 1, ahead)
  {
    forall x | x in ahead
      ensures HopsAway(g, start, x, i + 1)
    {
      var j :| 0 <= j < |turns| && x in FarEnds(turns[j]);
      TurnIsRequested(g, turns, full, j);
      TurnIsExplored(g, o, frontier, fanout, turns[j]);
      LedIsFurther(g, start, frontier, i, x);
    }
  }

  lemma LedIsFurther(g: Graph, start: seq<nat>, frontier: seq<nat>, i: nat, x: nat)
    requires AtHop(g, start, i, frontier) && LedFrom(g, frontier, x)
    ensures HopsAway(g, start, x, i + 1)
  {
    var u :| u in frontier && LeadsTo(g, u, x);
    assert HopsAway(g, start, u, i);
  }

  ghost predicate StepsOn(g: Graph, start: seq<nat>, frontiers: seq<seq<nat>>, k: nat) {
    k + 1 < |frontiers| && AtHop(g, start, k, frontiers[k]) ==> AtHop(g, start, k + 1, frontiers[k + 1])
  }

  lemma {:induction false} AllAtHops(g: Graph, start: seq<nat>, frontiers: seq<seq<nat>>, i: nat)
    requires i < |frontiers| && frontiers[0] == start
    requires forall k: nat :: k < i ==> StepsOn(g, start, frontiers, k)
    ensures AtHop(g, start, i, frontiers[i])
  {
    if i > 0 {
      AllAtHops(g, start, frontiers, i - 1);
      assert StepsOn(g, start, frontiers, i - 1);
    }
  }

  lemma FrontierAtHop(g: Graph, start: seq<nat>, fanouts: seq<nat>, o: Options, run: Trace, nodes: seq<nat>, full: bool,
                      i: nat)
    requires LayersTraced(g, o, fanouts, run, nodes, full) && run.frontiers[0] == start && i <= |run.layers|
    ensures AtHop(g, start, i, run.frontiers[i])
  {
    forall k: nat | k < i
      ensures StepsOn(g, start, run.frontiers, k)
    {
      if AtHop(g, start, k, run.frontiers[k]) {
        NextAtHop(g, start, fanouts, o, run, nodes, full, k);
      }
    }
    AllAtHops(g, start, run.frontiers, i);
  }

  lemma NextAtHop(g: Graph, start: seq<nat>, fanouts: seq<nat>, o: Options, run: Trace, nodes: seq<nat>, full: bool,
                  i: nat)
    requires LayersTraced(g, o, fanouts, run, nodes, full) && i < |run.layers| && AtHop(g, start, i, run.frontiers[i])
    ensures AtHop(g, start, i + 1, run.frontiers[i + 1])
  {
    LayerAt(g, o, fanouts, run, nodes, full, i);
    HandedOnAtHop(g, start, i, o, run.frontiers[i], fanouts[i], run.layers[i], run.frontiers[i + 1], nodes, full);
  }

  lemma {:induction false} NodeIsNew(step: (seq<nat>, Turn) -> bool, start: seq<nat>, turns: seq<Turn>, n: nat, x: nat)
    returns (j: nat)
    requires Chained(step, start, turns) && n <= |turns| && x in NodesBefore(start, turns, n) && x !in start
    ensures j < |turns| && x in turns[j].nodes && x !in NodesBefore(start, turns, j)
    ensures step(NodesBefore(start, turns, j), turns[j])
  {
    if x in NodesBefore(start, turns, n - 1) {
      j := NodeIsNew(step, start, turns, n - 1, x);
    } else {
      j := n - 1;
    }
  }

  /** A known node is a seed or an end of a recorded pair. */
  lemma NodeIsEnd(g: Graph, cap: Option<nat>, start: seq<nat>, turns: seq<Turn>, n: nat, x: nat)
    requires NodesGrow(g, cap, start, turns) && n <= |turns| && x in NodesBefore(start, turns, n) && x !in start
    ensures exists t :: t in turns && (x in Sources(g, t) || x in Targets(g, t))
  {
    var j := NodeIsNew(Growth(g, cap), start, turns, n, x);
    GrowthAddsEnds(g, cap, NodesBefore(start, turns, j), turns[j], x);
    assert turns[j] in turns;
  }

  lemma GrowthAddsEnds(g: Graph, cap: Option<nat>, before: seq<nat>, t: Turn, x: nat)
    requires Growth(g, cap)(before, t) && x in t.nodes && x !in before
    ensures x in Sources(g, t) || x in Targets(g, t)
  {
    var i :| 0 <= i < |t.nodes| && t.nodes[i] == x;
    assert i >= |before|;
  }

  /** Every sampled node is within one step per layer of a seed. */
  lemma TracedIsNear(g: Graph, start: seq<nat>, fanouts: seq<nat>, o: Options, run: Trace, s: Sample)
    requires Traced(g, start, fanouts, o, run, s)
    ensures Near(g, start, |fanouts|, s.nodes)
  {
    forall x | x in s.nodes
      ensures exists h: nat :: h <= |fanouts| && HopsAway(g, start, x, h)
    {
      NodeIsNear(g, start, fanouts, o, run, s, x);
    }
  }

  lemma NodeIsNear(g: Graph, start: seq<nat>, fanouts: seq<nat>, o: Options, run: Trace, s: Sample, x: nat)
    requires Traced(g, start, fanouts, o, run, s) && x in s.nodes
    ensures exists h: nat :: h <= |fanouts| && HopsAway(g, start, x, h)
  {
    if x in start {
      assert HopsAway(g, start, x, 0);
    } else {
      var full, turns := Full(o.limits.maxEdges, |s.src|), Flatten(run.layers);
      NodeIsEnd(g, o.limits.maxNodes, start, turns, |turns|, x);
      var t :| t in turns && (x in Sources(g, t) || x in Targets(g, t));
      var i := TurnOfLayer(g, o, fanouts, run, s.nodes, full, t);
      TurnIsExplored(g, o, run.frontiers[i], fanouts[i], t);
      FrontierAtHop(g, start, fanouts, o, run, s.nodes, full, i);
      if x in run.frontiers[i] {
        assert HopsAway(g, start, x, i);
      } else {
        LedIsFurther(g, start, run.frontiers[i], i, x);
      }
    }
  }

  // ---------------------------------------------------------------- budgets

  /** The most pairs that `turns` turns per layer can sample from `width` nodes on. */
  function PairBudget(width: nat, turns: nat, fanouts: seq<nat>): nat
    decreases |fanouts|
  {
    if fanouts == [] then 0
    else
      var added := turns * (width * fanouts[0]);
      added + PairBudget(added, turns, fanouts[1..])
  }

  lemma {:induction false} PairBudgetGrows(small: nat, large: nat, turns: nat, fanouts: seq<nat>)
    requires small <= large
    ensures PairBudget(small, turns, fanouts) <= PairBudget(large, turns, fanouts)
    decreases |fanouts|
  {
    if fanouts != [] {
      TimesGrows(small, large, fanouts[0]);
      LayerGrowsWith(turns, small * fanouts[0], large * fanouts[0]);
      PairBudgetGrows(turns * (small * fanouts[0]), turns * (large * fanouts[0]), turns, fanouts[1..]);
    }
  }

  lemma LayerGrowsWith(turns: nat, a: nat, b: nat)
    requires a <= b
    ensures turns * a <= turns * b
  {
    TimesGrows(a, b, turns);
  }

  lemma {:induction false} CoveredLength(s: seq<nat>, n: nat)
    ensures |Covered(s, n)| <= |s|
  {
    if s != [] {
      CoveredLength(s[..|s| - 1], n);
    }
  }

  ghost predicate NoMoreThan(g: Graph, turns: seq<Turn>, each: nat) {
    forall j :: 0 <= j < |turns| ==> |Sources(g, turns[j])| <= each
  }

  lemma {:induction false} TurnsCost(g: Graph, turns: seq<Turn>, each: nat)
    requires NoMoreThan(g, turns, each)
    ensures |AllSources(g, turns)| <= |turns| * each
  {
    if turns != [] {
      var n := |turns| - 1;
      TurnsCost(g, turns[..n], each);
      ColumnsSnoc(g, turns);
      TimesNext(n, each);
    }
  }

  lemma TurnCosts(g: Graph, o: Options, frontier: seq<nat>, fanout: nat, t: Turn)
    requires IsTurn(g, o, frontier, fanout, t) && o.strategy != All && fanout > 0
    ensures |Sources(g, t)| <= |frontier| * fanout
  {
    CoveredLength(frontier, NumVertices(g.readers[t.reader].csr));
    TimesGrows(|Covered(frontier, NumVertices(g.readers[t.reader].csr))|, |frontier|, fanout);
  }

  lemma {:induction false} FarAsSources(g: Graph, turns: seq<Turn>)
    requires forall j :: 0 <= j < |turns| ==> |turns[j].fan.src| == |turns[j].fan.dst|
    ensures |AllFar(turns)| == |AllSources(g, turns)|
  {
    if turns != [] {
      FarAsSources(g, turns[..|turns| - 1]);
      ColumnsSnoc(g, turns);
    }
  }

  /** One layer: its pairs fit its budget, the next frontier is no wider than its pairs are many. */
  lemma LayerCosts(g: Graph, o: Options, frontier: seq<nat>, fanout: nat, turns: seq<Turn>, ahead: seq<nat>,
                   nodes: seq<nat>, full: bool)
    requires LayerDone(g, o, frontier, fanout, turns, ahead, nodes, full) && o.strategy != All && fanout > 0
    ensures |AllSources(g, turns)| <= |Flatten(g.types)| * (|frontier| * fanout)
    ensures |ahead| <= |AllSources(g, turns)|
  {
    AllTurnsCost(g, o, frontier, fanout, turns, full);
    AreAligned(g, o, frontier, fanout, turns);
    FarAsSources(g, turns);
    AheadIsNarrow(o, turns, nodes, ahead);
  }

  lemma AllTurnsCost(g: Graph, o: Options, frontier: seq<nat>, fanout: nat, turns: seq<Turn>, full: bool)
    requires AreTurns(g, o, frontier, fanout, turns) && Served(turns, Flatten(g.types), full)
    requires o.strategy != All && fanout > 0
    ensures |AllSources(g, turns)| <= |Flatten(g.types)| * (|frontier| * fanout)
  {
    forall j | 0 <= j < |turns|
      ensures |Sources(g, turns[j])| <= |frontier| * fanout
    {
      assert IsTurn(g, o, frontier, fanout, turns[j]);
      TurnCosts(g, o, frontier, fanout, turns[j]);
    }
    ServedCost(g, turns, Flatten(g.types), full, |frontier| * fanout);
  }

  lemma ServedCost(g: Graph, turns: seq<Turn>, order: seq<nat>, full: bool, each: nat)
    requires Served(turns, order, full) && NoMoreThan(g, turns, each)
    ensures |AllSources(g, turns)| <= |order| * each
  {
    TurnsCost(g, turns, each);
    BoundGrows(|AllSources(g, turns)|, |turns|, |order|, each);
  }

  lemma BoundGrows(x: nat, a: nat, b: nat, n: nat)
    requires x <= a * n && a <= b
    ensures x <= b * n
  {
    TimesGrows(a, b, n);
  }

  lemma AreAligned(g: Graph, o: Options, frontier: seq<nat>, fanout: nat, turns: seq<Turn>)
    requires AreTurns(g, o, frontier, fanout, turns)
    ensures forall j :: 0 <= j < |turns| ==> |turns[j].fan.src| == |turns[j].fan.dst|
  {
    forall j | 0 <= j < |turns|
      ensures |turns[j].fan.src| == |turns[j].fan.dst|
    {
      assert IsTurn(g, o, frontier, fanout, turns[j]);
    }
  }

  lemma AheadIsNarrow(o: Options, turns: seq<Turn>, nodes: seq<nat>, ahead: seq<nat>)
    requires HandsOn(o, turns, nodes, ahead)
    ensures |ahead| <= |AllFar(turns)|
  {
    forall x | x in ahead
      ensures x in AllFar(turns)
    {
      InAllFar(turns, x);
    }
    AscendingCount(ahead, AllFar(turns));
  }

  lemma AscendingCount(s: seq<nat>, all: seq<nat>)
    requires Ascending(s) && forall x :: x in s ==> x in all
    ensures |s| <= |all|
  {
    DistinctCard(s);
    assert Elements(s) <= Elements(all);
    SubsetCard(Elements(s), Elements(all));
    ElementsCount(all);
  }

  lemma {:induction false} ElementsCount(s: seq<nat>)
    ensures |Elements(s)| <= |s|
  {
    if s != [] {
      ElementsCount(s[..|s| - 1]);
      assert Elements(s) == Elements(s[..|s| - 1]) + {s[|s| - 1]};
    }
  }

  /** The layers from `i` on. */
  lemma {:induction false} LayersCost(g: Graph, o: Options, fanouts: seq<nat>, run: Trace, nodes: seq<nat>, full: bool,
                                      i: nat)
    requires LayersTraced(g, o, fanouts, run, nodes, full) && i <= |run.layers|
    requires o.strategy != All && 0 !in fanouts
    ensures |AllSources(g, Flatten(run.layers[i..]))|
         <= PairBudget(|run.frontiers[i]|, |Flatten(g.types)|, fanouts[i..])
    decreases |run.layers| - i
  {
    if i < |run.layers| {
      var frontier, width := run.frontiers[i], |Flatten(g.types)|;
      LayerAt(g, o, fanouts, run, nodes, full, i);
      assert fanouts[i] in fanouts;
      LayersCost(g, o, fanouts, run, nodes, full, i + 1);
      LayerCosts(g, o, frontier, fanouts[i], run.layers[i], run.frontiers[i + 1], nodes, full);
      LayersCons(g, run, i);
      assert fanouts[i..][0] == fanouts[i] && fanouts[i..][1..] == fanouts[i + 1..];
      PairBudgetGrows(|run.frontiers[i + 1]|, width * (|frontier| * fanouts[i]), width, fanouts[i + 1..]);
    } else {
      NothingCosts(g, run, i);
    }
  }

  lemma LayersCons(g: Graph, run: Trace, i: nat)
    requires i < |run.layers|
    ensures AllSources(g, Flatten(run.layers[i..]))
         == AllSources(g, run.layers[i]) + AllSources(g, Flatten(run.layers[i + 1..]))
  {
    assert run.layers[i..] == [run.layers[i]] + run.layers[i + 1..];
    FlattenConcat([run.layers[i]], run.layers[i + 1..]);
    FlattenOne([run.layers[i]]);
    ColumnsConcat(g, run.layers[i], Flatten(run.layers[i + 1..]));
  }

  lemma NothingCosts(g: Graph, run: Trace, i: nat)
    requires i == |run.layers|
    ensures AllSources(g, Flatten(run.layers[i..])) == []
  {
  }

  /** Without strategy all and without zero fanouts a run records at most its budget. */
  lemma TracedIsFrugal(g: Graph, start: seq<nat>, fanouts: seq<nat>, o: Options, run: Trace, s: Sample)
    requires Traced(g, start, fanouts, o, run, s) && o.strategy != All && 0 !in fanouts
    ensures |s.src| <= PairBudget(|start|, |Flatten(g.types)|, fanouts)
  {
    LayersCost(g, o, fanouts, run, s.nodes, Full(o.limits.maxEdges, |s.src|), 0);
    assert run.layers[0..] == run.layers && fanouts[0..] == fanouts;
  }

  // ---------------------------------------------------------------- exhaustive sampling

  ghost predicate HasPair(s: Sample, a: nat, b: nat) {
    |s.src| == |s.dst| && exists i :: 0 <= i < |s.src| && s.src[i] == a && s.dst[i] == b
  }

  /** No caps, and every neighbour asked for. */
  predicate Exhaustive(o: Options) {
    o.limits == Limits(None, None) && o.strategy == All
  }

  ghost predicate PairOf(reader: Reader, s: Sample, x: nat, y: nat) {
    if reader.incoming then HasPair(s, y, x) else HasPair(s, x, y)
  }

  ghost predicate EndsKnown(s: Sample) {
    (forall x :: x in s.src ==> x in s.nodes) && (forall x :: x in s.dst ==> x in s.nodes)
  }

  /** Everything exactly `h` steps away is in the list. */
  ghost predicate ListsHop(g: Graph, seeds: seq<nat>, h: nat, list: seq<nat>) {
    forall v :: HopsAway(g, seeds, v, h) ==> v in list
  }

  ghost predicate Aligned(a: seq<seq<nat>>, b: seq<seq<nat>>) {
    |a| == |b| && forall k :: 0 <= k < |a| ==> |a[k]| == |b[k]|
  }

  /** Lists of equal lengths stay aligned when they are laid end to end. */
  lemma {:induction false} FlattenAligned(a: seq<seq<nat>>, b: seq<seq<nat>>)
    requires Aligned(a, b)
    ensures |Flatten(a)| == |Flatten(b)|
  {
    if a != [] {
      FlattenAligned(a[..|a| - 1], b[..|a| - 1]);
    }
  }

  lemma {:induction false} FlattenedPair(a: seq<seq<nat>>, b: seq<seq<nat>>, k: nat, i: nat) returns (m: nat)
    requires Aligned(a, b) && k < |a| && i < |a[k]|
    ensures m < |Flatten(a)| == |Flatten(b)| && Flatten(a)[m] == a[k][i] && Flatten(b)[m] == b[k][i]
  {
    var n := |a| - 1;
    FlattenAligned(a, b);
    FlattenAligned(a[..n], b[..n]);
    if k < n {
      m := FlattenedPair(a[..n], b[..n], k, i);
    } else {
      m := |Flatten(a[..n])| + i;
    }
  }

  /** A whole turn over all neighbours samples every edge that leaves a frontier node through its reader. */
  lemma WholeTurnOpens(g: Graph, o: Options, frontier: seq<nat>, fanout: nat, t: Turn, x: nat, y: nat)
    requires IsTurn(g, o, frontier, fanout, t) && o.strategy == All && x in frontier
    requires Leads(g.readers[t.reader], x, y)
    ensures exists i :: 0 <= i < |t.fan.src| && t.fan.src[i] == x && t.fan.dst[i] == y
  {
    var csr := g.readers[t.reader].csr;
    var valid := Covered(frontier, NumVertices(csr));
    FanOutIsConcatenation(csr, valid, false);
    FanOutHasEdge(csr, valid, false, x, y);
  }

  /** Without a node cap every recorded far end is handed on. */
  lemma LayerHandsOn(g: Graph, o: Options, frontier: seq<nat>, fanout: nat, turns: seq<Turn>, ahead: seq<nat>,
                     nodes: seq<nat>, full: bool, j: nat, m: nat)
    requires LayerDone(g, o, frontier, fanout, turns, ahead, nodes, full) && o.limits.maxNodes.None?
    requires j < |turns| && m < turns[j].kept
    ensures IsTurn(g, o, frontier, fanout, turns[j]) && turns[j].fan.dst[m] in ahead
  {
    assert IsTurn(g, o, frontier, fanout, turns[j]);
    assert FarEnds(turns[j])[m] == turns[j].fan.dst[m];
  }

  lemma TurnsAreAligned(g: Graph, o: Options, fanouts: seq<nat>, run: Trace, nodes: seq<nat>, full: bool)
    requires LayersTraced(g, o, fanouts, run, nodes, full)
    ensures forall t :: t in Flatten(run.layers) ==> |t.fan.src| == |t.fan.dst|
  {
    forall t | t in Flatten(run.layers)
      ensures |t.fan.src| == |t.fan.dst|
    {
      var i := TurnOfLayer(g, o, fanouts, run, nodes, full, t);
    }
  }

  lemma TurnPairInSample(g: Graph, turns: seq<Turn>, s: Sample, t: Turn, m: nat)
    requires s.src == AllSources(g, turns) && s.dst == AllTargets(g, turns)
    requires forall t' :: t' in turns ==> |t'.fan.src| == |t'.fan.dst|
    requires t in turns && t.reader < |g.readers| && m < t.kept <= |t.fan.dst|
    ensures PairOf(g.readers[t.reader], s, t.fan.src[m], t.fan.dst[m])
  {
    var j :| 0 <= j < |turns| && turns[j] == t;
    ColumnsAligned(g, turns);
    var at := FlattenedPair(SourceLists(g, turns), TargetLists(g, turns), j, m);
    assert s.src[at] == Sources(g, t)[m] && s.dst[at] == Targets(g, t)[m];
  }

  lemma ColumnsAligned(g: Graph, turns: seq<Turn>)
    requires forall t :: t in turns ==> |t.fan.src| == |t.fan.dst|
    ensures Aligned(SourceLists(g, turns), TargetLists(g, turns))
  {
    forall k | 0 <= k < |turns|
      ensures |Sources(g, turns[k])| == |Targets(g, turns[k])|
    {
      assert turns[k] in turns;
    }
  }

  lemma TracedPair(g: Graph, start: seq<nat>, fanouts: seq<nat>, o: Options, run: Trace, s: Sample, t: Turn, m: nat)
    requires Traced(g, start, fanouts, o, run, s) && t in Flatten(run.layers)
    requires t.reader < |g.readers| && m < t.kept <= |t.fan.dst| == |t.fan.src|
    ensures PairOf(g.readers[t.reader], s, t.fan.src[m], t.fan.dst[m])
  {
    TurnsAreAligned(g, o, fanouts, run, s.nodes, Full(o.limits.maxEdges, |s.src|));
    TurnPairInSample(g, Flatten(run.layers), s, t, m);
  }

  /** The turn of a layer that is not cut short by the edge cap and serves reader `k`. */
  lemma TurnServing(g: Graph, o: Options, frontier: seq<nat>, fanout: nat, turns: seq<Turn>, ahead: seq<nat>,
                    nodes: seq<nat>, p: nat, q: nat) returns (j: nat)
    requires LayerDone(g, o, frontier, fanout, turns, ahead, nodes, false) && p < |g.types| && q < |g.types[p]|
    ensures j < |turns| && turns[j].reader == g.types[p][q] && IsTurn(g, o, frontier, fanout, turns[j])
  {
    InFlatten(g.types, g.types[p][q]);
    assert g.types[p][q] in g.types[p];
    j :| 0 <= j < |Flatten(g.types)| && Flatten(g.types)[j] == g.types[p][q];
    assert IsTurn(g, o, frontier, fanout, turns[j]);
  }

  /** So an uncapped exhaustive layer hands on and records all that its frontier leads to. */
  lemma LayerOpens(g: Graph, o: Options, fanouts: seq<nat>, run: Trace, s: Sample, start: seq<nat>, i: nat, p: nat,
                   q: nat, x: nat, y: nat)
    requires Traced(g, start, fanouts, o, run, s) && Exhaustive(o) && i < |run.layers| && x in run.frontiers[i]
    requires p < |g.types| && q < |g.types[p]| && g.types[p][q] < |g.readers| && Leads(g.readers[g.types[p][q]], x, y)
    ensures y in run.frontiers[i + 1] && PairOf(g.readers[g.types[p][q]], s, x, y)
  {
    LayerAt(g, o, fanouts, run, s.nodes, false, i);
    var frontier, ahead, turns := run.frontiers[i], run.frontiers[i + 1], run.layers[i];
    var j := TurnServing(g, o, frontier, fanouts[i], turns, ahead, s.nodes, p, q);
    WholeTurnOpens(g, o, frontier, fanouts[i], turns[j], x, y);
    var m :| 0 <= m < |turns[j].fan.src| && turns[j].fan.src[m] == x && turns[j].fan.dst[m] == y;
    TurnIsWhole(g, start, fanouts, o, run, s, i, j);
    LayerHandsOn(g, o, frontier, fanouts[i], turns, ahead, s.nodes, false, j, m);
    TracedPair(g, start, fanouts, o, run, s, turns[j], m);
  }

  /** Without an edge cap every turn is recorded whole. */
  lemma TurnIsWhole(g: Graph, start: seq<nat>, fanouts: seq<nat>, o: Options, run: Trace, s: Sample, i: nat, j: nat)
    requires Traced(g, start, fanouts, o, run, s) && o.limits.maxEdges.None? && i < |run.layers| && j < |run.layers[i]|
    ensures run.layers[i][j] in Flatten(run.layers) && run.layers[i][j].kept == |run.layers[i][j].fan.dst|
  {
    InFlatten(run.layers, run.layers[i][j]);
  }

  /** If frontier `k` lists all that is `k` steps away, so does the next one step further. */
  ghost predicate Advances(g: Graph, start: seq<nat>, frontiers: seq<seq<nat>>, k: nat) {
    k + 1 < |frontiers| && ListsHop(g, start, k, frontiers[k]) ==> ListsHop(g, start, k + 1, frontiers[k + 1])
  }

  lemma {:induction false} AllListHops(g: Graph, start: seq<nat>, frontiers: seq<seq<nat>>, i: nat)
    requires i < |frontiers| && frontiers[0] == start
    requires forall k: nat :: k < i ==> Advances(g, start, frontiers, k)
    ensures ListsHop(g, start, i, frontiers[i])
  {
    if i == 0 {
      SeedsListed(g, start);
    } else {
      AllListHops(g, start, frontiers, i - 1);
      assert Advances(g, start, frontiers, i - 1);
    }
  }

  lemma FrontierListsHop(g: Graph, start: seq<nat>, fanouts: seq<nat>, o: Options, run: Trace, s: Sample, i: nat)
    requires Traced(g, start, fanouts, o, run, s) && Exhaustive(o) && i <= |run.layers|
    ensures ListsHop(g, start, i, run.frontiers[i])
  {
    forall k: nat | k < i
      ensures Advances(g, start, run.frontiers, k)
    {
      if ListsHop(g, start, k, run.frontiers[k]) {
        NextListsHop(g, start, fanouts, o, run, s, k);
      }
    }
    AllListHops(g, start, run.frontiers, i);
  }

  lemma SeedsListed(g: Graph, start: seq<nat>)
    ensures ListsHop(g, start, 0, start)
  {
  }

  lemma NextListsHop(g: Graph, start: seq<nat>, fanouts: seq<nat>, o: Options, run: Trace, s: Sample, i: nat)
    requires Traced(g, start, fanouts, o, run, s) && Exhaustive(o) && i < |run.layers|
    requires ListsHop(g, start, i, run.frontiers[i])
    ensures ListsHop(g, start, i + 1, run.frontiers[i + 1])
  {
    var h := i + 1;
    forall v | HopsAway(g, start, v, h)
      ensures v in run.frontiers[h]
    {
      var u :| HopsAway(g, start, u, i) && LeadsTo(g, u, v);
      LedIsHandedOn(g, o, fanouts, run, s, start, i, u, v);
    }
  }

  lemma LedIsHandedOn(g: Graph, o: Options, fanouts: seq<nat>, run: Trace, s: Sample, start: seq<nat>, i: nat, u: nat,
                      v: nat)
    requires Traced(g, start, fanouts, o, run, s) && Exhaustive(o) && i < |run.layers| && u in run.frontiers[i]
    requires LeadsTo(g, u, v)
    ensures v in run.frontiers[i + 1]
  {
    var p, q :| 0 <= p < |g.types| && 0 <= q < |g.types[p]| && g.types[p][q] < |g.readers|
      && Leads(g.readers[g.types[p][q]], u, v);
    LayerOpens(g, o, fanouts, run, s, start, i, p, q, u, v);
  }

  lemma {:induction false} NothingFurther(g: Graph, seeds: seq<nat>, h: nat, k: nat)
    requires h <= k && ListsHop(g, seeds, h, [])
    ensures ListsHop(g, seeds, k, [])
  {
    if h < k {
      NothingFurther(g, seeds, h, k - 1);
    }
  }

  /** An uncapped exhaustive run records every edge that leaves a node fewer steps from a seed than there are layers. */
  lemma TracedIsExhaustive(g: Graph, start: seq<nat>, fanouts: seq<nat>, o: Options, run: Trace, s: Sample, h: nat,
                           p: nat, q: nat, u: nat, v: nat)
    requires Traced(g, start, fanouts, o, run, s) && Ends(run, |fanouts|) && Exhaustive(o)
    requires h < |fanouts| && HopsAway(g, start, u, h) && p < |g.types| && q < |g.types[p]|
    requires g.types[p][q] < |g.readers| && Leads(g.readers[g.types[p][q]], u, v)
    ensures PairOf(g.readers[g.types[p][q]], s, u, v)
  {
    var n := |run.layers|;
    if h < n {
      FrontierListsHop(g, start, fanouts, o, run, s, h);
      LayerOpens(g, o, fanouts, run, s, start, h, p, q, u, v);
    } else {
      FrontierListsHop(g, start, fanouts, o, run, s, n);
      NothingFurther(g, start, n, h);
    }
  }

  ghost predicate Listed(nodes: seq<nat>, pairs: seq<(nat, nat)>, a: nat, b: nat) {
    exists k :: 0 <= k < |pairs| && pairs[k].0 < |nodes| && pairs[k].1 < |nodes| && nodes[pairs[k].0] == a
        && nodes[pairs[k].1] == b
  }

  /** Every edge that leaves a node fewer than `layers` steps from a seed is among the relabelled pairs. */
  ghost predicate BallListed(g: Graph, seeds: seq<nat>, layers: nat, nodes: seq<nat>, pairs: seq<(nat, nat)>) {
    forall h: nat, u, i, j, v ::
      h < layers && HopsAway(g, seeds, u, h) && 0 <= i < |g.types| && 0 <= j < |g.types[i]|
          && g.types[i][j] < |g.readers|
      && Leads(g.readers[g.types[i][j]], u, v) ==>
        if g.readers[g.types[i][j]].incoming then Listed(nodes, pairs, v, u) else Listed(nodes, pairs, u, v)
  }

  lemma PairIsListed(nodes: seq<nat>, s: Sample, a: nat, b: nat)
    requires EndsKnown(s) && nodes == s.nodes && |s.src| == |s.dst| && HasPair(s, a, b)
    ensures Listed(nodes, Relabelled(nodes, s.src, s.dst), a, b)
  {
    var i :| 0 <= i < |s.src| && s.src[i] == a && s.dst[i] == b;
    RelabelledKeepsAll(nodes, s.src, s.dst);
    var k := Relabelled(nodes, s.src, s.dst)[i];
    assert nodes[k.0] == a && nodes[k.1] == b;
  }

  lemma TracedBallListed(g: Graph, start: seq<nat>, fanouts: seq<nat>, o: Options, run: Trace, s: Sample)
    requires Traced(g, start, fanouts, o, run, s) && Ends(run, |fanouts|) && Exhaustive(o) && |s.src| == |s.dst|
    ensures BallListed(g, start, |fanouts|, s.nodes, Relabelled(s.nodes, s.src, s.dst))
  {
    assert EndsKnown(s);
    forall h: nat, u, i, j, v |
      h < |fanouts| && HopsAway(g, start, u, h) && 0 <= i < |g.types| && 0 <= j < |g.types[i]|
          && g.types[i][j] < |g.readers|
      && Leads(g.readers[g.types[i][j]], u, v)
      ensures var pairs := Relabelled(s.nodes, s.src, s.dst);
        if g.readers[g.types[i][j]].incoming then Listed(s.nodes, pairs, v, u) else Listed(s.nodes, pairs, u, v)
    {
      TracedIsExhaustive(g, start, fanouts, o, run, s, h, i, j, u, v);
      PairOfIsListed(g.readers[g.types[i][j]], s, u, v);
    }
  }

  lemma PairOfIsListed(reader: Reader, s: Sample, u: nat, v: nat)
    requires EndsKnown(s) && |s.src| == |s.dst| && PairOf(reader, s, u, v)
    ensures var pairs := Relabelled(s.nodes, s.src, s.dst);
      if reader.incoming then Listed(s.nodes, pairs, v, u) else Listed(s.nodes, pairs, u, v)
  {
    if reader.incoming {
      PairIsListed(s.nodes, s, v, u);
    } else {
      PairIsListed(s.nodes, s, u, v);
    }
  }

  /** Every relabelled pair is a stored edge between the two nodes it names. */
  ghost predicate PairsMapBack(g: Graph, nodes: seq<nat>, pairs: seq<(nat, nat)>) {
    forall k :: 0 <= k < |pairs| ==>
      pairs[k].0 < |nodes| && pairs[k].1 < |nodes| && Stored(g, nodes[pairs[k].0], nodes[pairs[k].1])
  }

  lemma RelabelledAreStored(g: Graph, nodes: seq<nat>, src: seq<nat>, dst: seq<nat>)
    requires PairsStored(g, src, dst)
    ensures PairsMapBack(g, nodes, Relabelled(nodes, src, dst)) && |Relabelled(nodes, src, dst)| <= |src|
  {
    var out := Relabelled(nodes, src, dst);
    RelabelledCount(nodes, src, dst);
    forall k | 0 <= k < |out|
      ensures out[k].0 < |nodes| && out[k].1 < |nodes| && Stored(g, nodes[out[k].0], nodes[out[k].1])
    {
      RelabelledMapsBack(nodes, src, dst, k);
    }
  }

  /** A reader built from an edge table, with or without edge ids, holds exactly the table's edges. */
  lemma ReaderHoldsTable(reader: Reader, src: seq<nat>, dst: seq<nat>, eids: Option<seq<nat>>, n: nat, a: nat, b: nat)
    requires |src| == |dst| && (eids.Some? ==> |eids.value| == |src|)
    requires if reader.incoming then Represents(reader.csr, dst, src, eids, n)
      else Represents(reader.csr, src, dst, eids, n)
    ensures HoldsEdge(reader, a, b) <==> exists k :: 0 <= k < |src| && src[k] == a && dst[k] == b
  {
    if reader.incoming {
      BuiltHoldsRow(reader.csr, dst, src, eids, n, b, a);
    } else {
      BuiltHoldsRow(reader.csr, src, dst, eids, n, a, b);
    }
  }

  lemma BuiltHoldsRow(csr: Csr, src: seq<nat>, dst: seq<nat>, eids: Option<seq<nat>>, n: nat, v: nat, w: nat)
    requires |src| == |dst| && (eids.Some? ==> |eids.value| == |src|) && Represents(csr, src, dst, eids, n)
    ensures Readable(csr)
    ensures v < NumVertices(csr) && w in Neighbors(csr, v) <==> exists k :: 0 <= k < |src| && src[k] == v && dst[k] == w
  {
    BuiltIsReadable(csr, src, dst, eids, n);
    LayoutBoundsKeys(csr, src, dst, eids, n);
    OutgoingIsRow(src, dst, v, w);
    if v < n {
      assert NeighborsOf(csr, v) == Ok(Outgoing(src, dst, v));
    }
  }
}
