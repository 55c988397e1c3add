/** What a run of the GNN neighbourhood sampler leaves behind, layer by layer (api.py `_sample_gnn_subgraph`). */
module SampleTrace {
  import opened Results
  import opened Walks
  import opened Seqs
  import opened CsrBuilder
  import opened CsrReader
  import opened CsrSampling

  /** A reader of one relation; an incoming one lists sources under targets. */
  datatype Reader = Reader(csr: Csr, incoming: bool)

  datatype Limits = Limits(maxNodes: Option<nat>, maxEdges: Option<nat>)

  /** The readers, and for each requested edge type the positions of those that serve it. */
  datatype Graph = Graph(readers: seq<Reader>, types: seq<seq<nat>>)

  /** How to sample: with or without repeats, by which strategy, up to which caps. */
  datatype Options = Options(replace: bool, strategy: Strategy, limits: Limits)

  /** The growing subgraph: nodes in order of discovery, sampled pairs source to target. */
  datatype Sample = Sample(nodes: seq<nat>, src: seq<nat>, dst: seq<nat>)

  predicate Within(cap: Option<nat>, n: nat) {
    cap.Some? ==> n <= cap.value
  }

  /** No more may be added. */
  predicate Full(cap: Option<nat>, n: nat) {
    cap.Some? && n >= cap.value
  }

  ghost predicate Ascending(s: seq<nat>) {
    forall i, j :: 0 <= i < j < |s| ==> s[i] < s[j]
  }

  /** The nodes below `n`, in order. */
  function Covered(s: seq<nat>, n: nat): (r: seq<nat>)
    ensures AllBelow(r, n) && forall x :: x in r <==> x in s && x < n
  {
    if s == [] then []
    else
      assert s == s[..|s| - 1] + [s[|s| - 1]];
      Covered(s[..|s| - 1], n) + if s[|s| - 1] < n then [s[|s| - 1]] else []
  }

  // ---------------------------------------------------------------- one reader's turn

  function Room(limits: Limits, s: Sample): Option<int> {
    if limits.maxEdges.None? then None else Some(limits.maxEdges.value - |s.src|)
  }

  /** What a call to `batch_neighbors` may return for these seeds. */
  ghost predicate IsSample(csr: Csr, vids: seq<nat>, fanout: nat, replace: bool, strategy: Strategy, fan: Fan) {
    && Readable(csr) && AllBelow(vids, NumVertices(csr)) && Distinct(vids) && OnlyEdges(csr, vids, fan)
    && (fanout == 0 || strategy == All ==>
          fan.src == Repeat(vids, Degrees(csr, vids)) && fan.dst == Flatten(Lists(csr, csr.neighbors, vids)))
    && (fanout > 0 && strategy != All ==> |fan.src| <= |vids| * fanout)
    && (fanout > 0 && strategy != All ==> HasSlots(csr, vids, fan, fanout, replace, strategy))
  }

  /** The part of the sampled pairs that the edge cap leaves room for. */
  function Cut(limits: Limits, s: Sample, column: seq<nat>): seq<nat> {
    var room := Room(limits, s);
    if room.Some? && 0 <= room.value < |column| then column[..room.value] else column
  }

  /** One reader's turn, given what it sampled: nothing to do, no room left, or the cut pairs recorded. */
  ghost predicate Visited(reader: Reader, limits: Limits, s: Sample, fan: Fan, s': Sample, next: seq<nat>, stop: bool) {
    if fan.dst == [] then s' == s && next == [] && !stop
    else if Room(limits, s).Some? && Room(limits, s).value <= 0 then s' == s && next == [] && stop
    else
      && s'.src == s.src + Cut(limits, s, if reader.incoming then fan.dst else fan.src)
      && s'.dst == s.dst + Cut(limits, s, if reader.incoming then fan.src else fan.dst)
      && next == Cut(limits, s, fan.dst)
      && (stop <==> limits.maxEdges.Some? && |s'.src| >= limits.maxEdges.value)
  }

  /**
    One reader's turn: what it sampled, how many of the pairs were recorded, and the
    nodes known afterwards.
    */
  datatype Turn = Turn(reader: nat, fan: Fan, kept: nat, nodes: seq<nat>)

  ghost predicate IsTurn(g: Graph, o: Options, frontier: seq<nat>, fanout: nat, t: Turn) {
    && t.reader < |g.readers| && |t.fan.src| == |t.fan.dst| && t.kept <= |t.fan.dst|
    && var csr := g.readers[t.reader].csr;
       Readable(csr) && IsSample(csr, Covered(frontier, NumVertices(csr)), fanout, o.replace, o.strategy, t.fan)
  }

  ghost predicate AreTurns(g: Graph, o: Options, frontier: seq<nat>, fanout: nat, turns: seq<Turn>) {
    forall j :: 0 <= j < |turns| ==> IsTurn(g, o, frontier, fanout, turns[j])
  }

  lemma TurnsConcat(g: Graph, o: Options, frontier: seq<nat>, fanout: nat, a: seq<Turn>, b: seq<Turn>)
    requires AreTurns(g, o, frontier, fanout, a) && AreTurns(g, o, frontier, fanout, b)
    ensures AreTurns(g, o, frontier, fanout, a + b) && AreCut(a) && AreCut(b)
  {
  }

  /** No turn records more than was sampled. */
  ghost predicate AreCut(turns: seq<Turn>) {
    forall j :: 0 <= j < |turns| ==> turns[j].kept <= |turns[j].fan.dst|
  }

  lemma CutConcat(a: seq<Turn>, b: seq<Turn>)
    requires AreCut(a) && AreCut(b)
    ensures AreCut(a + b)
  {
  }

  function Prefix(s: seq<nat>, n: nat): seq<nat> {
    if n <= |s| then s[..n] else s
  }

  /** The recorded sources and targets of a turn; an incoming reader lists them the other way round. */
  function Sources(g: Graph, t: Turn): seq<nat> {
    Prefix(if t.reader < |g.readers| && g.readers[t.reader].incoming then t.fan.dst else t.fan.src, t.kept)
  }

  function Targets(g: Graph, t: Turn): seq<nat> {
    Prefix(if t.reader < |g.readers| && g.readers[t.reader].incoming then t.fan.src else t.fan.dst, t.kept)
  }

  /** The far ends of the recorded pairs, seen from the frontier. */
  function FarEnds(t: Turn): seq<nat> {
    Prefix(t.fan.dst, t.kept)
  }

  function SourceLists(g: Graph, turns: seq<Turn>): (r: seq<seq<nat>>)
    ensures |r| == |turns| && forall j :: 0 <= j < |r| ==> r[j] == Sources(g, turns[j])
  {
    seq(|turns|, j requires 0 <= j < |turns| => Sources(g, turns[j]))
  }

  function TargetLists(g: Graph, turns: seq<Turn>): (r: seq<seq<nat>>)
    ensures |r| == |turns| && forall j :: 0 <= j < |r| ==> r[j] == Targets(g, turns[j])
  {
    seq(|turns|, j requires 0 <= j < |turns| => Targets(g, turns[j]))
  }

  function FarLists(turns: seq<Turn>): (r: seq<seq<nat>>)
    ensures |r| == |turns| && forall j :: 0 <= j < |r| ==> r[j] == FarEnds(turns[j])
  {
    seq(|turns|, j requires 0 <= j < |turns| => FarEnds(turns[j]))
  }

  /** The columns of all turns, end to end. */
  function AllSources(g: Graph, turns: seq<Turn>): seq<nat> {
    Flatten(SourceLists(g, turns))
  }

  function AllTargets(g: Graph, turns: seq<Turn>): seq<nat> {
    Flatten(TargetLists(g, turns))
  }

  function AllFar(turns: seq<Turn>): seq<nat> {
    Flatten(FarLists(turns))
  }

  lemma ColumnsConcat(g: Graph, a: seq<Turn>, b: seq<Turn>)
    ensures AllSources(g, a + b) == AllSources(g, a) + AllSources(g, b)
    ensures AllTargets(g, a + b) == AllTargets(g, a) + AllTargets(g, b)
    ensures AllFar(a + b) == AllFar(a) + AllFar(b)
  {
    assert SourceLists(g, a + b) == SourceLists(g, a) + SourceLists(g, b);
    assert TargetLists(g, a + b) == TargetLists(g, a) + TargetLists(g, b);
    assert FarLists(a + b) == FarLists(a) + FarLists(b);
    FlattenConcat(SourceLists(g, a), SourceLists(g, b));
    FlattenConcat(TargetLists(g, a), TargetLists(g, b));
    FlattenConcat(FarLists(a), FarLists(b));
  }

  lemma ColumnsSnoc(g: Graph, turns: seq<Turn>)
    requires turns != []
    ensures var n := |turns| - 1;
      && AllSources(g, turns) == AllSources(g, turns[..n]) + Sources(g, turns[n])
      && AllTargets(g, turns) == AllTargets(g, turns[..n]) + Targets(g, turns[n])
      && AllFar(turns) == AllFar(turns[..n]) + FarEnds(turns[n])
  {
    var n := |turns| - 1;
    assert SourceLists(g, turns)[..n] == SourceLists(g, turns[..n]);
    assert TargetLists(g, turns)[..n] == TargetLists(g, turns[..n]);
    assert FarLists(turns)[..n] == FarLists(turns[..n]);
  }

  lemma ColumnsOfOne(g: Graph, t: Turn)
    ensures AllSources(g, [t]) == Sources(g, t) && AllTargets(g, [t]) == Targets(g, t) && AllFar([t]) == FarEnds(t)
  {
    FlattenOne(SourceLists(g, [t]));
    FlattenOne(TargetLists(g, [t]));
    FlattenOne(FarLists([t]));
  }

  lemma FlattenOne<T>(lists: seq<seq<T>>)
    requires |lists| == 1
    ensures Flatten(lists) == lists[0]
  {
    assert lists[..0] == [];
  }

  // ---------------------------------------------------------------- the edge cap

  ghost predicate WhollyKept(turns: seq<Turn>) {
    forall j :: 0 <= j < |turns| ==> turns[j].kept == |turns[j].fan.dst|
  }

  ghost predicate NothingKept(turns: seq<Turn>) {
    forall j :: 0 <= j < |turns| ==> turns[j].kept == 0
  }

  /** After a turn that was cut short nothing more is recorded. */
  ghost predicate KeptInOrder(turns: seq<Turn>) {
    forall i, j :: 0 <= i < j < |turns| && turns[i].kept < |turns[i].fan.dst| ==> turns[j].kept == 0
  }

  /** Turns are cut only by the edge cap: none before it is reached, all after it. */
  ghost predicate CutByCap(cap: Option<nat>, before: nat, turns: seq<Turn>, after: nat) {
    && KeptInOrder(turns) && before <= after
    && (Full(cap, before) ==> NothingKept(turns))
    && (!Full(cap, after) ==> WhollyKept(turns))
  }

  lemma CutMore(cap: Option<nat>, before: nat, a: seq<Turn>, between: nat, b: seq<Turn>, after: nat)
    requires CutByCap(cap, before, a, between) && CutByCap(cap, between, b, after)
    requires AreCut(a)
    ensures CutByCap(cap, before, a + b, after)
  {
    forall i, j | 0 <= i < j < |a + b| && (a + b)[i].kept < |(a + b)[i].fan.dst|
      ensures (a + b)[j].kept == 0
    {
      if i < |a| <= j {
        assert !WhollyKept(a);
        assert b[j - |a|].kept == 0;
      }
    }
  }

  // ---------------------------------------------------------------- the node cap

  /** The new ends are added in ascending order, all of them or the smallest until the cap. */
  ghost predicate Grown(cap: Option<nat>, nodes: seq<nat>, ends: seq<nat>, out: seq<nat>) {
    && nodes <= out
    && (forall i, j :: |nodes| <= i < j < |out| ==> out[i] < out[j])
    && (forall i :: |nodes| <= i < |out| ==> out[i] in ends && out[i] !in nodes)
    && (forall y :: y in ends ==> y in out || (Full(cap, |out|) && forall i :: |nodes| <= i < |out| ==> out[i] < y))
  }

  function NodesBefore(start: seq<nat>, turns: seq<Turn>, j: nat): seq<nat>
    requires j <= |turns|
  {
    if j == 0 then start else turns[j - 1].nodes
  }

  /** What a turn may do to the known nodes. */
  ghost function Growth(g: Graph, cap: Option<nat>): (seq<nat>, Turn) -> bool {
    (nodes, t) => Grown(cap, nodes, Sources(g, t) + Targets(g, t), t.nodes)
  }

  /** Each turn continues from the nodes the one before it left. */
  ghost predicate Chained(step: (seq<nat>, Turn) -> bool, start: seq<nat>, turns: seq<Turn>) {
    forall j :: 0 <= j < |turns| ==> step(NodesBefore(start, turns, j), turns[j])
  }

  ghost predicate NodesGrow(g: Graph, cap: Option<nat>, start: seq<nat>, turns: seq<Turn>) {
    Chained(Growth(g, cap), start, turns)
  }

  lemma NodesBeforeConcat(start: seq<nat>, a: seq<Turn>, b: seq<Turn>, j: nat)
    requires j <= |a| + |b|
    ensures NodesBefore(start, a + b, j)
      == if j <= |a| then NodesBefore(start, a, j) else NodesBefore(NodesBefore(start, a, |a|), b, j - |a|)
  {
  }

  lemma ChainedMore(step: (seq<nat>, Turn) -> bool, start: seq<nat>, a: seq<Turn>, b: seq<Turn>)
    requires Chained(step, start, a) && Chained(step, NodesBefore(start, a, |a|), b)
    ensures Chained(step, start, a + b)
  {
    forall j | 0 <= j < |a + b|
      ensures step(NodesBefore(start, a + b, j), (a + b)[j])
    {
      ChainedAt(step, start, a, b, j);
    }
  }

  lemma NodesAfterBoth(start: seq<nat>, a: seq<Turn>, b: seq<Turn>)
    ensures NodesBefore(start, a + b, |a + b|) == NodesBefore(NodesBefore(start, a, |a|), b, |b|)
  {
    NodesBeforeConcat(start, a, b, |a + b|);
  }

  lemma ChainedAt(step: (seq<nat>, Turn) -> bool, start: seq<nat>, a: seq<Turn>, b: seq<Turn>, j: nat)
    requires Chained(step, start, a) && Chained(step, NodesBefore(start, a, |a|), b) && j < |a| + |b|
    ensures step(NodesBefore(start, a + b, j), (a + b)[j])
  {
    NodesBeforeConcat(start, a, b, j);
    if j < |a| {
      assert step(NodesBefore(start, a, j), a[j]);
    } else {
      assert step(NodesBefore(NodesBefore(start, a, |a|), b, j - |a|), b[j - |a|]);
    }
  }

  /** Each of the ends is a node, unless the cap is reached. */
  ghost predicate Admitted(cap: Option<nat>, ends: seq<nat>, nodes: seq<nat>) {
    forall y :: y in ends ==> y in nodes || Full(cap, |nodes|)
  }

  lemma AdmittedLater(cap: Option<nat>, ends: seq<nat>, nodes: seq<nat>, more: seq<nat>)
    requires Admitted(cap, ends, nodes) && nodes <= more
    ensures Admitted(cap, ends, more)
  {
    forall y | y in ends && !Full(cap, |more|)
      ensures y in more
    {
      var i :| 0 <= i < |nodes| && nodes[i] == y;
      assert more[i] == y;
    }
  }

  // ---------------------------------------------------------------- several turns

  /** These turns, taken from the frontier, lead from one sample to the other. */
  ghost predicate Took(g: Graph, o: Options, frontier: seq<nat>, fanout: nat, before: Sample, turns: seq<Turn>,
                       s: Sample, next: seq<nat>) {
    && AreTurns(g, o, frontier, fanout, turns)
    && Added(g, before.src, before.dst, turns, s.src, s.dst, next)
    && CutByCap(o.limits.maxEdges, |before.src|, turns, |s.src|)
    && Enlarged(g, o.limits.maxNodes, before.nodes, turns, s.nodes, AllSources(g, turns), AllTargets(g, turns))
  }

  ghost predicate Added(g: Graph, src: seq<nat>, dst: seq<nat>, turns: seq<Turn>, src': seq<nat>, dst': seq<nat>,
                        far: seq<nat>) {
    src' == src + AllSources(g, turns) && dst' == dst + AllTargets(g, turns) && far == AllFar(turns)
  }

  ghost predicate Enlarged(g: Graph, cap: Option<nat>, nodes: seq<nat>, turns: seq<Turn>, nodes': seq<nat>,
                           src: seq<nat>, dst: seq<nat>) {
    && NodesGrow(g, cap, nodes, turns) && nodes' == NodesBefore(nodes, turns, |turns|)
    && nodes <= nodes' && Admitted(cap, src, nodes') && Admitted(cap, dst, nodes')
  }

  lemma AddedMore(g: Graph, src: seq<nat>, dst: seq<nat>, a: seq<Turn>, src': seq<nat>, dst': seq<nat>, far: seq<nat>,
                  b: seq<Turn>, src'': seq<nat>, dst'': seq<nat>, more: seq<nat>)
    requires Added(g, src, dst, a, src', dst', far) && Added(g, src', dst', b, src'', dst'', more)
    ensures Added(g, src, dst, a + b, src'', dst'', far + more)
  {
    ColumnsConcat(g, a, b);
    AppendTwice(src, AllSources(g, a), AllSources(g, b), src', src'');
    AppendTwice(dst, AllTargets(g, a), AllTargets(g, b), dst', dst'');
  }

  lemma AppendTwice(base: seq<nat>, x: seq<nat>, y: seq<nat>, once: seq<nat>, twice: seq<nat>)
    requires once == base + x && twice == once + y
    ensures twice == base + (x + y)
  {
  }

  lemma EnlargedMore(g: Graph, cap: Option<nat>, nodes: seq<nat>, a: seq<Turn>, nodes': seq<nat>, src: seq<nat>,
                     dst: seq<nat>, b: seq<Turn>, nodes'': seq<nat>, src': seq<nat>, dst': seq<nat>)
    requires Enlarged(g, cap, nodes, a, nodes', src, dst) && Enlarged(g, cap, nodes', b, nodes'', src', dst')
    ensures Enlarged(g, cap, nodes, a + b, nodes'', src + src', dst + dst')
  {
    ChainedMore(Growth(g, cap), nodes, a, b);
    NodesAfterBoth(nodes, a, b);
    AdmittedLater(cap, src, nodes', nodes'');
    AdmittedLater(cap, dst, nodes', nodes'');
  }

  /** The turn of a reader that sampled `fan` and recorded as many pairs as it handed on. */
  function TurnOf(k: nat, fan: Fan, next: seq<nat>, t: Sample): Turn {
    Turn(k, fan, |next|, t.nodes)
  }

  lemma VisitedColumns(g: Graph, limits: Limits, k: nat, fan: Fan, s: Sample, t: Sample, next: seq<nat>, stop: bool)
    requires k < |g.readers| && |fan.src| == |fan.dst| && Visited(g.readers[k], limits, s, fan, t, next, stop)
    ensures var turn := TurnOf(k, fan, next, t);
      && |next| <= |fan.dst| && next == FarEnds(turn)
      && t.src == s.src + Sources(g, turn) && t.dst == s.dst + Targets(g, turn)
    ensures |t.src| == |s.src| + |next|
    ensures Full(limits.maxEdges, |s.src|) ==> next == []
    ensures !Full(limits.maxEdges, |t.src|) ==> |next| == |fan.dst|
    ensures stop ==> Full(limits.maxEdges, |t.src|)
  {
  }

  lemma TookOne(g: Graph, o: Options, frontier: seq<nat>, fanout: nat, t: Turn, s: Sample, s': Sample, next: seq<nat>)
    requires IsTurn(g, o, frontier, fanout, t) && next == FarEnds(t) && s'.nodes == t.nodes
    requires s'.src == s.src + Sources(g, t) && s'.dst == s.dst + Targets(g, t) && |s'.src| == |s.src| + t.kept
    requires Full(o.limits.maxEdges, |s.src|) ==> t.kept == 0
    requires !Full(o.limits.maxEdges, |s'.src|) ==> t.kept == |t.fan.dst|
    requires Growth(g, o.limits.maxNodes)(s.nodes, t)
    ensures Took(g, o, frontier, fanout, s, [t], s', next)
  {
    ColumnsOfOne(g, t);
    GrowthKeeps(g, o.limits.maxNodes, s.nodes, t);
    OneIsChained(Growth(g, o.limits.maxNodes), s.nodes, t);
    assert Enlarged(g, o.limits.maxNodes, s.nodes, [t], s'.nodes, Sources(g, t), Targets(g, t));
    assert CutByCap(o.limits.maxEdges, |s.src|, [t], |s'.src|);
  }

  lemma GrowthKeeps(g: Graph, cap: Option<nat>, nodes: seq<nat>, t: Turn)
    requires Growth(g, cap)(nodes, t)
    ensures nodes <= t.nodes && Admitted(cap, Sources(g, t), t.nodes) && Admitted(cap, Targets(g, t), t.nodes)
  {
    assert forall y :: y in Sources(g, t) || y in Targets(g, t) ==> y in Sources(g, t) + Targets(g, t);
  }

  lemma OneIsChained(step: (seq<nat>, Turn) -> bool, start: seq<nat>, t: Turn)
    requires step(start, t)
    ensures Chained(step, start, [t])
  {
  }

  lemma TookNothing(g: Graph, o: Options, frontier: seq<nat>, fanout: nat, s: Sample)
    ensures Took(g, o, frontier, fanout, s, [], s, [])
  {
  }

  lemma TookMore(g: Graph, o: Options, frontier: seq<nat>, fanout: nat, before: Sample, a: seq<Turn>, s: Sample,
                 next: seq<nat>, b: seq<Turn>, t: Sample, more: seq<nat>)
    requires Took(g, o, frontier, fanout, before, a, s, next) && Took(g, o, frontier, fanout, s, b, t, more)
    ensures Took(g, o, frontier, fanout, before, a + b, t, next + more)
  {
    TurnsConcat(g, o, frontier, fanout, a, b);
    AddedMore(g, before.src, before.dst, a, s.src, s.dst, next, b, t.src, t.dst, more);
    CutMore(o.limits.maxEdges, |before.src|, a, |s.src|, b, |t.src|);
    ColumnsConcat(g, a, b);
    EnlargedMore(g, o.limits.maxNodes, before.nodes, a, s.nodes, AllSources(g, a), AllTargets(g, a), b, t.nodes,
                 AllSources(g, b), AllTargets(g, b));
  }

  /** The turns are the given readers' in order; some are missing only at the edge cap. */
  ghost predicate Served(turns: seq<Turn>, order: seq<nat>, full: bool) {
    && |turns| <= |order| && (forall j :: 0 <= j < |turns| ==> turns[j].reader == order[j])
    && (|turns| < |order| ==> full)
  }

  lemma ServedMore(a: seq<Turn>, first: seq<nat>, b: seq<Turn>, second: seq<nat>, full: bool)
    requires Served(a, first, false) && Served(b, second, full)
    ensures Served(a + b, first + second, full)
  {
  }

  lemma ServedUpTo(turns: seq<Turn>, first: seq<nat>, second: seq<nat>, full: bool, later: bool)
    requires Served(turns, first, full) && (full || second != [] ==> later)
    ensures Served(turns, first + second, later)
  {
  }

  // ---------------------------------------------------------------- layers

  /** The frontiers, from the seeds on, and the turns taken from each. */
  datatype Trace = Trace(frontiers: seq<seq<nat>>, layers: seq<seq<Turn>>)

  ghost predicate IsLayer(g: Graph, o: Options, frontier: seq<nat>, fanout: nat, turns: seq<Turn>, full: bool) {
    && frontier != [] && Distinct(frontier)
    && AreTurns(g, o, frontier, fanout, turns)
    && Served(turns, Flatten(g.types), full)
  }

  ghost predicate IsFarEnd(turns: seq<Turn>, x: nat) {
    exists j :: 0 <= j < |turns| && x in FarEnds(turns[j])
  }

  /** The next frontier: each recorded far end once, in ascending order, without those the node cap turned away. */
  ghost predicate HandsOn(o: Options, turns: seq<Turn>, nodes: seq<nat>, ahead: seq<nat>) {
    && Ascending(ahead)
    && forall x :: x in ahead <==> IsFarEnd(turns, x) && (o.limits.maxNodes.Some? ==> x in nodes)
  }

  lemma InAllFar(turns: seq<Turn>, x: nat)
    ensures x in AllFar(turns) <==> IsFarEnd(turns, x)
  {
    InFlatten(FarLists(turns), x);
  }

  lemma HandsOnLater(o: Options, turns: seq<Turn>, nodes: seq<nat>, ahead: seq<nat>, more: seq<nat>)
    requires HandsOn(o, turns, nodes, ahead) && Admitted(o.limits.maxNodes, AllFar(turns), nodes)
    requires nodes <= more && Within(o.limits.maxNodes, |more|)
    ensures HandsOn(o, turns, more, ahead)
  {
    forall x
      ensures IsFarEnd(turns, x) ==> (x in nodes <==> x in more)
    {
      InAllFar(turns, x);
      if x in nodes {
        var i :| 0 <= i < |nodes| && nodes[i] == x;
        assert more[i] == x;
      }
      if IsFarEnd(turns, x) && x !in nodes {
        assert Full(o.limits.maxNodes, |nodes|);
        assert more == nodes;
      }
    }
  }

  ghost predicate LayersTraced(g: Graph, o: Options, fanouts: seq<nat>, run: Trace, nodes: seq<nat>, full: bool) {
    && |run.frontiers| == |run.layers| + 1 && |run.layers| <= |fanouts|
    && forall i :: 0 <= i < |run.layers| ==>
      LayerDone(g, o, run.frontiers[i], fanouts[i], run.layers[i], run.frontiers[i + 1], nodes, full)
  }

  lemma LayerAt(g: Graph, o: Options, fanouts: seq<nat>, run: Trace, nodes: seq<nat>, full: bool, i: nat)
    requires LayersTraced(g, o, fanouts, run, nodes, full) && i < |run.layers|
    ensures LayerDone(g, o, run.frontiers[i], fanouts[i], run.layers[i], run.frontiers[i + 1], nodes, full)
  {
  }

  /** A layer that was left for the frontier `ahead`. */
  ghost predicate LayerDone(g: Graph, o: Options, frontier: seq<nat>, fanout: nat, turns: seq<Turn>, ahead: seq<nat>,
                            nodes: seq<nat>, full: bool) {
    && IsLayer(g, o, frontier, fanout, turns, full) && HandsOn(o, turns, nodes, ahead)
    && Admitted(o.limits.maxNodes, AllFar(turns), nodes)
  }

  lemma LayerLater(g: Graph, o: Options, frontier: seq<nat>, fanout: nat, turns: seq<Turn>, ahead: seq<nat>,
                   nodes: seq<nat>, full: bool, more: seq<nat>, later: bool)
    requires LayerDone(g, o, frontier, fanout, turns, ahead, nodes, full)
    requires nodes <= more && Within(o.limits.maxNodes, |more|) && (full ==> later)
    ensures LayerDone(g, o, frontier, fanout, turns, ahead, more, later)
  {
    HandsOnLater(o, turns, nodes, ahead, more);
    AdmittedLater(o.limits.maxNodes, AllFar(turns), nodes, more);
  }

  lemma LayersLater(g: Graph, o: Options, fanouts: seq<nat>, run: Trace, nodes: seq<nat>, full: bool,
                    more: seq<nat>, later: bool)
    requires LayersTraced(g, o, fanouts, run, nodes, full) && nodes <= more && Within(o.limits.maxNodes, |more|)
    requires full ==> later
    ensures LayersTraced(g, o, fanouts, run, more, later)
  {
    forall i | 0 <= i < |run.layers|
      ensures LayerDone(g, o, run.frontiers[i], fanouts[i], run.layers[i], run.frontiers[i + 1], more, later)
    {
      LayerLater(g, o, run.frontiers[i], fanouts[i], run.layers[i], run.frontiers[i + 1], nodes, full, more, later);
    }
  }

  function Longer(run: Trace, turns: seq<Turn>, ahead: seq<nat>): Trace {
    Trace(run.frontiers + [ahead], run.layers + [turns])
  }

  lemma LayersSnoc(g: Graph, o: Options, fanouts: seq<nat>, run: Trace, nodes: seq<nat>, full: bool,
                   turns: seq<Turn>, ahead: seq<nat>)
    requires LayersTraced(g, o, fanouts, run, nodes, full) && |run.layers| < |fanouts|
    requires LayerDone(g, o, run.frontiers[|run.layers|], fanouts[|run.layers|], turns, ahead, nodes, full)
    ensures LayersTraced(g, o, fanouts, Longer(run, turns, ahead), nodes, full)
  {
    var all := Longer(run, turns, ahead);
    forall i | 0 <= i < |all.layers|
      ensures LayerDone(g, o, all.frontiers[i], fanouts[i], all.layers[i], all.frontiers[i + 1], nodes, full)
    {
      if i < |run.layers| {
        assert all.frontiers[i + 1] == run.frontiers[i + 1] && all.layers[i] == run.layers[i];
      }
    }
  }

  /** The turns of all layers recorded the sample, starting from the seeds. */
  ghost predicate Recorded(g: Graph, o: Options, start: seq<nat>, turns: seq<Turn>, s: Sample) {
    && s.src == AllSources(g, turns) && s.dst == AllTargets(g, turns)
    && AreCut(turns)
    && CutByCap(o.limits.maxEdges, 0, turns, |s.src|) && Within(o.limits.maxEdges, |s.src|)
    && Enlarged(g, o.limits.maxNodes, start, turns, s.nodes, s.src, s.dst)
  }

  /** A run from the seeds, layer by layer, and the sample it recorded. */
  ghost predicate Traced(g: Graph, start: seq<nat>, fanouts: seq<nat>, o: Options, run: Trace, s: Sample) {
    && LayersTraced(g, o, fanouts, run, s.nodes, Full(o.limits.maxEdges, |s.src|)) && run.frontiers[0] == start
    && Recorded(g, o, start, Flatten(run.layers), s)
  }

  lemma FirstTrace(g: Graph, start: seq<nat>, fanouts: seq<nat>, o: Options)
    ensures Traced(g, start, fanouts, o, Trace([start], []), Sample(start, [], []))
  {
  }

  lemma RecordedMore(g: Graph, o: Options, start: seq<nat>, a: seq<Turn>, s: Sample, frontier: seq<nat>, fanout: nat,
                     b: seq<Turn>, t: Sample, next: seq<nat>)
    requires Recorded(g, o, start, a, s) && Took(g, o, frontier, fanout, s, b, t, next)
    requires Within(o.limits.maxEdges, |t.src|)
    ensures Recorded(g, o, start, a + b, t)
  {
    TurnsConcat(g, o, frontier, fanout, b, b);
    CutConcat(a, b);
    ColumnsConcat(g, a, b);
    CutMore(o.limits.maxEdges, 0, a, |s.src|, b, |t.src|);
    EnlargedMore(g, o.limits.maxNodes, start, a, s.nodes, s.src, s.dst, b, t.nodes, AllSources(g, b), AllTargets(g, b));
  }

  lemma FarIsRecorded(g: Graph, turns: seq<Turn>, x: nat)
    requires x in AllFar(turns)
    ensures x in AllSources(g, turns) || x in AllTargets(g, turns)
  {
    InFlatten(FarLists(turns), x);
    var j :| 0 <= j < |turns| && x in FarEnds(turns[j]);
    InFlatten(SourceLists(g, turns), x);
    InFlatten(TargetLists(g, turns), x);
    assert x in SourceLists(g, turns)[j] || x in TargetLists(g, turns)[j];
  }

  lemma FarAdmitted(g: Graph, cap: Option<nat>, nodes: seq<nat>, turns: seq<Turn>, nodes': seq<nat>)
    requires Enlarged(g, cap, nodes, turns, nodes', AllSources(g, turns), AllTargets(g, turns))
    ensures Admitted(cap, AllFar(turns), nodes')
  {
    forall x | x in AllFar(turns)
      ensures x in nodes' || Full(cap, |nodes'|)
    {
      FarIsRecorded(g, turns, x);
    }
  }

  /** One more layer. */
  lemma TraceStep(g: Graph, start: seq<nat>, fanouts: seq<nat>, o: Options, run: Trace, s: Sample,
                  turns: seq<Turn>, t: Sample, next: seq<nat>, ahead: seq<nat>)
    requires Traced(g, start, fanouts, o, run, s) && |run.layers| < |fanouts|
    requires var frontier := run.frontiers[|run.layers|];
      && frontier != [] && Distinct(frontier) && Took(g, o, frontier, fanouts[|run.layers|], s, turns, t, next)
    requires Served(turns, Flatten(g.types), Full(o.limits.maxEdges, |t.src|))
    requires Within(o.limits.maxEdges, |t.src|) && Within(o.limits.maxNodes, |t.nodes|)
    requires HandsOn(o, turns, t.nodes, ahead)
    ensures Traced(g, start, fanouts, o, Longer(run, turns, ahead), t)
  {
    var full := Full(o.limits.maxEdges, |t.src|);
    var frontier, fanout := run.frontiers[|run.layers|], fanouts[|run.layers|];
    LayersLater(g, o, fanouts, run, s.nodes, Full(o.limits.maxEdges, |s.src|), t.nodes, full);
    FarAdmitted(g, o.limits.maxNodes, s.nodes, turns, t.nodes);
    assert LayerDone(g, o, frontier, fanout, turns, ahead, t.nodes, full);
    LayersSnoc(g, o, fanouts, run, t.nodes, full, turns, ahead);
    RecordedMore(g, o, start, Flatten(run.layers), s, frontier, fanout, turns, t, next);
    FlattenSnoc(run.layers, turns);
  }

  lemma FlattenSnoc(layers: seq<seq<Turn>>, turns: seq<Turn>)
    ensures Flatten(layers + [turns]) == Flatten(layers) + turns
  {
    assert (layers + [turns])[..|layers|] == layers;
  }

  /** After `i` layers the run stands at this frontier. */
  ghost predicate IsAt(run: Trace, i: nat, frontier: seq<nat>) {
    |run.layers| == i && |run.frontiers| == i + 1 && run.frontiers[i] == frontier
  }

  /** The run took every layer, or stopped at an empty frontier. */
  ghost predicate Ends(run: Trace, layers: nat) {
    && |run.frontiers| == |run.layers| + 1
    && (|run.layers| == layers || (|run.layers| < layers && run.frontiers[|run.layers|] == []))
  }
}
