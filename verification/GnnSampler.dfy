/** The layered GNN neighbourhood sampler (api.py `_sample_gnn_subgraph`). */
module GnnSampler {
  import opened Results
  import opened Walks
  import opened Seqs
  import opened CsrBuilder
  import opened CsrReader
  import opened CsrSampling
  import opened Relabel
  import opened SampleTrace
  import opened SampleMeaning
  import opened Sublists

  predicate AllReadable(readers: seq<Reader>) {
    forall i :: 0 <= i < |readers| ==> Readable(readers[i].csr)
  }

  predicate ValidTypes(g: Graph) {
    forall i :: 0 <= i < |g.types| ==> AllBelow(g.types[i], |g.readers|)
  }

  /** What every step keeps. */
  predicate Sound(limits: Limits, s: Sample) {
    && Distinct(s.nodes) && Within(limits.maxNodes, |s.nodes|)
    && |s.src| == |s.dst| && Within(limits.maxEdges, |s.src|)
  }

  // ---------------------------------------------------------------- helpers

  function Insert(x: nat, s: seq<nat>): seq<nat> {
    if s == [] then [x] else if x == s[0] then s else if x < s[0] then [x] + s else [s[0]] + Insert(x, s[1..])
  }

  /** `np.unique`: sorted, each value once. */
  function Unique(s: seq<nat>): seq<nat> {
    if s == [] then [] else Insert(s[|s| - 1], Unique(s[..|s| - 1]))
  }

  lemma {:induction false} InsertMembers(x: nat, s: seq<nat>)
    ensures forall y :: y in Insert(x, s) <==> y == x || y in s
  {
    if s != [] && x > s[0] {
      InsertMembers(x, s[1..]);
      assert s == [s[0]] + s[1..];
    }
  }

  lemma {:induction false} UniqueMembers(s: seq<nat>)
    ensures forall y :: y in Unique(s) <==> y in s
  {
    if s != [] {
      UniqueMembers(s[..|s| - 1]);
      InsertMembers(s[|s| - 1], Unique(s[..|s| - 1]));
      assert s == s[..|s| - 1] + [s[|s| - 1]];
    }
  }

  lemma {:induction false} InsertAscends(x: nat, s: seq<nat>)
    requires Ascending(s)
    ensures Ascending(Insert(x, s))
  {
    if s != [] && x > s[0] {
      InsertAscends(x, s[1..]);
      InsertMembers(x, s[1..]);
      AscendingCons(s[0], Insert(x, s[1..]));
    } else if s != [] && x < s[0] {
      AscendingCons(x, s);
    }
  }

  lemma AscendingCons(x: nat, s: seq<nat>)
    requires Ascending(s) && forall y :: y in s ==> x < y
    ensures Ascending([x] + s)
  {
    forall i, j | 0 <= i < j < |s| + 1
      ensures ([x] + s)[i] < ([x] + s)[j]
    {
      assert ([x] + s)[j] == s[j - 1] && s[j - 1] in s;
    }
  }

  lemma {:induction false} UniqueAscends(s: seq<nat>)
    ensures Ascending(Unique(s))
  {
    if s != [] {
      UniqueAscends(s[..|s| - 1]);
      InsertAscends(s[|s| - 1], Unique(s[..|s| - 1]));
    }
  }

  lemma {:induction false} CoveredDistinct(s: seq<nat>, n: nat)
    requires Distinct(s)
    ensures Distinct(Covered(s, n))
  {
    if s != [] {
      CoveredDistinct(s[..|s| - 1], n);
      NotBefore(s);
      DistinctSnoc(Covered(s[..|s| - 1], n), s[|s| - 1]);
    }
  }

  lemma NotBefore(s: seq<nat>)
    requires Distinct(s) && s != []
    ensures s[|s| - 1] !in s[..|s| - 1]
  {
  }

  function Allowed(s: seq<nat>, nodes: seq<nat>): (r: seq<nat>)
    ensures forall x :: x in r <==> x in s && x in nodes
  {
    if s == [] then []
    else
      assert s == s[..|s| - 1] + [s[|s| - 1]];
      Allowed(s[..|s| - 1], nodes) + if s[|s| - 1] in nodes then [s[|s| - 1]] else []
  }

  lemma {:induction false} AllowedAscends(s: seq<nat>, nodes: seq<nat>)
    requires Ascending(s)
    ensures Ascending(Allowed(s, nodes))
  {
    if s != [] {
      var n := |s| - 1;
      AllowedAscends(s[..n], nodes);
      AscendingSnoc(Allowed(s[..n], nodes), s[n]);
    }
  }

  lemma AscendingSnoc(s: seq<nat>, x: nat)
    requires Ascending(s) && forall y :: y in s ==> y < x
    ensures Ascending(s + [x])
  {
    forall i, j | 0 <= i < j < |s| + 1
      ensures (s + [x])[i] < (s + [x])[j]
    {
      assert s[i] in s;
    }
  }

  // ---------------------------------------------------------------- new nodes

  /** Add the candidates that are new, in order, until the cap. */
  method AddNodes(nodes: seq<nat>, candidates: seq<nat>, cap: Option<nat>) returns (out: seq<nat>)
    requires Distinct(nodes) && Within(cap, |nodes|) && Ascending(candidates)
    ensures Distinct(out) && nodes <= out && Within(cap, |out|)
    ensures forall x :: x in out ==> x in nodes || x in candidates
    ensures (forall x :: x in candidates ==> x in out) || (cap.Some? && |out| == cap.value)
    ensures Grown(cap, nodes, candidates, out)
  {
    out := nodes;
    for i := 0 to |candidates|
      invariant Distinct(out) && nodes <= out && Within(cap, |out|)
      invariant Grown(cap, nodes, candidates[..i], out)
      invariant forall x :: x in out ==> x in nodes || x in candidates
      invariant forall x :: x in candidates[..i] ==> x in out
    {
      assert candidates[..i + 1] == candidates[..i] + [candidates[i]];
      if candidates[i] !in out {
        if cap.Some? && |out| >= cap.value {
          return;
        }
        DistinctSnoc(out, candidates[i]);
        out := out + [candidates[i]];
      }
    }
    assert candidates[..|candidates|] == candidates;
  }

  // ---------------------------------------------------------------- one reader

  /**
    `batch_neighbors` on the frontier nodes the reader has; without any there are no
    pairs: both early exits are one.
    */
  method SampleFrontier(reader: Reader, frontier: seq<nat>, fanout: nat, replace: bool, strategy: Strategy)
    returns (fan: Fan)
    requires Readable(reader.csr) && Distinct(frontier)
    ensures IsSample(reader.csr, Covered(frontier, NumVertices(reader.csr)), fanout, replace, strategy, fan)
    ensures fan.dst != [] ==> Covered(frontier, NumVertices(reader.csr)) != []
  {
    var valid := Covered(frontier, NumVertices(reader.csr));
    CoveredDistinct(frontier, NumVertices(reader.csr));
    var sampled := BatchNeighbors(reader.csr, valid, false, Some(fanout), replace, strategy);
    fan := sampled.value;
    NoSeedsNoPairs(reader.csr, valid, fan);
  }

  lemma NoSeedsNoPairs(csr: Csr, valid: seq<nat>, fan: Fan)
    requires Readable(csr) && OnlyEdges(csr, valid, fan)
    ensures fan.dst != [] ==> valid != []
  {
    if fan.dst != [] {
      assert FanEdge(csr, valid, fan.src[0], fan.dst[0]);
    }
  }

  /** Record the pairs `a`, `b` and the nodes that are new among their ends. */
  method Record(limits: Limits, s: Sample, a: seq<nat>, b: seq<nat>) returns (s': Sample)
    requires Sound(limits, s) && |a| == |b| && Within(limits.maxEdges, |s.src| + |a|)
    ensures Sound(limits, s') && s'.src == s.src + a && s'.dst == s.dst + b
    ensures Grown(limits.maxNodes, s.nodes, a + b, s'.nodes)
  {
    UniqueMembers(a + b);
    UniqueAscends(a + b);
    var nodes := AddNodes(s.nodes, Unique(a + b), limits.maxNodes);
    s' := Sample(nodes, s.src + a, s.dst + b);
    GrownBySame(limits.maxNodes, s.nodes, Unique(a + b), a + b, nodes);
  }

  lemma GrownBySame(cap: Option<nat>, nodes: seq<nat>, ends: seq<nat>, ends': seq<nat>, out: seq<nat>)
    requires Grown(cap, nodes, ends, out) && forall x :: x in ends <==> x in ends'
    ensures Grown(cap, nodes, ends', out)
  {
  }

  /** Both columns cut to the room that is left, oriented source to target, and recorded. */
  method RecordFan(ghost g: Graph, k: nat, reader: Reader, limits: Limits, s: Sample, fan: Fan)
    returns (s': Sample, next: seq<nat>, stop: bool)
    requires k < |g.readers| && g.readers[k] == reader && Sound(limits, s) && |fan.src| == |fan.dst| && fan.dst != []
    requires Room(limits, s).Some? ==> Room(limits, s).value > 0
    ensures Visited(reader, limits, s, fan, s', next, stop) && Sound(limits, s')
    ensures Growth(g, limits.maxNodes)(s.nodes, TurnOf(k, fan, next, s'))
  {
    var a, b := fan.src, fan.dst;
    if reader.incoming {
      a, b := b, a;
    }
    var room := Room(limits, s);
    if room.Some? && room.value < |a| {
      a, b := a[..room.value], b[..room.value];
    }
    s' := Record(limits, s, a, b);
    next := if reader.incoming then a else b;
    stop := limits.maxEdges.Some? && |s'.src| >= limits.maxEdges.value;
    GrowthIs(g, limits.maxNodes, s.nodes, TurnOf(k, fan, next, s'), a, b);
  }

  lemma GrowthIs(g: Graph, cap: Option<nat>, nodes: seq<nat>, t: Turn, a: seq<nat>, b: seq<nat>)
    requires a == Sources(g, t) && b == Targets(g, t) && Grown(cap, nodes, a + b, t.nodes)
    ensures Growth(g, cap)(nodes, t)
  {
  }

  /** One reader of one edge type: sample, cap, record, and report the far ends. */
  method VisitReader(g: Graph, k: nat, frontier: seq<nat>, fanout: nat, o: Options, s: Sample)
    returns (s': Sample, next: seq<nat>, stop: bool, ghost fan: Fan)
    requires Distinct(frontier) && k < |g.readers| && AllReadable(g.readers) && Sound(o.limits, s)
    ensures IsSample(g.readers[k].csr, Covered(frontier, NumVertices(g.readers[k].csr)), fanout, o.replace, o.strategy,
      fan)
    ensures Visited(g.readers[k], o.limits, s, fan, s', next, stop) && Sound(o.limits, s')
    ensures Took(g, o, frontier, fanout, s, [TurnOf(k, fan, next, s')], s', next)
    ensures stop ==> Full(o.limits.maxEdges, |s'.src|)
  {
    s', next, stop := s, [], false;
    var sampled := SampleFrontier(g.readers[k], frontier, fanout, o.replace, o.strategy);
    fan := sampled;
    if sampled.dst != [] {
      if Room(o.limits, s).Some? && Room(o.limits, s).value <= 0 {
        stop := true;
      } else {
        s', next, stop := RecordFan(g, k, g.readers[k], o.limits, s, sampled);
      }
    }
    VisitIsTurn(g, o, frontier, fanout, k, fan, s, s', next, stop);
  }

  lemma VisitIsTurn(g: Graph, o: Options, frontier: seq<nat>, fanout: nat, k: nat, fan: Fan, s: Sample, s': Sample,
                    next: seq<nat>, stop: bool)
    requires k < |g.readers| && Readable(g.readers[k].csr)
    requires IsSample(g.readers[k].csr, Covered(frontier, NumVertices(g.readers[k].csr)), fanout, o.replace, o.strategy,
      fan)
    requires Visited(g.readers[k], o.limits, s, fan, s', next, stop)
    requires s' == s || Growth(g, o.limits.maxNodes)(s.nodes, TurnOf(k, fan, next, s'))
    ensures Took(g, o, frontier, fanout, s, [TurnOf(k, fan, next, s')], s', next)
    ensures stop ==> Full(o.limits.maxEdges, |s'.src|)
  {
    var t := TurnOf(k, fan, next, s');
    VisitedColumns(g, o.limits, k, fan, s, s', next, stop);
    if s' == s {
      GrowthIs(g, o.limits.maxNodes, s.nodes, t, [], []);
    }
    TookOne(g, o, frontier, fanout, t, s, s', next);
  }

  // ---------------------------------------------------------------- layers

  /** One step of the loop over readers. */
  method TakeTurn(g: Graph, k: nat, frontier: seq<nat>, fanout: nat, o: Options, s: Sample)
    returns (s': Sample, next: seq<nat>, stop: bool, ghost turns: seq<Turn>)
    requires Distinct(frontier) && k < |g.readers| && AllReadable(g.readers) && Sound(o.limits, s)
    ensures Took(g, o, frontier, fanout, s, turns, s', next) && Served(turns, [k], false)
    ensures Sound(o.limits, s') && (stop ==> Full(o.limits.maxEdges, |s'.src|))
  {
    ghost var fan;
    s', next, stop, fan := VisitReader(g, k, frontier, fanout, o, s);
    turns := [TurnOf(k, fan, next, s')];
  }

  /** All readers of one edge type. */
  method VisitType(g: Graph, type_: seq<nat>, frontier: seq<nat>, fanout: nat, o: Options, s: Sample)
    returns (s': Sample, next: seq<nat>, stop: bool, ghost turns: seq<Turn>)
    requires Distinct(frontier) && AllBelow(type_, |g.readers|) && AllReadable(g.readers) && Sound(o.limits, s)
    ensures Took(g, o, frontier, fanout, s, turns, s', next) && Served(turns, type_, stop)
    ensures Sound(o.limits, s') && (stop ==> Full(o.limits.maxEdges, |s'.src|))
  {
    s', next, stop, turns := s, [], false, [];
    TookNothing(g, o, frontier, fanout, s);
    var i := 0;
    while i < |type_| && !stop
      invariant Took(g, o, frontier, fanout, s, turns, s', next)
      invariant i <= |type_| && Served(turns, type_[..i], false)
      invariant Sound(o.limits, s') && (stop ==> Full(o.limits.maxEdges, |s'.src|))
    {
      var t, more;
      ghost var extra;
      t, more, stop, extra := TakeTurn(g, type_[i], frontier, fanout, o, s');
      TookMore(g, o, frontier, fanout, s, turns, s', next, extra, t, more);
      ServedNext(turns, type_, i, extra);
      s', next, i, turns := t, next + more, i + 1, turns + extra;
    }
    TypeIsServed(turns, type_, i, stop);
  }

  lemma TypeIsServed(turns: seq<Turn>, type_: seq<nat>, i: nat, stop: bool)
    requires i <= |type_| && Served(turns, type_[..i], false) && (i < |type_| ==> stop)
    ensures Served(turns, type_, stop)
  {
    ServedUpTo(turns, type_[..i], type_[i..], false, stop);
    assert type_[..i] + type_[i..] == type_;
  }

  lemma ServedNext(turns: seq<Turn>, type_: seq<nat>, i: nat, extra: seq<Turn>)
    requires i < |type_| && Served(turns, type_[..i], false) && Served(extra, [type_[i]], false)
    ensures Served(turns + extra, type_[..i + 1], false)
  {
    ServedMore(turns, type_[..i], extra, [type_[i]], false);
    assert type_[..i + 1] == type_[..i] + [type_[i]];
  }

  /** One fanout: all edge types from the current frontier. */
  method VisitLayer(g: Graph, frontier: seq<nat>, fanout: nat, o: Options, s: Sample)
    returns (s': Sample, next: seq<nat>, ghost turns: seq<Turn>)
    requires Distinct(frontier) && ValidTypes(g) && AllReadable(g.readers) && Sound(o.limits, s)
    ensures Took(g, o, frontier, fanout, s, turns, s', next) && Sound(o.limits, s')
    ensures Served(turns, Flatten(g.types), Full(o.limits.maxEdges, |s'.src|))
  {
    s', next, turns := s, [], [];
    TookNothing(g, o, frontier, fanout, s);
    var i, stop := 0, false;
    while i < |g.types| && !stop
      invariant Took(g, o, frontier, fanout, s, turns, s', next)
      invariant i <= |g.types| && Served(turns, Flatten(g.types[..i]), stop)
      invariant Sound(o.limits, s') && (stop ==> Full(o.limits.maxEdges, |s'.src|))
    {
      var t, more;
      ghost var extra;
      t, more, stop, extra := VisitType(g, g.types[i], frontier, fanout, o, s');
      TookMore(g, o, frontier, fanout, s, turns, s', next, extra, t, more);
      TypeServed(g, turns, i, extra, stop);
      s', next, i, turns := t, next + more, i + 1, turns + extra;
    }
    LayerServed(g, turns, i, stop, Full(o.limits.maxEdges, |s'.src|));
  }

  lemma TypeServed(g: Graph, turns: seq<Turn>, i: nat, extra: seq<Turn>, stop: bool)
    requires i < |g.types| && Served(turns, Flatten(g.types[..i]), false) && Served(extra, g.types[i], stop)
    ensures Served(turns + extra, Flatten(g.types[..i + 1]), stop)
  {
    ServedMore(turns, Flatten(g.types[..i]), extra, g.types[i], stop);
    assert g.types[..i + 1][..i] == g.types[..i];
  }

  lemma LayerServed(g: Graph, turns: seq<Turn>, i: nat, stop: bool, full: bool)
    requires i <= |g.types| && Served(turns, Flatten(g.types[..i]), stop) && (stop || i < |g.types| ==> full)
    ensures Served(turns, Flatten(g.types), full)
  {
    assert g.types == g.types[..i] + g.types[i..];
    FlattenConcat(g.types[..i], g.types[i..]);
    ServedUpTo(turns, Flatten(g.types[..i]), Flatten(g.types[i..]), stop, full);
  }

  /** After `i` layers: the trace so far, and the frontier to go on from. */
  ghost predicate Standing(g: Graph, start: seq<nat>, fanouts: seq<nat>, o: Options, run: Trace, s: Sample, i: nat,
                           frontier: seq<nat>) {
    Traced(g, start, fanouts, o, run, s) && IsAt(run, i, frontier) && Sound(o.limits, s) && Distinct(frontier)
  }

  /** One layer and the frontier it leaves, without the nodes the cap turned away. */
  method NextLayer(ghost start: seq<nat>, g: Graph, frontier: seq<nat>, fanouts: seq<nat>, o: Options, s: Sample,
                   i: nat, ghost run: Trace)
    returns (t: Sample, ahead: seq<nat>, ghost run': Trace)
    requires ValidTypes(g) && AllReadable(g.readers) && i < |fanouts| && frontier != []
    requires Standing(g, start, fanouts, o, run, s, i, frontier)
    ensures Standing(g, start, fanouts, o, run', t, i + 1, ahead)
  {
    var next;
    ghost var turns;
    t, next, turns := VisitLayer(g, frontier, fanouts[i], o, s);
    ahead := if o.limits.maxNodes.Some? then Allowed(Unique(next), t.nodes) else Unique(next);
    run' := Longer(run, turns, ahead);
    FrontierHandedOn(o, turns, t.nodes, next, ahead);
    TraceStep(g, start, fanouts, o, run, s, turns, t, next, ahead);
  }

  lemma FrontierHandedOn(o: Options, turns: seq<Turn>, nodes: seq<nat>, next: seq<nat>, ahead: seq<nat>)
    requires next == AllFar(turns)
    requires ahead == if o.limits.maxNodes.Some? then Allowed(Unique(next), nodes) else Unique(next)
    ensures HandsOn(o, turns, nodes, ahead)
  {
    UniqueMembers(next);
    UniqueAscends(next);
    AllowedAscends(Unique(next), nodes);
    forall x
      ensures x in next <==> IsFarEnd(turns, x)
    {
      InAllFar(turns, x);
    }
  }

  /** Before the first layer. */
  method Begin(ghost g: Graph, ghost fanouts: seq<nat>, ghost o: Options, start: seq<nat>)
    returns (s: Sample, ghost run: Trace)
    requires Distinct(start) && Within(o.limits.maxNodes, |start|)
    ensures s == Sample(start, [], []) && Standing(g, start, fanouts, o, run, s, 0, start)
  {
    s, run := Sample(start, [], []), Trace([start], []);
    FirstTrace(g, start, fanouts, o);
  }

  /** The layer loop. */
  method Grow(g: Graph, fanouts: seq<nat>, o: Options, start: seq<nat>) returns (s: Sample, ghost run: Trace)
    requires ValidTypes(g) && AllReadable(g.readers) && Distinct(start) && Within(o.limits.maxNodes, |start|)
    ensures Traced(g, start, fanouts, o, run, s) && Ends(run, |fanouts|) && Sound(o.limits, s)
  {
    s, run := Begin(g, fanouts, o, start);
    var frontier := start;
    var i := 0;
    while i < |fanouts| && frontier != []
      invariant i <= |fanouts| && Standing(g, start, fanouts, o, run, s, i, frontier)
    {
      s, frontier, run := NextLayer(start, g, frontier, fanouts, o, s, i, run);
      i := i + 1;
    }
    RunEnds(g, start, fanouts, o, run, s, i, frontier);
  }

  lemma RunEnds(g: Graph, start: seq<nat>, fanouts: seq<nat>, o: Options, run: Trace, s: Sample, i: nat,
                frontier: seq<nat>)
    requires Standing(g, start, fanouts, o, run, s, i, frontier)
    requires i <= |fanouts| && (i < |fanouts| ==> frontier == [])
    ensures Traced(g, start, fanouts, o, run, s) && Ends(run, |fanouts|) && Sound(o.limits, s)
  {
  }

  // ---------------------------------------------------------------- the whole call

  predicate BadArguments(fanouts: seq<int>, types: seq<seq<nat>>, maxNodes: Option<int>, maxEdges: Option<int>) {
    || fanouts == [] || types == []
    || (exists i :: 0 <= i < |fanouts| && fanouts[i] < 0)
    || (maxNodes.Some? && maxNodes.value <= 0) || (maxEdges.Some? && maxEdges.value < 0)
  }

  function Capped(seeds: seq<nat>, maxNodes: Option<int>): seq<nat>
    requires maxNodes.Some? ==> maxNodes.value > 0
  {
    if maxNodes.Some? && maxNodes.value < |Dedup(seeds)| then Dedup(seeds)[..maxNodes.value] else Dedup(seeds)
  }

  /** The positions at which a seed occurs first. */
  ghost predicate FirstsAt(seeds: seq<nat>, at: seq<nat>) {
    forall k: nat :: k < |seeds| ==> (k in at <==> seeds[k] !in seeds[..k])
  }

  lemma FirstsNext(seeds: seq<nat>, at: seq<nat>, x: nat)
    requires FirstsAt(seeds, at) && forall k :: k in at ==> k < |seeds|
    ensures FirstsAt(seeds + [x], if x in seeds then at else at + [|seeds|])
  {
    forall k: nat | k <= |seeds|
      ensures (seeds + [x])[..k] == seeds[..k]
    {
    }
  }

  /** Each seed is taken where it occurs first, in that order. */
  lemma {:induction false} DedupKeepsFirsts(seeds: seq<nat>) returns (at: seq<nat>)
    ensures Picks(seeds, at, Dedup(seeds)) && FirstsAt(seeds, at)
  {
    if seeds == [] {
      at := [];
    } else {
      var n := |seeds| - 1;
      var front, x := seeds[..n], seeds[n];
      var before := DedupKeepsFirsts(front);
      at := if x in front then before else before + [n];
      EndsWith(seeds, front);
      PicksBelow(front, before, Dedup(front));
      FirstsNext(front, before, x);
      DedupPicks(seeds, front, x, before);
    }
  }

  lemma DedupPicks(seeds: seq<nat>, front: seq<nat>, x: nat, before: seq<nat>)
    requires seeds == front + [x] && Picks(front, before, Dedup(front))
    ensures Picks(seeds, if x in front then before else before + [|front|], Dedup(seeds))
  {
    PicksNext(front, before, Dedup(front), x);
    assert seeds[..|front|] == front;
  }

  /** The pairs name, by position, just the recorded pairs with both ends among the nodes, in order. */
  ghost predicate Names(s: Sample, pairs: seq<(nat, nat)>) {
    exists at :: NamesAt(s.nodes, s.src, s.dst, pairs, at)
  }

  lemma RelabelledInOrder(nodes: seq<nat>, src: seq<nat>, dst: seq<nat>)
    requires |src| == |dst|
    ensures Names(Sample(nodes, src, dst), Relabelled(nodes, src, dst))
  {
    var at := RelabelledNames(nodes, src, dst);
  }

  method SampleSubgraph(seeds: seq<nat>, fanouts: seq<int>, g: Graph, replace: bool, strategy: Strategy,
                        maxNodes: Option<int>, maxEdges: Option<int>)
    returns (r: Result<(seq<(nat, nat)>, seq<nat>)>, ghost run: Trace, ghost s: Sample)
    requires ValidTypes(g) && AllReadable(g.readers)
    ensures r.Err? <==> BadArguments(fanouts, g.types, maxNodes, maxEdges)
    ensures r.Ok? ==>
      var o := Options(replace, strategy, Limits(Natural(maxNodes), Natural(maxEdges)));
      && Traced(g, Capped(seeds, maxNodes), Naturals(fanouts), o, run, s) && Ends(run, |fanouts|)
      && r.value.1 == s.nodes && Names(s, r.value.0)
    ensures r.Ok? ==> var (pairs, nodes) := r.value;
      && Distinct(nodes) && Capped(seeds, maxNodes) <= nodes
      && Near(g, Capped(seeds, maxNodes), |fanouts|, nodes) && PairsMapBack(g, nodes, pairs)
      && (maxNodes.Some? ==> |nodes| <= maxNodes.value)
      && (maxEdges.Some? ==> |pairs| <= maxEdges.value)
      && (strategy != All && 0 !in fanouts ==> |pairs| <= PairBudget(|Capped(seeds, maxNodes)|, |Flatten(g.types)|,
          Naturals(fanouts)))
      && (maxNodes.None? && maxEdges.None? && strategy == All ==> BallListed(g, Dedup(seeds), |fanouts|, nodes, pairs))
  {
    if BadArguments(fanouts, g.types, maxNodes, maxEdges) {
      return Err("ValueError"), Trace([], []), Sample([], [], []);
    }
    var start := Capped(seeds, maxNodes);
    var o := Options(replace, strategy, Limits(Natural(maxNodes), Natural(maxEdges)));
    var grown;
    grown, run := Grow(g, Naturals(fanouts), o, start);
    s := grown;
    var pairs := RelabelEdges(grown.nodes, grown.src, grown.dst);
    RelabelledInOrder(s.nodes, s.src, s.dst);
    RunMeans(g, start, Naturals(fanouts), o, run, s, pairs);
    r := Ok((pairs, grown.nodes));
  }

  /** What the trace of the whole run says about its result. */
  lemma RunMeans(g: Graph, start: seq<nat>, fanouts: seq<nat>, o: Options, run: Trace, s: Sample,
                 pairs: seq<(nat, nat)>)
    requires Traced(g, start, fanouts, o, run, s) && Ends(run, |fanouts|) && Sound(o.limits, s)
    requires pairs == Relabelled(s.nodes, s.src, s.dst)
    ensures start <= s.nodes && Near(g, start, |fanouts|, s.nodes) && PairsMapBack(g, s.nodes, pairs)
    ensures |pairs| <= |s.src|
    ensures o.strategy != All && 0 !in fanouts ==> |pairs| <= PairBudget(|start|, |Flatten(g.types)|, fanouts)
    ensures Exhaustive(o) ==> BallListed(g, start, |fanouts|, s.nodes, pairs)
  {
    TracedIsStored(g, start, fanouts, o, run, s);
    RelabelledAreStored(g, s.nodes, s.src, s.dst);
    TracedIsNear(g, start, fanouts, o, run, s);
    if o.strategy != All && 0 !in fanouts {
      TracedIsFrugal(g, start, fanouts, o, run, s);
    }
    if Exhaustive(o) {
      TracedBallListed(g, start, fanouts, o, run, s);
    }
  }

  function Natural(cap: Option<int>): Option<nat>
    requires cap.Some? ==> cap.value >= 0
  {
    if cap.Some? then Some(cap.value) else None
  }

  function Naturals(fanouts: seq<int>): (r: seq<nat>)
    requires forall i :: 0 <= i < |fanouts| ==> fanouts[i] >= 0
    ensures |r| == |fanouts| && forall i :: 0 <= i < |r| ==> r[i] == fanouts[i]
  {
    seq(|fanouts|, i requires 0 <= i < |fanouts| => fanouts[i])
  }
}
