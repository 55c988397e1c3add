/** Running a compiled pattern (api.py, exec/operators/expand.py). */
module PatternPipeline {
  import opened Results
  import opened Walks
  import opened Seqs
  import opened Bags
  import opened Names
  import opened Operators
  import opened HopAlgebra
  import opened CsrBuilder
  import opened CsrReader
  import opened Pattern
  import opened PatternPlan

  // The pipeline computes nested-loop matching, with multiplicities.

  // ---------------------------------------------------------------- expansion

  lemma LabelledSnoc(seeds: seq<nat>, lists: seq<seq<nat>>)
    requires |lists| == |seeds| && seeds != []
    ensures var n := |seeds| - 1;
      Flatten(Labelled(seeds, lists)) == Flatten(Labelled(seeds[..n], lists[..n])) + Tagged(seeds[n], lists[n])
  {
    var n := |seeds| - 1;
    assert Labelled(seeds, lists)[..n] == Labelled(seeds[..n], lists[..n]);
    assert Labelled(seeds, lists)[n] == Tagged(seeds[n], lists[n]);
  }

  lemma {:induction false} LabelledIsFan(src: seq<nat>, dst: seq<nat>, seeds: seq<nat>, lists: seq<seq<nat>>)
    requires |src| == |dst| && |lists| == |seeds|
    requires forall i :: 0 <= i < |seeds| ==> lists[i] == Outgoing(src, dst, seeds[i])
    ensures Flatten(Labelled(seeds, lists)) == FanPairs(src, dst, seeds)
    decreases |seeds|
  {
    if seeds != [] {
      LabelledIsFan(src, dst, seeds[..|seeds| - 1], lists[..|seeds| - 1]);
      LabelledSnoc(seeds, lists);
    }
  }

  /** The batched fan-out of a built CSR pairs every seed with every edge that leaves it. */
  lemma FanOutPairs(csr: Csr, src: seq<nat>, dst: seq<nat>, n: nat, seeds: seq<nat>)
    requires |src| == |dst| && Represents(csr, src, dst, None, n) && AllBelow(seeds, n)
    ensures Readable(csr) && NumVertices(csr) == n
    ensures var fan := FanOut(csr, seeds, false);
            |fan.src| == |fan.dst| && Zip(fan.src, fan.dst) == FanPairs(src, dst, seeds)
  {
    BuiltIsReadable(csr, src, dst, None, n);
    FanOutIsConcatenation(csr, seeds, false);
    var lists := Lists(csr, csr.neighbors, seeds);
    forall i | 0 <= i < |seeds|
      ensures lists[i] == Outgoing(src, dst, seeds[i])
    {
      assert NeighborsOf(csr, seeds[i]) == Ok(Outgoing(src, dst, seeds[i]));
    }
    RepeatAligned(seeds, lists, Degrees(csr, seeds));
    LabelledIsFan(src, dst, seeds, lists);
  }

  /** `ExpandOperator` over freshly built readers, for one relation. */
  method Expand(table: EdgeTable, direction: Direction, n: nat, seeds: seq<nat>) returns (r: Result<seq<(nat, nat)>>)
    requires |table.src| == |table.dst|
    ensures r.Ok? <==> RelationFits(table, direction, n) && AllBelow(seeds, n)
    ensures r.Ok? ==> r.value == PairsBy(table, direction, seeds)
  {
    var pairs: seq<(nat, nat)> := [];
    if i :| 0 <= i < |seeds| && seeds[i] >= n {
      return Err("CDB-7083");
    }
    if direction != In {
      var forward := BuildCsrArrays(table.src, table.dst, None, n);
      if forward.Err? {
        return Err(forward.code);
      }
      FanOutPairs(forward.value, table.src, table.dst, n, seeds);
      var fan := FanOut(forward.value, seeds, false);
      pairs := Zip(fan.src, fan.dst);
    }
    if direction != Out {
      var reverse := BuildCsc(table.src, table.dst, None, n);
      if reverse.Err? {
        return Err(reverse.code);
      }
      FanOutPairs(reverse.value, table.dst, table.src, n, seeds);
      var fan := FanOut(reverse.value, seeds, false);
      pairs := pairs + Zip(fan.src, fan.dst);
    }
    r := Ok(pairs);
  }

  /** The columns the direction sorts by stay inside the vertex space. */
  predicate RelationFits(table: EdgeTable, direction: Direction, n: nat) {
    (direction != In ==> AllBelow(table.src, n)) && (direction != Out ==> AllBelow(table.dst, n))
  }

  predicate InSpace(db: Database, name: string, direction: Direction) {
    name in db.relations ==> RelationFits(db.relations[name], direction, db.vertexCount)
  }

  ghost predicate InVertexSpace(db: Database, hop: Hop) {
    forall j :: 0 <= j < |hop.relations| ==> InSpace(db, hop.relations[j], hop.direction)
  }

  method ExpandNamed(db: Database, name: string, direction: Direction, seeds: seq<nat>)
    returns (r: Result<seq<(nat, nat)>>)
    requires ValidRelation(db, name) && AllBelow(seeds, db.vertexCount)
    ensures r.Ok? <==> InSpace(db, name, direction)
    ensures r.Ok? ==> r.value == PairsBy(db.relations[name], direction, seeds)
  {
    r := Expand(db.relations[name], direction, db.vertexCount, seeds);
  }

  lemma UnionSnoc(db: Database, names: seq<string>, j: nat, direction: Direction, seeds: seq<nat>)
    requires j < |names| && forall i :: 0 <= i < |names| ==> ValidRelation(db, names[i])
    ensures UnionPairs(db, names[..j + 1], direction, seeds)
      == UnionPairs(db, names[..j], direction, seeds) + PairsBy(db.relations[names[j]], direction, seeds)
  {
    assert names[..j + 1][..j] == names[..j];
  }

  /** One expansion per relation, merged by `UnionAllOperator`. */
  method ExpandUnion(db: Database, hop: Hop, seeds: seq<nat>) returns (r: Result<seq<(nat, nat)>>)
    requires forall j :: 0 <= j < |hop.relations| ==> ValidRelation(db, hop.relations[j])
    requires AllBelow(seeds, db.vertexCount)
    ensures r.Ok? <==> InVertexSpace(db, hop)
    ensures r.Ok? ==> r.value == UnionPairs(db, hop.relations, hop.direction, seeds)
  {
    var pairs: seq<(nat, nat)> := [];
    for j := 0 to |hop.relations|
      invariant pairs == UnionPairs(db, hop.relations[..j], hop.direction, seeds)
      invariant FirstInSpace(db, hop, j)
    {
      var longer := AddBranch(db, hop.relations, j, hop.direction, seeds, pairs);
      if longer.Err? {
        OutOfSpace(db, hop, j);
        return longer;
      }
      pairs := longer.value;
    }
    FirstIsAll(db, hop, |hop.relations|);
    assert hop.relations[..|hop.relations|] == hop.relations;
    r := Ok(pairs);
  }

  /** The first `j` relations of the hop are inside the vertex space. */
  ghost predicate FirstInSpace(db: Database, hop: Hop, j: nat)
    requires j <= |hop.relations|
  {
    j == 0 || (FirstInSpace(db, hop, j - 1) && InSpace(db, hop.relations[j - 1], hop.direction))
  }

  lemma {:induction false} FirstIsAll(db: Database, hop: Hop, j: nat)
    requires j <= |hop.relations| && FirstInSpace(db, hop, j)
    ensures forall i :: 0 <= i < j ==> InSpace(db, hop.relations[i], hop.direction)
  {
    if j > 0 {
      FirstIsAll(db, hop, j - 1);
    }
  }

  lemma OutOfSpace(db: Database, hop: Hop, j: nat)
    requires j < |hop.relations| && !InSpace(db, hop.relations[j], hop.direction)
    ensures !InVertexSpace(db, hop)
  {
  }

  method AddBranch(db: Database, names: seq<string>, j: nat, direction: Direction, seeds: seq<nat>,
                   pairs: seq<(nat, nat)>)
    returns (r: Result<seq<(nat, nat)>>)
    requires j < |names| && (forall i :: 0 <= i < |names| ==> ValidRelation(db, names[i]))
      && AllBelow(seeds, db.vertexCount)
    requires pairs == UnionPairs(db, names[..j], direction, seeds)
    ensures r.Ok? <==> InSpace(db, names[j], direction)
    ensures r.Ok? ==> r.value == UnionPairs(db, names[..j + 1], direction, seeds)
  {
    var branch := ExpandNamed(db, names[j], direction, seeds);
    if branch.Err? {
      return Err(branch.code);
    }
    UnionSnoc(db, names, j, direction, seeds);
    r := Ok(pairs + branch.value);
  }

  // ---------------------------------------------------------------- one hop of the pipeline

  method FindColumn(names: seq<string>, x: string) returns (i: nat)
    requires x in names
    ensures i < |names| && names[i] == x
  {
    i := 0;
    while names[i] != x
      invariant i < |names| && x !in names[..i]
      decreases |names| - i
    {
      i := i + 1;
      assert names == names[..i] + names[i..];
    }
  }

  /** Join on a shared column, then drop the probe side's copy of it. */
  method JoinDrop(build: Table, bkey: nat, probe: Table, pkey: nat) returns (joined: Table, ghost mask: seq<bool>)
    requires Rectangular(build) && Rectangular(probe) && bkey < |build.names| && pkey < |probe.names|
    requires Distinct(build.names) && Distinct(probe.names) && build.names[bkey] == probe.names[pkey]
    requires forall j :: 0 <= j < |probe.names| && j != pkey ==> probe.names[j] !in build.names
    ensures |mask| == |build.names| + |probe.names| && OnlyGap(mask, |build.names| + pkey)
    ensures joined.names == build.names + probe.names[..pkey] + probe.names[pkey + 1..]
    ensures Width(JoinRows(build.rows, bkey, probe.rows, pkey), |mask|)
    ensures joined.rows == SelectRows(JoinRows(build.rows, bkey, probe.rows, pkey), mask)
    ensures Rectangular(joined)
  {
    var wide := HashJoin(build, bkey, probe, pkey);
    var keep := DropMask(wide.names, [probe.names[pkey]]);
    mask := keep;
    forall i | 0 <= i < |keep|
      ensures keep[i] == (i != |build.names| + pkey)
    {
      DropProbeCopy(build.names, probe.names, pkey, i);
    }
    JoinWidth(build.rows, bkey, probe.rows, pkey, |build.names|, |probe.names|);
    joined := Table(Select(wide.names, keep), SelectRows(wide.rows, keep));
    SelectGap(wide.names, keep, |build.names| + pkey);
    SelectWidth(wide.rows, keep, |build.names| + pkey);
  }

  lemma SelectWidth(rows: seq<Row>, mask: seq<bool>, gap: nat)
    requires Width(rows, |mask|) && OnlyGap(mask, gap)
    ensures Width(SelectRows(rows, mask), |mask| - 1)
  {
    forall i | 0 <= i < |rows|
      ensures |SelectRows(rows, mask)[i]| == |mask| - 1
    {
      SelectGap(rows[i], mask, gap);
    }
  }

  lemma SeedsInSpace(db: Database, cls: string, id: string)
    requires ValidStore(db, cls, id)
    ensures AllBelow(SeedIds(db.classes[cls].rows, id), db.vertexCount)
  {
    var rows := db.classes[cls].rows;
    forall i | 0 <= i < |rows|
      ensures SeedIds(rows, id)[i] < db.vertexCount
    {
      assert IsVertex(rows[i], id, db.vertexCount);
    }
  }

  lemma ScanRectangular(db: Database, plan: Plan, alias: string, cls: string)
    requires ValidStore(db, cls, plan.idColumn)
    ensures Rectangular(Scan(db, plan, alias, cls))
    ensures Width(Scan(db, plan, alias, cls).rows, |Scan(db, plan, alias, cls).names|)
    ensures Qualified(alias, plan.idColumn) in Scan(db, plan, alias, cls).names
  {
    var columns := ScanColumns(db, plan, alias, cls);
    var i :| 0 <= i < |columns| && columns[i] == plan.idColumn;
    assert QualifiedAll(alias, columns)[i] == Qualified(alias, plan.idColumn);
  }

  /** The rows and columns two joins and two drops produce. */
  ghost predicate Joined(bound: Table, kp: nat, edges: seq<(nat, nat)>, target: Table, tp: nat, result: Table)
    requires kp < |bound.names| && tp < |target.names|
    requires Width(bound.rows, |bound.names|) && Width(target.rows, |target.names|)
  {
    var w, u := |bound.names|, |target.names|;
    && result.names == HopNames(bound.names, target.names, tp)
    && Width(result.rows, |result.names|)
    && exists mask1, mask2 ::
      && |mask1| == w + 2 && OnlyGap(mask1, w) && |mask2| == w + 1 + u && OnlyGap(mask2, w + 1 + tp)
      && result.rows == HopRows(bound.rows, kp, w, edges, mask1, target.rows, tp, u, mask2)
  }

  /** Recover bound columns, then target columns, around the expanded pairs. */
  method JoinTwice(bound: Table, kp: nat, edges: seq<(nat, nat)>, target: Table, tp: nat) returns (result: Table)
    requires kp < |bound.names| && tp < |target.names|
    requires Width(bound.rows, |bound.names|) && Width(target.rows, |target.names|)
    requires Distinct(bound.names) && Distinct(target.names) && forall x :: x in target.names ==> x !in bound.names
    ensures Joined(bound, kp, edges, target, tp, result)
  {
    var nextColumn := target.names[tp];
    assert nextColumn in target.names;
    var expand := Table([bound.names[kp], nextColumn], PairRows(edges));
    var withEdges, mask1 := JoinDrop(bound, kp, expand, 0);
    assert withEdges.names == bound.names + [nextColumn];
    ghost var mask2;
    result, mask2 := JoinDrop(withEdges, |bound.names|, target, tp);
    assert result.names == HopNames(bound.names, target.names, tp);
    assert withEdges.rows == Expanded(bound.rows, kp, |bound.names|, edges, mask1);
    assert result.rows == HopRows(bound.rows, kp, |bound.names|, edges, mask1, target.rows, tp, |target.names|, mask2);
  }

  ghost function HopEdges(db: Database, cls: string, hop: Hop, id: string): seq<(nat, nat)>
    requires cls in db.classes && ValidHop(db, hop, id)
  {
    UnionPairs(db, hop.relations, hop.direction, SeedIds(db.classes[cls].rows, id))
  }

  method RunHop(db: Database, plan: Plan, alias: string, cls: string, hop: Hop, bound: Table)
    returns (r: Result<Table>, kp: nat, tp: nat)
    requires ValidStore(db, cls, plan.idColumn) && ValidHop(db, hop, plan.idColumn)
    requires Distinct(bound.names) && Width(bound.rows, |bound.names|) && Qualified(alias, plan.idColumn) in bound.names
    requires Distinct(Scan(db, plan, hop.alias, hop.cls).names)
    requires forall x :: x in Scan(db, plan, hop.alias, hop.cls).names ==> x !in bound.names
    ensures r.Ok? <==> InVertexSpace(db, hop)
    ensures HopSetting(db, plan, alias, hop, bound.names, kp, tp)
    ensures Width(Scan(db, plan, hop.alias, hop.cls).rows, |Scan(db, plan, hop.alias, hop.cls).names|)
    ensures r.Ok? ==> Joined(bound, kp, HopEdges(db, cls, hop, plan.idColumn), Scan(db, plan, hop.alias, hop.cls),
      tp, r.value)
  {
    var target := Scan(db, plan, hop.alias, hop.cls);
    ScanRectangular(db, plan, hop.alias, hop.cls);
    kp := FindColumn(bound.names, Qualified(alias, plan.idColumn));
    tp := FindColumn(target.names, Qualified(hop.alias, plan.idColumn));
    SeedsInSpace(db, cls, plan.idColumn);
    var pairs := ExpandUnion(db, hop, SeedIds(db.classes[cls].rows, plan.idColumn));
    if pairs.Err? {
      r := Err(pairs.code);
    } else {
      var joined := JoinTwice(bound, kp, pairs.value, target, tp);
      r := Ok(joined);
    }
  }

  // ---------------------------------------------------------------- what the pipeline computes

  /** Matching in which every hop is taken once per node row that shares the current id. */
  ghost function SeededExtend(db: Database, plan: Plan, b: Binding, alias: string, cls: string,
                              hops: seq<Hop>): multiset<Binding>
    requires cls in db.classes && ValidHops(db, hops, plan.idColumn)
    decreases |hops|
  {
    if hops == [] then multiset{b}
    else
      Seeded(SeedIds(db.classes[cls].rows, plan.idColumn), CurrentId(b, alias, plan.idColumn),
             Step(db, plan, b, alias, hops[0], b' => SeededExtend(db, plan, b', hops[0].alias, hops[0].cls, hops[1..])))
  }

  ghost function SeededMatching(db: Database, plan: Plan): multiset<Binding>
    requires ValidStore(db, plan.cls, plan.idColumn) && ValidHops(db, plan.hops, plan.idColumn)
  {
    Each(db.classes[plan.cls].rows, FromFirst(db, plan))
  }

  /** The matches that start at a stored row of the first class. */
  ghost function FromFirst(db: Database, plan: Plan): map<string, Value> -> multiset<Binding>
    requires ValidStore(db, plan.cls, plan.idColumn) && ValidHops(db, plan.hops, plan.idColumn)
  {
    r => SeededExtend(db, plan, Bind(db, plan, plan.alias, plan.cls, r), plan.alias, plan.cls, plan.hops)
  }

  /** The remaining matches of every pipeline row. */
  ghost function Remaining(db: Database, plan: Plan, alias: string, cls: string,
                           hops: seq<Hop>): Binding -> multiset<Binding>
    requires cls in db.classes && ValidHops(db, hops, plan.idColumn)
  {
    b => SeededExtend(db, plan, b, alias, cls, hops)
  }

  /** Two joins emit, row by row, what the loops over edges and targets emit. */
  lemma JoinedEach<B>(bound: Table, kp: nat, edges: seq<(nat, nat)>, target: Table, tp: nat, result: Table,
                      f: Row -> multiset<B>, byBound: Row -> multiset<B>)
    requires kp < |bound.names| && tp < |target.names|
    requires Width(bound.rows, |bound.names|) && Width(target.rows, |target.names|)
    requires Joined(bound, kp, edges, target, tp, result)
    requires forall i :: 0 <= i < |bound.rows| ==>
      byBound(bound.rows[i]) == Outer(edges, target.rows, Hits(kp, tp, f), bound.rows[i])
    ensures Each(result.rows, f) == Each(bound.rows, byBound)
  {
    var w, u := |bound.names|, |target.names|;
    var mask1, mask2 :|
      && |mask1| == w + 2 && OnlyGap(mask1, w) && |mask2| == w + 1 + u && OnlyGap(mask2, w + 1 + tp)
      && result.rows == HopRows(bound.rows, kp, w, edges, mask1, target.rows, tp, u, mask2);
    EachHop(bound.rows, kp, w, edges, mask1, target.rows, tp, u, mask2, f, byBound);
  }

  /** The join form of one hop and the loop form of one hop emit the same. */
  lemma HopPreserves(db: Database, plan: Plan, alias: string, cls: string, hops: seq<Hop>, bound: Table, kp: nat,
                     tp: nat, result: Table)
    requires hops != [] && ValidHops(db, hops, plan.idColumn) && ValidStore(db, cls, plan.idColumn)
    requires HopSetting(db, plan, alias, hops[0], bound.names, kp, tp) && Width(bound.rows, |bound.names|)
    requires Width(Scan(db, plan, hops[0].alias, hops[0].cls).rows, |Scan(db, plan, hops[0].alias, hops[0].cls).names|)
    requires Joined(bound, kp, HopEdges(db, cls, hops[0], plan.idColumn), Scan(db, plan, hops[0].alias, hops[0].cls),
      tp, result)
    ensures Each(result.rows, ByName(result.names, Remaining(db, plan, hops[0].alias, hops[0].cls, hops[1..])))
         == Each(bound.rows, ByName(bound.names, Remaining(db, plan, alias, cls, hops)))
  {
    var hop, target := hops[0], Scan(db, plan, hops[0].alias, hops[0].cls);
    var edges := HopEdges(db, cls, hop, plan.idColumn);
    var more := Remaining(db, plan, hop.alias, hop.cls, hops[1..]);
    var f, byBound := ByName(result.names, more), ByName(bound.names, Remaining(db, plan, alias, cls, hops));
    forall i | 0 <= i < |bound.rows|
      ensures byBound(bound.rows[i]) == Outer(edges, target.rows, Hits(kp, tp, f), bound.rows[i])
    {
      RowRemaining(db, plan, alias, cls, hops, bound.names, kp, tp, bound.rows[i]);
    }
    JoinedEach(bound, kp, edges, target, tp, result, f, byBound);
  }

  lemma RowRemaining(db: Database, plan: Plan, alias: string, cls: string, hops: seq<Hop>, names: seq<string>,
                     kp: nat, tp: nat, p: Row)
    requires hops != [] && ValidHops(db, hops, plan.idColumn) && ValidStore(db, cls, plan.idColumn)
    requires HopSetting(db, plan, alias, hops[0], names, kp, tp) && |p| == |names|
    ensures var target := Scan(db, plan, hops[0].alias, hops[0].cls);
            var f := ByName(HopNames(names, target.names, tp),
                Remaining(db, plan, hops[0].alias, hops[0].cls, hops[1..]));
            SeededExtend(db, plan, ToMap(names, p), alias, cls, hops)
            == Outer(HopEdges(db, cls, hops[0], plan.idColumn), target.rows, Hits(kp, tp, f), p)
  {
    var seeds := SeedIds(db.classes[cls].rows, plan.idColumn);
    ToMapAt(names, p);
    BoundMeaning(db, plan, alias, hops[0], names, kp, tp, seeds, p,
        Remaining(db, plan, hops[0].alias, hops[0].cls, hops[1..]));
  }

  // ---------------------------------------------------------------- the whole pipeline

  /** No two node aliases of the pattern share a qualified column name. */
  ghost predicate FreshColumns(db: Database, plan: Plan, taken: set<string>, hops: seq<Hop>)
    requires ValidHops(db, hops, plan.idColumn)
    decreases |hops|
  {
    hops != [] ==>
      var names := Scan(db, plan, hops[0].alias, hops[0].cls).names;
      && Distinct(names)
      && (forall x :: x in names ==> x !in taken)
      && FreshColumns(db, plan, taken + Elements(names), hops[1..])
  }

  ghost predicate Runnable(db: Database, plan: Plan) {
    && ValidStore(db, plan.cls, plan.idColumn)
    && ValidHops(db, plan.hops, plan.idColumn)
    && Distinct(Scan(db, plan, plan.alias, plan.cls).names)
    && FreshColumns(db, plan, Elements(Scan(db, plan, plan.alias, plan.cls).names), plan.hops)
  }

  ghost predicate EdgesInVertexSpace(db: Database, plan: Plan) {
    forall i :: 0 <= i < |plan.hops| ==> InVertexSpace(db, plan.hops[i])
  }

  /** The rows of a table, by name, with multiplicity. */
  ghost function Rows(t: Table): multiset<Binding> {
    Each(t.rows, ByName(t.names, b => multiset{b}))
  }

  /** The running pipeline carries every column bound so far, and completing its rows gives all matches. */
  ghost predicate Progress(db: Database, plan: Plan, pipeline: Table, alias: string, cls: string, hops: seq<Hop>,
                           goal: multiset<Binding>) {
    && ValidStore(db, cls, plan.idColumn) && ValidHops(db, hops, plan.idColumn)
    && Distinct(pipeline.names) && Width(pipeline.rows, |pipeline.names|)
    && Qualified(alias, plan.idColumn) in pipeline.names
    && FreshColumns(db, plan, Elements(pipeline.names), hops)
    && Each(pipeline.rows, ByName(pipeline.names, Remaining(db, plan, alias, cls, hops))) == goal
  }

  lemma ProgressStep(db: Database, plan: Plan, pipeline: Table, alias: string, cls: string, hops: seq<Hop>,
                     goal: multiset<Binding>, kp: nat, tp: nat, next: Table)
    requires hops != [] && Progress(db, plan, pipeline, alias, cls, hops, goal)
    requires HopSetting(db, plan, alias, hops[0], pipeline.names, kp, tp)
    requires Width(Scan(db, plan, hops[0].alias, hops[0].cls).rows, |Scan(db, plan, hops[0].alias, hops[0].cls).names|)
    requires Joined(pipeline, kp, HopEdges(db, cls, hops[0], plan.idColumn),
      Scan(db, plan, hops[0].alias, hops[0].cls), tp, next)
    ensures Progress(db, plan, next, hops[0].alias, hops[0].cls, hops[1..], goal)
  {
    HopPreserves(db, plan, alias, cls, hops, pipeline, kp, tp, next);
    NamesStep(db, plan, alias, pipeline.names, hops, kp, tp);
    ValidTail(db, hops, plan.idColumn);
    ProgressIs(db, plan, next, hops[0].alias, hops[0].cls, hops[1..], goal);
  }

  lemma ValidTail(db: Database, hops: seq<Hop>, id: string)
    requires hops != [] && ValidHops(db, hops, id)
    ensures ValidStore(db, hops[0].cls, id) && ValidHops(db, hops[1..], id)
  {
  }

  lemma ProgressIs(db: Database, plan: Plan, pipeline: Table, alias: string, cls: string, hops: seq<Hop>,
                   goal: multiset<Binding>)
    requires ValidStore(db, cls, plan.idColumn) && ValidHops(db, hops, plan.idColumn)
    requires Distinct(pipeline.names) && Width(pipeline.rows, |pipeline.names|)
    requires Qualified(alias, plan.idColumn) in pipeline.names && FreshColumns(db, plan, Elements(pipeline.names), hops)
    requires Each(pipeline.rows, ByName(pipeline.names, Remaining(db, plan, alias, cls, hops))) == goal
    ensures Progress(db, plan, pipeline, alias, cls, hops, goal)
  {
  }

  /** The name conditions after a hop. */
  lemma NamesStep(db: Database, plan: Plan, alias: string, names: seq<string>, hops: seq<Hop>, kp: nat, tp: nat)
    requires hops != [] && ValidHops(db, hops, plan.idColumn) && HopSetting(db, plan, alias, hops[0], names, kp, tp)
    requires Distinct(names) && FreshColumns(db, plan, Elements(names), hops)
    ensures var after := HopNames(names, Scan(db, plan, hops[0].alias, hops[0].cls).names, tp);
      && Distinct(after) && Qualified(hops[0].alias, plan.idColumn) in after
      && FreshColumns(db, plan, Elements(after), hops[1..])
  {
    NamesAfterHop(names, Scan(db, plan, hops[0].alias, hops[0].cls).names, tp);
  }

  lemma ProgressDone(db: Database, plan: Plan, pipeline: Table, alias: string, cls: string, goal: multiset<Binding>)
    requires Progress(db, plan, pipeline, alias, cls, [], goal)
    ensures Rows(pipeline) == goal
  {
    EachSame(pipeline.rows, ByName(pipeline.names, Remaining(db, plan, alias, cls, [])),
        ByName(pipeline.names, b => multiset{b}));
  }

  method AdvancePattern(db: Database, plan: Plan, pipeline: Table, alias: string, cls: string, hop: Hop,
                        ghost rest: seq<Hop>, ghost goal: multiset<Binding>)
    returns (r: Result<Table>)
    requires Progress(db, plan, pipeline, alias, cls, [hop] + rest, goal)
    ensures r.Ok? <==> InVertexSpace(db, hop)
    ensures r.Ok? ==> Progress(db, plan, r.value, hop.alias, hop.cls, rest, goal)
  {
    ghost var hops := [hop] + rest;
    assert hops[0] == hop && hops[1..] == rest;
    var kp, tp;
    r, kp, tp := RunHop(db, plan, alias, cls, hop, pipeline);
    if r.Ok? {
      ProgressStep(db, plan, pipeline, alias, cls, hops, goal, kp, tp, r.value);
    }
  }

  /** The hop loop of `_build_pattern_pipeline`. */
  method RunHops(db: Database, plan: Plan, head: Table, ghost goal: multiset<Binding>) returns (r: Result<Table>)
    requires Progress(db, plan, head, plan.alias, plan.cls, plan.hops, goal)
    ensures r.Ok? <==> EdgesInVertexSpace(db, plan)
    ensures r.Ok? ==> Distinct(r.value.names) && Width(r.value.rows, |r.value.names|) && Rows(r.value) == goal
  {
    var pipeline, alias, cls := head, plan.alias, plan.cls;
    assert plan.hops[0..] == plan.hops;
    for i := 0 to |plan.hops|
      invariant Progress(db, plan, pipeline, alias, cls, plan.hops[i..], goal)
      invariant forall j :: 0 <= j < i ==> InVertexSpace(db, plan.hops[j])
    {
      var hop := plan.hops[i];
      assert plan.hops[i..] == [hop] + plan.hops[i + 1..];
      var next := AdvancePattern(db, plan, pipeline, alias, cls, hop, plan.hops[i + 1..], goal);
      if next.Err? {
        return Err(next.code);
      }
      pipeline, alias, cls := next.value, hop.alias, hop.cls;
    }
    assert plan.hops[|plan.hops|..] == [];
    ProgressDone(db, plan, pipeline, alias, cls, goal);
    r := Ok(pipeline);
  }

  /** `_build_pattern_pipeline` run to the end, before WHERE and RETURN. */
  method RunPattern(db: Database, plan: Plan) returns (r: Result<Table>)
    requires Runnable(db, plan)
    ensures r.Ok? <==> EdgesInVertexSpace(db, plan)
    ensures r.Ok? ==> Distinct(r.value.names) && Width(r.value.rows, |r.value.names|)
    ensures r.Ok? ==> Rows(r.value) == SeededMatching(db, plan)
  {
    var head := Scan(db, plan, plan.alias, plan.cls);
    ScanRectangular(db, plan, plan.alias, plan.cls);
    ScanRemaining(db, plan);
    r := RunHops(db, plan, head, SeededMatching(db, plan));
  }

  lemma NamesAfterHop(names: seq<string>, tnames: seq<string>, tp: nat)
    requires tp < |tnames| && Distinct(names) && Distinct(tnames) && forall x :: x in tnames ==> x !in names
    ensures Distinct(HopNames(names, tnames, tp))
    ensures Elements(HopNames(names, tnames, tp)) == Elements(names) + Elements(tnames)
    ensures tnames[tp] in HopNames(names, tnames, tp)
  {
    HopNamesDistinct(names, tnames, tp);
    assert tnames == tnames[..tp] + [tnames[tp]] + tnames[tp + 1..];
  }

  lemma ScanRemaining(db: Database, plan: Plan)
    requires Runnable(db, plan)
    ensures var head := Scan(db, plan, plan.alias, plan.cls);
            Each(head.rows, ByName(head.names, Remaining(db, plan, plan.alias, plan.cls, plan.hops)))
                == SeededMatching(db, plan)
  {
    ScanEach(db, plan, plan.alias, plan.cls, Remaining(db, plan, plan.alias, plan.cls, plan.hops), FromFirst(db, plan));
  }

  /** Scanning a class and reading the rows by name is binding its stored rows. */
  lemma ScanEach<B>(db: Database, plan: Plan, alias: string, cls: string, more: Binding -> multiset<B>,
                    g: map<string, Value> -> multiset<B>)
    requires ValidStore(db, cls, plan.idColumn)
    requires forall r :: g(r) == more(Bind(db, plan, alias, cls, r))
    ensures Each(Scan(db, plan, alias, cls).rows, ByName(Scan(db, plan, alias, cls).names, more))
      == Each(db.classes[cls].rows, g)
  {
    var head, rows := Scan(db, plan, alias, cls), db.classes[cls].rows;
    EachMapped(head.rows, rows, ByName(head.names, more), g);
  }
}
