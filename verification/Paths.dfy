/** Bounded simple-path enumeration, level by level (api.py). */
module Paths {
  import opened Results
  import opened Walks
  import opened Names

  datatype Direction = Out | In | Both
  datatype Edge = Edge(eid: nat, kind: string, src: nat, dst: nat)
  datatype Step = Step(edge: Edge, next: nat, forward: bool)

  type Path = seq<Step>

  /** The steps available at each node. */
  type Adjacency = nat -> seq<Step>

  // ---------------------------------------------------------------- adjacency

  /** From `u`, forward along an edge that leaves it, or backward along one that enters it, as the direction allows. */
  ghost predicate IsStep(edges: seq<Edge>, direction: Direction, u: nat, s: Step) {
    && s.edge in edges
    && if s.forward then direction in {Out, Both} && s.edge.src == u && s.next == s.edge.dst
       else direction in {In, Both} && s.edge.dst == u && s.next == s.edge.src
  }

  /** The steps one edge offers to a node, the outgoing one first. */
  function StepsOf(e: Edge, direction: Direction, u: nat): seq<Step> {
    (if direction != In && e.src == u then [Step(e, e.dst, true)] else []) +
    (if direction != Out && e.dst == u then [Step(e, e.src, false)] else [])
  }

  function StepsFrom(edges: seq<Edge>, direction: Direction, u: nat): seq<Step> {
    if edges == [] then []
    else StepsFrom(edges[..|edges| - 1], direction, u) + StepsOf(edges[|edges| - 1], direction, u)
  }

  function Lookup(adjacency: map<nat, seq<Step>>, u: nat): seq<Step> {
    if u in adjacency then adjacency[u] else []
  }

  function AddStep(adjacency: map<nat, seq<Step>>, u: nat, s: Step): map<nat, seq<Step>> {
    adjacency[u := Lookup(adjacency, u) + [s]]
  }

  /** One edge row enters the lists of its endpoints, as the direction asks. */
  function AddEdge(adjacency: map<nat, seq<Step>>, e: Edge, direction: Direction): map<nat, seq<Step>> {
    var outward := if direction != In then AddStep(adjacency, e.src, Step(e, e.dst, true)) else adjacency;
    if direction != Out then AddStep(outward, e.dst, Step(e, e.src, false)) else outward
  }

  lemma AddEdgeAt(adjacency: map<nat, seq<Step>>, e: Edge, direction: Direction, u: nat)
    ensures Lookup(AddEdge(adjacency, e, direction), u) == Lookup(adjacency, u) + StepsOf(e, direction, u)
  {
  }

  /** `_typed_adjacency`: one pass over the kept edge rows, appending to per-node lists, which are then sorted. */
  method TypedAdjacency(edges: seq<Edge>, direction: Direction) returns (adjacency: map<nat, seq<Step>>)
    ensures forall u :: Lookup(adjacency, u) == SortSteps(StepsFrom(edges, direction, u))
    ensures forall u, s :: s in Lookup(adjacency, u) <==> IsStep(edges, direction, u, s)
    ensures Distinct(edges) ==> forall u :: Distinct(Lookup(adjacency, u))
  {
    adjacency := map[];
    for i := 0 to |edges|
      invariant forall u :: Lookup(adjacency, u) == StepsFrom(edges[..i], direction, u)
    {
      assert edges[..i + 1][..i] == edges[..i];
      forall u
        ensures Lookup(AddEdge(adjacency, edges[i], direction), u) == StepsFrom(edges[..i + 1], direction, u)
      {
        AddEdgeAt(adjacency, edges[i], direction, u);
      }
      adjacency := AddEdge(adjacency, edges[i], direction);
    }
    assert edges[..|edges|] == edges;
    adjacency := SortLists(adjacency);
    ListedSteps(edges, direction, adjacency);
  }

  lemma ListedSteps(edges: seq<Edge>, direction: Direction, adjacency: map<nat, seq<Step>>)
    requires forall u :: Lookup(adjacency, u) == SortSteps(StepsFrom(edges, direction, u))
    ensures forall u, s :: s in Lookup(adjacency, u) <==> IsStep(edges, direction, u, s)
    ensures Distinct(edges) ==> forall u :: Distinct(Lookup(adjacency, u))
  {
    forall u, s
      ensures s in Lookup(adjacency, u) <==> IsStep(edges, direction, u, s)
    {
      InAdjacency(edges, direction, u, s);
    }
    if Distinct(edges) {
      DistinctEdgesNoRepeats(edges, direction);
      forall u
        ensures Distinct(Lookup(adjacency, u))
      {
        assert AdjacencyOf(edges, direction)(u) == Lookup(adjacency, u);
      }
    }
  }

  method SortLists(lists: map<nat, seq<Step>>) returns (sorted: map<nat, seq<Step>>)
    ensures forall u :: Lookup(sorted, u) == SortSteps(Lookup(lists, u))
  {
    sorted := lists;
    var todo := lists.Keys;
    while todo != {}
      invariant todo <= lists.Keys == sorted.Keys
      invariant forall u :: u in lists ==> sorted[u] == if u in todo then lists[u] else SortSteps(lists[u])
      decreases |todo|
    {
      var u :| u in todo;
      todo := todo - {u};
      sorted := sorted[u := SortSteps(sorted[u])];
    }
  }

  // ---------------------------------------------------------------- the order of a node's steps

  /** By edge type, then edge id, then far end. */
  predicate StepLess(a: Step, b: Step) {
    || Less(a.edge.kind, b.edge.kind)
    || (a.edge.kind == b.edge.kind && (a.edge.eid < b.edge.eid || (a.edge.eid == b.edge.eid && a.next < b.next)))
  }

  function PlaceStep(x: Step, sorted: seq<Step>): seq<Step> {
    if sorted == [] then [x]
    else
      var n := |sorted| - 1;
      if StepLess(x, sorted[n]) then PlaceStep(x, sorted[..n]) + [sorted[n]] else sorted + [x]
  }

  /** The stable sort of one list. */
  function SortSteps(steps: seq<Step>): seq<Step> {
    if steps == [] then [] else PlaceStep(steps[|steps| - 1], SortSteps(steps[..|steps| - 1]))
  }

  lemma {:induction false} PlaceStepMembers(x: Step, sorted: seq<Step>)
    ensures forall s :: s in PlaceStep(x, sorted) <==> s == x || s in sorted
    ensures Distinct(sorted) && x !in sorted ==> Distinct(PlaceStep(x, sorted))
  {
    if sorted != [] {
      var n := |sorted| - 1;
      PlaceStepMembers(x, sorted[..n]);
      assert sorted == sorted[..n] + [sorted[n]];
      DistinctSnoc(sorted[..n], sorted[n]);
      DistinctSnoc(PlaceStep(x, sorted[..n]), sorted[n]);
      DistinctSnoc(sorted, x);
    }
  }

  /** Sorting changes neither which steps there are nor that they differ. */
  lemma {:induction false} SortStepsMembers(steps: seq<Step>)
    ensures forall s :: s in SortSteps(steps) <==> s in steps
    ensures Distinct(steps) ==> Distinct(SortSteps(steps))
  {
    if steps != [] {
      var n := |steps| - 1;
      SortStepsMembers(steps[..n]);
      PlaceStepMembers(steps[n], SortSteps(steps[..n]));
      assert steps == steps[..n] + [steps[n]];
      DistinctSnoc(steps[..n], steps[n]);
    }
  }

  lemma StepLessNegTransitive(a: Step, b: Step, c: Step)
    requires !StepLess(b, a) && !StepLess(c, b)
    ensures !StepLess(c, a)
  {
    LessTotal(a.edge.kind, b.edge.kind);
    LessTotal(b.edge.kind, c.edge.kind);
    LessTotal(a.edge.kind, c.edge.kind);
    if Less(a.edge.kind, b.edge.kind) && Less(b.edge.kind, c.edge.kind) {
      LessTransitive(a.edge.kind, b.edge.kind, c.edge.kind);
    }
  }

  lemma StepLessAsymmetric(a: Step, b: Step)
    requires StepLess(a, b)
    ensures !StepLess(b, a)
  {
    LessTotal(a.edge.kind, b.edge.kind);
  }

  /** No step stands after a larger one. */
  ghost predicate StepsInOrder(steps: seq<Step>) {
    forall i, j :: 0 <= i < j < |steps| ==> !StepLess(steps[j], steps[i])
  }

  ghost predicate NoneAbove(steps: seq<Step>, y: Step) {
    forall x :: x in steps ==> !StepLess(y, x)
  }

  lemma {:induction false} PlaceStepInOrder(x: Step, sorted: seq<Step>)
    requires StepsInOrder(sorted)
    ensures StepsInOrder(PlaceStep(x, sorted))
  {
    if sorted != [] {
      var n := |sorted| - 1;
      if StepLess(x, sorted[n]) {
        PlaceStepInOrder(x, sorted[..n]);
        PlaceStepMembers(x, sorted[..n]);
        StepLessAsymmetric(x, sorted[n]);
        assert NoneAbove(PlaceStep(x, sorted[..n]), sorted[n]);
      } else {
        forall i | 0 <= i < n
          ensures !StepLess(x, sorted[i])
        {
          StepLessNegTransitive(sorted[i], sorted[n], x);
        }
      }
    }
  }

  /** The sort puts smaller steps first. */
  lemma {:induction false} SortStepsInOrder(steps: seq<Step>)
    ensures StepsInOrder(SortSteps(steps))
  {
    if steps != [] {
      SortStepsInOrder(steps[..|steps| - 1]);
      PlaceStepInOrder(steps[|steps| - 1], SortSteps(steps[..|steps| - 1]));
    }
  }

  lemma {:induction false} InStepsFrom(edges: seq<Edge>, direction: Direction, u: nat, s: Step)
    ensures s in StepsFrom(edges, direction, u) <==> s.edge in edges && s in StepsOf(s.edge, direction, u)
  {
    if edges != [] {
      InStepsFrom(edges[..|edges| - 1], direction, u, s);
      assert edges == edges[..|edges| - 1] + [edges[|edges| - 1]];
    }
  }

  lemma {:induction false} StepsDistinct(edges: seq<Edge>, direction: Direction, u: nat)
    requires Distinct(edges)
    ensures Distinct(StepsFrom(edges, direction, u))
  {
    if edges != [] {
      var n := |edges| - 1;
      var front := StepsFrom(edges[..n], direction, u);
      StepsDistinct(edges[..n], direction, u);
      forall i | 0 <= i < |front|
        ensures front[i].edge != edges[n]
      {
        InStepsFrom(edges[..n], direction, u, front[i]);
        assert front[i] in front;
      }
    }
  }

  function AdjacencyOf(edges: seq<Edge>, direction: Direction): Adjacency {
    (u: nat) => SortSteps(StepsFrom(edges, direction, u))
  }

  lemma InAdjacency(edges: seq<Edge>, direction: Direction, u: nat, s: Step)
    ensures s in AdjacencyOf(edges, direction)(u) <==> IsStep(edges, direction, u, s)
  {
    SortStepsMembers(StepsFrom(edges, direction, u));
    InStepsFrom(edges, direction, u, s);
  }

  ghost predicate NoRepeats(adj: Adjacency) {
    forall u :: Distinct(adj(u))
  }

  /** Edge rows that differ give steps that differ. */
  lemma DistinctEdgesNoRepeats(edges: seq<Edge>, direction: Direction)
    requires Distinct(edges)
    ensures NoRepeats(AdjacencyOf(edges, direction))
  {
    forall u
      ensures Distinct(AdjacencyOf(edges, direction)(u))
    {
      StepsDistinct(edges, direction, u);
      SortStepsMembers(StepsFrom(edges, direction, u));
    }
  }

  // ---------------------------------------------------------------- paths

  function End(source: nat, p: Path): nat {
    if p == [] then source else p[|p| - 1].next
  }

  function Nodes(source: nat, p: Path): seq<nat> {
    if p == [] then [source] else Nodes(source, p[..|p| - 1]) + [p[|p| - 1].next]
  }

  /** Consecutive steps of the graph, starting at `source`. */
  ghost predicate IsPath(adj: Adjacency, source: nat, p: Path) {
    p != [] ==>
      && IsPath(adj, source, p[..|p| - 1])
      && p[|p| - 1] in adj(End(source, p[..|p| - 1]))
  }

  ghost predicate IsSimple(adj: Adjacency, source: nat, p: Path) {
    IsPath(adj, source, p) && Distinct(Nodes(source, p))
  }

  // ---------------------------------------------------------------- levels of the search

  function Extend(p: Path, seen: seq<nat>, steps: seq<Step>): seq<Path> {
    if steps == [] then []
    else
      var n := |steps| - 1;
      Extend(p, seen, steps[..n]) + if steps[n].next in seen then [] else [p + [steps[n]]]
  }

  function Extensions(adj: Adjacency, source: nat, p: Path): seq<Path> {
    Extend(p, Nodes(source, p), adj(End(source, p)))
  }

  function ExtendAll(adj: Adjacency, source: nat, ps: seq<Path>): seq<Path> {
    if ps == [] then []
    else
      var n := |ps| - 1;
      ExtendAll(adj, source, ps[..n]) + Extensions(adj, source, ps[n])
  }

  /** All simple paths of exactly `k` steps, in search order. */
  function Level(adj: Adjacency, source: nat, k: nat): seq<Path> {
    if k == 0 then [[]] else ExtendAll(adj, source, Level(adj, source, k - 1))
  }

  lemma {:induction false} InExtend(p: Path, seen: seq<nat>, steps: seq<Step>, q: Path)
    ensures q in Extend(p, seen, steps) <==>
      q != [] && q[..|q| - 1] == p && q[|q| - 1] in steps && q[|q| - 1].next !in seen
  {
    if steps != [] {
      var n := |steps| - 1;
      InExtend(p, seen, steps[..n], q);
      assert steps == steps[..n] + [steps[n]];
      assert q != [] ==> q == q[..|q| - 1] + [q[|q| - 1]];
    }
  }

  lemma {:induction false} InExtendAll(adj: Adjacency, source: nat, ps: seq<Path>, q: Path)
    ensures q in ExtendAll(adj, source, ps) <==>
      q != [] && q[..|q| - 1] in ps && q in Extensions(adj, source, q[..|q| - 1])
    decreases |ps|
  {
    if ps != [] {
      var n := |ps| - 1;
      InExtendAll(adj, source, ps[..n], q);
      InExtend(ps[n], Nodes(source, ps[n]), adj(End(source, ps[n])), q);
      assert ps == ps[..n] + [ps[n]];
    }
  }

  lemma SimpleSnoc(adj: Adjacency, source: nat, q: Path)
    requires q != []
    ensures IsSimple(adj, source, q) <==>
      var p := q[..|q| - 1];
      && IsSimple(adj, source, p)
      && q[|q| - 1] in adj(End(source, p)) && q[|q| - 1].next !in Nodes(source, p)
  {
    DistinctSnoc(Nodes(source, q[..|q| - 1]), q[|q| - 1].next);
  }

  lemma InNextLevel(adj: Adjacency, source: nat, k: nat, q: Path)
    requires q != []
    ensures q in Level(adj, source, k + 1) <==>
      var p := q[..|q| - 1];
      && p in Level(adj, source, k)
      && q[|q| - 1] in adj(End(source, p)) && q[|q| - 1].next !in Nodes(source, p)
  {
    var p := q[..|q| - 1];
    InExtendAll(adj, source, Level(adj, source, k), q);
    InExtend(p, Nodes(source, p), adj(End(source, p)), q);
  }

  lemma EmptyPathLevel(adj: Adjacency, source: nat, k: nat, q: Path)
    requires q == [] || k == 0
    ensures q in Level(adj, source, k) <==> q == [] && k == 0
  {
    if k > 0 {
      InExtendAll(adj, source, Level(adj, source, k - 1), q);
    }
  }

  /** Level `k` is exactly the simple paths with `k` steps. */
  lemma {:induction false} LevelExact(adj: Adjacency, source: nat, k: nat, q: Path)
    ensures q in Level(adj, source, k) <==> |q| == k && IsSimple(adj, source, q)
    decreases k
  {
    if q == [] || k == 0 {
      EmptyPathLevel(adj, source, k, q);
    } else {
      LevelExact(adj, source, k - 1, q[..|q| - 1]);
      LevelExactStep(adj, source, k - 1, q);
    }
  }

  lemma LevelExactStep(adj: Adjacency, source: nat, k: nat, q: Path)
    requires q != []
    requires q[..|q| - 1] in Level(adj, source, k) <==> |q| - 1 == k && IsSimple(adj, source, q[..|q| - 1])
    ensures q in Level(adj, source, k + 1) <==> |q| == k + 1 && IsSimple(adj, source, q)
  {
    InNextLevel(adj, source, k, q);
    SimpleSnoc(adj, source, q);
  }

  lemma {:induction false} ExtendDistinct(p: Path, seen: seq<nat>, steps: seq<Step>)
    requires Distinct(steps)
    ensures Distinct(Extend(p, seen, steps))
  {
    if steps != [] {
      var n := |steps| - 1;
      ExtendDistinct(p, seen, steps[..n]);
      InExtend(p, seen, steps[..n], p + [steps[n]]);
    }
  }

  lemma {:induction false} ExtendAllDistinct(adj: Adjacency, source: nat, ps: seq<Path>)
    requires NoRepeats(adj) && Distinct(ps)
    ensures Distinct(ExtendAll(adj, source, ps))
    decreases |ps|
  {
    if ps != [] {
      var n := |ps| - 1;
      var before, here := ExtendAll(adj, source, ps[..n]), Extensions(adj, source, ps[n]);
      assert ps[n] !in ps[..n];
      ExtendAllDistinct(adj, source, ps[..n]);
      ExtendDistinct(ps[n], Nodes(source, ps[n]), adj(End(source, ps[n])));
      forall q | q in here
        ensures q !in before
      {
        InExtend(ps[n], Nodes(source, ps[n]), adj(End(source, ps[n])), q);
        InExtendAll(adj, source, ps[..n], q);
      }
      DistinctConcat(before, here);
    }
  }

  lemma {:induction false} LevelDistinct(adj: Adjacency, source: nat, k: nat)
    requires NoRepeats(adj)
    ensures Distinct(Level(adj, source, k))
  {
    if k > 0 {
      LevelDistinct(adj, source, k - 1);
      ExtendAllDistinct(adj, source, Level(adj, source, k - 1));
    }
  }
}
