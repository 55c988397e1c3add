/** Ontology hierarchies (onto/hierarchy.py): Kahn's algorithm with cycle detection. */
module Hierarchy {
  import opened Results
  import opened Walks
  import opened Seqs

  type Iri = string

  datatype Dag = Dag(nodes: seq<Iri>, parents: map<Iri, seq<Iri>>, children: map<Iri, seq<Iri>>, order: seq<Iri>)

  /** The pairs (x, y) with y listed under x. */
  ghost function EdgesOf(lists: map<Iri, seq<Iri>>): set<(Iri, Iri)> {
    set x, y | x in lists && y in lists[x] :: (x, y)
  }

  // ---------------------------------------------------------------- cycles

  ghost predicate Continues(edges: set<(Iri, Iri)>, inside: set<Iri>, x: Iri) {
    exists y :: y in inside && (x, y) in edges
  }

  /** Where everything has a successor inside, walks of any length stay inside. */
  lemma {:induction false} LongWalkInside(edges: set<(Iri, Iri)>, inside: set<Iri>, start: Iri, n: nat)
    returns (p: seq<Iri>)
    requires start in inside && forall x :: x in inside ==> Continues(edges, inside, x)
    ensures IsWalk(edges, p) && |p| == n + 1 && forall x :: x in p ==> x in inside
  {
    if n == 0 {
      p := [start];
    } else {
      var q := LongWalkInside(edges, inside, start, n - 1);
      var last := q[|q| - 1];
      assert last in q;
      assert Continues(edges, inside, last);
      var y :| y in inside && (last, y) in edges;
      p := q + [y];
    }
  }

  lemma EndlessMeansCycle(edges: set<(Iri, Iri)>, inside: set<Iri>)
    requires inside != {} && forall x :: x in inside ==> Continues(edges, inside, x)
    ensures !Acyclic(edges)
  {
    var start :| start in inside;
    var p := LongWalkInside(edges, inside, start, |inside|);
    assert !Distinct(p) by {
      if Distinct(p) {
        Pigeonhole(p, inside);
      }
    }
    var i, j :| 0 <= i < j < |p| && p[i] == p[j];
    var loop := p[i..j + 1];
    assert WalkFromTo(edges, p[i], p[i], loop);
    assert |loop| == (j - i) + 1;
    assert Hops(edges, p[i], p[i], j - i);
    assert Reaches(edges, p[i], p[i]);
  }

  /** An order in which every successor comes earlier rules out cycles. */
  ghost predicate Ranked(edges: set<(Iri, Iri)>, order: seq<Iri>) {
    forall x, y :: (x, y) in edges ==> exists i, j :: 0 <= j < i < |order| && order[i] == x && order[j] == y
  }

  lemma {:induction false} WalkDescends(edges: set<(Iri, Iri)>, order: seq<Iri>, p: seq<Iri>, i: nat)
    requires Distinct(order) && Ranked(edges, order) && IsWalk(edges, p) && |p| >= 2
    requires i < |order| && order[i] == p[0]
    ensures exists j :: 0 <= j < i && order[j] == p[|p| - 1]
    decreases |p|
  {
    assert (p[0], p[1]) in edges;
    var k, j :| 0 <= j < k < |order| && order[k] == p[0] && order[j] == p[1];
    assert k == i;
    if |p| > 2 {
      WalkDescends(edges, order, p[1..], j);
    }
  }

  lemma RankedIsAcyclic(edges: set<(Iri, Iri)>, order: seq<Iri>)
    requires Distinct(order) && Ranked(edges, order)
    ensures Acyclic(edges)
  {
    forall x
      ensures !Reaches(edges, x, x)
    {
      if Reaches(edges, x, x) {
        var n: nat :| n >= 1 && Hops(edges, x, x, n);
        var p :| WalkFromTo(edges, x, x, p) && |p| == n + 1;
        assert (p[0], p[1]) in edges;
        var i, j :| 0 <= j < i < |order| && order[i] == p[0] && order[j] == p[1];
        WalkDescends(edges, order, p, i);
      }
    }
  }

  // ---------------------------------------------------------------- counting open parents

  function Open(parents: seq<Iri>, done: set<Iri>): nat {
    if parents == [] then 0
    else Open(parents[..|parents| - 1], done) + if parents[|parents| - 1] in done then 0 else 1
  }

  lemma {:induction false} OpenZero(parents: seq<Iri>, done: set<Iri>)
    ensures Open(parents, done) == 0 <==> forall p :: p in parents ==> p in done
  {
    if parents != [] {
      OpenZero(parents[..|parents| - 1], done);
      assert parents == parents[..|parents| - 1] + [parents[|parents| - 1]];
    }
  }

  lemma {:induction false} OpenAfter(parents: seq<Iri>, done: set<Iri>, x: Iri)
    requires Distinct(parents) && x !in done
    ensures Open(parents, done + {x}) == Open(parents, done) - if x in parents then 1 else 0
  {
    if parents != [] {
      OpenAfter(parents[..|parents| - 1], done, x);
      assert parents == parents[..|parents| - 1] + [parents[|parents| - 1]];
    }
  }

  lemma {:induction false} OpenNone(parents: seq<Iri>)
    ensures Open(parents, {}) == |parents|
  {
    if parents != [] {
      OpenNone(parents[..|parents| - 1]);
    }
  }

  // ---------------------------------------------------------------- the adjacency the builder sets up

  /** Parents deduplicated per node, and each child listed once under each of its parents. */
  ghost predicate WellBuilt(nodes: seq<Iri>, parents: map<Iri, seq<Iri>>, children: map<Iri, seq<Iri>>) {
    && parents.Keys == Elements(nodes) == children.Keys
    && (forall c :: c in parents ==> Distinct(parents[c]) && Distinct(children[c]))
    && (forall c, p :: c in parents && p in parents[c] ==> p in parents)
    && (forall c, p :: c in children && p in children[c] ==> p in parents)
    && (forall c, p :: c in parents && p in parents ==> (p in parents[c] <==> c in children[p]))
  }

  // ---------------------------------------------------------------- Kahn's algorithm

  /** Counting down the children of a finished node; those that reach zero join the queue. */
  method Release(kids: seq<Iri>, indegree: map<Iri, nat>, queue: seq<Iri>)
    returns (indegree': map<Iri, nat>, queue': seq<Iri>)
    requires Distinct(kids) && forall c :: c in kids ==> c in indegree && indegree[c] > 0 && c !in queue
    requires Distinct(queue)
    ensures indegree'.Keys == indegree.Keys
    ensures forall c :: c in indegree ==> indegree'[c] + (if c in kids then 1 else 0) == indegree[c]
    ensures Distinct(queue') && queue <= queue'
    ensures forall c :: c in queue' <==> c in queue || (c in kids && indegree[c] == 1)
  {
    indegree', queue' := indegree, queue;
    for i := 0 to |kids|
      invariant indegree'.Keys == indegree.Keys
      invariant forall c :: c in indegree ==> indegree'[c] == indegree[c] - if c in kids[..i] then 1 else 0
      invariant Distinct(queue') && queue <= queue'
      invariant forall c :: c in queue' <==> c in queue || (c in kids[..i] && indegree[c] == 1)
    {
      var c := kids[i];
      assert kids[..i + 1] == kids[..i] + [c];
      assert c !in kids[..i];
      indegree' := indegree'[c := indegree'[c] - 1];
      if indegree'[c] == 0 {
        DistinctSnoc(queue', c);
        queue' := queue' + [c];
      }
    }
    assert kids[..|kids|] == kids;
  }

  /** The counters and lists of the algorithm when `order` is finished and `queue` is ready. */
  ghost predicate Progress(nodes: seq<Iri>, parents: map<Iri, seq<Iri>>, order: seq<Iri>, queue: seq<Iri>,
                           indegree: map<Iri, nat>) {
    && indegree.Keys == parents.Keys
    && Distinct(order + queue)
    && (forall x :: x in order + queue ==> x in parents)
    && (forall c :: c in parents ==> indegree[c] == Open(parents[c], Elements(order)))
    && (forall c :: c in parents ==> (c in order + queue <==> indegree[c] == 0))
  }

  /** Every parent of an ordered node stands before it. */
  ghost predicate ParentsFirst(parents: map<Iri, seq<Iri>>, order: seq<Iri>) {
    forall i, p :: 0 <= i < |order| && order[i] in parents && p in parents[order[i]] ==> p in order[..i]
  }

  function Roots(nodes: seq<Iri>, parents: map<Iri, seq<Iri>>): (r: seq<Iri>)
    requires forall x :: x in nodes ==> x in parents
    ensures forall x :: x in r <==> x in nodes && parents[x] == []
    ensures Distinct(nodes) ==> Distinct(r)
  {
    if nodes == [] then []
    else
      var n := |nodes| - 1;
      var r := Roots(nodes[..n], parents);
      assert nodes == nodes[..n] + [nodes[n]];
      if parents[nodes[n]] == [] then
        DistinctSnoc(r, nodes[n]);
        DistinctSnoc(nodes[..n], nodes[n]);
        r + [nodes[n]]
      else r
  }

  lemma Start(nodes: seq<Iri>, parents: map<Iri, seq<Iri>>, children: map<Iri, seq<Iri>>, indegree: map<Iri, nat>)
    requires Distinct(nodes) && WellBuilt(nodes, parents, children)
    requires indegree.Keys == parents.Keys && forall c :: c in parents ==> indegree[c] == |parents[c]|
    ensures (forall x :: x in nodes ==> x in parents) && Progress(nodes, parents, [], Roots(nodes, parents), indegree)
  {
    assert forall x :: x in nodes <==> x in Elements(nodes);
    var queue := Roots(nodes, parents);
    assert [] + queue == queue;
    forall c | c in parents
      ensures indegree[c] == Open(parents[c], Elements([])) && (c in queue <==> indegree[c] == 0)
    {
      OpenNone(parents[c]);
      assert Elements<Iri>([]) == {};
    }
  }

  /** The children of the node at the head of the queue are still closed, and not queued. */
  lemma HeadsChildren(nodes: seq<Iri>, parents: map<Iri, seq<Iri>>, children: map<Iri, seq<Iri>>,
                      order: seq<Iri>, queue: seq<Iri>, indegree: map<Iri, nat>)
    requires WellBuilt(nodes, parents, children) && Progress(nodes, parents, order, queue, indegree) && queue != []
    ensures queue[0] in children && queue[0] !in order
    ensures forall c :: c in children[queue[0]] ==> c in indegree && indegree[c] > 0 && c !in queue
    ensures Distinct(queue[1..])
  {
    var x := queue[0];
    assert (order + queue)[|order|] == x;
    assert x in order + queue;
    forall i | 0 <= i < |order|
      ensures order[i] != x
    {
      assert (order + queue)[i] == order[i];
    }
    forall c | c in children[x]
      ensures c in indegree && indegree[c] > 0 && c !in queue
    {
      OpenZero(parents[c], Elements(order));
      assert x in parents[c] && x !in Elements(order);
      assert c in queue ==> c in order + queue;
    }
    forall i, j | 0 <= i < j < |queue[1..]|
      ensures queue[1..][i] != queue[1..][j]
    {
      assert (order + queue)[|order| + 1 + i] == queue[1..][i] && (order + queue)[|order| + 1 + j] == queue[1..][j];
    }
  }

  lemma StepKeepsProgress(nodes: seq<Iri>, parents: map<Iri, seq<Iri>>, children: map<Iri, seq<Iri>>,
                          order: seq<Iri>, queue: seq<Iri>, indegree: map<Iri, nat>, queue': seq<Iri>,
                          indegree': map<Iri, nat>)
    requires WellBuilt(nodes, parents, children) && Progress(nodes, parents, order, queue, indegree) && queue != []
    requires queue[0] in children && queue[0] !in order
    requires indegree'.Keys == indegree.Keys && Distinct(queue') && queue[1..] <= queue'
    requires forall c :: c in indegree ==> indegree'[c] + (if c in children[queue[0]] then 1 else 0) == indegree[c]
    requires forall c :: c in queue' <==> c in queue[1..] || (c in children[queue[0]] && indegree[c] == 1)
    ensures Progress(nodes, parents, order + [queue[0]], queue', indegree')
  {
    ChildrenMirror(nodes, parents, children, queue[0]);
    CountsAfter(parents, children, order, queue, indegree, queue', indegree');
    ReleasedAreNew(parents, order, queue, indegree, queue', children[queue[0]]);
    AppendedDistinct(parents, order, queue, queue');
  }

  lemma CountsAfter(parents: map<Iri, seq<Iri>>, children: map<Iri, seq<Iri>>,
                    order: seq<Iri>, queue: seq<Iri>, indegree: map<Iri, nat>, queue': seq<Iri>,
                    indegree': map<Iri, nat>)
    requires queue != [] && queue[0] in children && queue[0] !in order
    requires indegree'.Keys == indegree.Keys == parents.Keys && forall c :: c in children[queue[0]] ==> c in parents
    requires forall c :: c in parents ==> Distinct(parents[c]) && (queue[0] in parents[c] <==> c in children[queue[0]])
    requires forall c :: c in parents ==> indegree[c] == Open(parents[c], Elements(order))
    requires forall c :: c in parents ==> (c in order + queue <==> indegree[c] == 0)
    requires forall c :: c in indegree ==> indegree'[c] + (if c in children[queue[0]] then 1 else 0) == indegree[c]
    requires forall c :: c in queue' <==> c in queue[1..] || (c in children[queue[0]] && indegree[c] == 1)
    ensures forall c :: c in parents ==> indegree'[c] == Open(parents[c], Elements(order + [queue[0]]))
    ensures forall c :: c in parents ==> (c in order + [queue[0]] + queue' <==> indegree'[c] == 0)
  {
    forall c | c in parents
      ensures indegree'[c] == Open(parents[c], Elements(order + [queue[0]]))
      ensures c in order + [queue[0]] + queue' <==> indegree'[c] == 0
    {
      CountAfter(parents, children, order, queue, indegree, queue', indegree', c);
    }
  }

  lemma AppendedDistinct(parents: map<Iri, seq<Iri>>, order: seq<Iri>, queue: seq<Iri>, queue': seq<Iri>)
    requires queue != [] && Distinct(order + queue) && Distinct(queue')
    requires forall x :: x in order + queue ==> x in parents
    requires forall c :: c in queue' ==> c !in order + [queue[0]] && c in parents
    ensures Distinct(order + [queue[0]] + queue') && forall x :: x in order + [queue[0]] + queue' ==> x in parents
  {
    var done := order + [queue[0]];
    assert done == (order + queue)[..|done|];
    assert queue[0] in queue && queue[0] in order + queue;
    DistinctConcat(done, queue');
  }

  lemma ChildrenMirror(nodes: seq<Iri>, parents: map<Iri, seq<Iri>>, children: map<Iri, seq<Iri>>, x: Iri)
    requires WellBuilt(nodes, parents, children) && x in children
    ensures forall c :: c in children[x] ==> c in parents
    ensures forall c :: c in parents ==> Distinct(parents[c]) && (x in parents[c] <==> c in children[x])
  {
  }

  lemma CountAfter(parents: map<Iri, seq<Iri>>, children: map<Iri, seq<Iri>>, order: seq<Iri>, queue: seq<Iri>,
                   indegree: map<Iri, nat>,
                   queue': seq<Iri>, indegree': map<Iri, nat>, c: Iri)
    requires c in parents && c in indegree && c in indegree' && Distinct(parents[c])
    requires queue != [] && queue[0] in children && queue[0] !in order
    requires queue[0] in parents[c] <==> c in children[queue[0]]
    requires indegree[c] == Open(parents[c], Elements(order)) && (c in order + queue <==> indegree[c] == 0)
    requires c in queue' <==> c in queue[1..] || (c in children[queue[0]] && indegree[c] == 1)
    requires indegree'[c] + (if c in children[queue[0]] then 1 else 0) == indegree[c]
    ensures indegree'[c] == Open(parents[c], Elements(order + [queue[0]]))
    ensures c in (order + [queue[0]]) + queue' <==> indegree'[c] == 0
  {
    assert Elements(order + [queue[0]]) == Elements(order) + {queue[0]};
    assert queue == [queue[0]] + queue[1..];
    OpenAfter(parents[c], Elements(order), queue[0]);
  }

  lemma ReleasedAreNew(parents: map<Iri, seq<Iri>>, order: seq<Iri>, queue: seq<Iri>, indegree: map<Iri, nat>,
                       queue': seq<Iri>, kids: seq<Iri>)
    requires indegree.Keys == parents.Keys && queue != [] && Distinct(order + queue)
    requires forall x :: x in order + queue ==> x in parents
    requires forall c :: c in parents ==> (c in order + queue <==> indegree[c] == 0)
    requires forall c :: c in kids ==> c in parents
    requires forall c :: c in queue' ==> c in queue[1..] || (c in kids && indegree[c] == 1)
    ensures forall c :: c in queue' ==> c !in order + [queue[0]] && c in parents
  {
    var done := order + [queue[0]];
    forall c | c in queue'
      ensures c !in done && c in parents
    {
      if c in queue[1..] {
        var i :| 0 <= i < |queue[1..]| && queue[1..][i] == c;
        assert (order + queue)[|order| + 1 + i] == c;
        assert forall k :: 0 <= k < |done| ==> (order + queue)[k] == done[k];
      } else {
        assert c !in order + queue;
        assert queue[0] in queue;
      }
    }
  }

  lemma StepKeepsOrder(nodes: seq<Iri>, parents: map<Iri, seq<Iri>>, order: seq<Iri>, queue: seq<Iri>,
                       indegree: map<Iri, nat>)
    requires Progress(nodes, parents, order, queue, indegree) && queue != [] && ParentsFirst(parents, order)
    ensures ParentsFirst(parents, order + [queue[0]])
  {
    var x := queue[0];
    assert (order + queue)[|order|] == x && x in order + queue;
    OpenZero(parents[x], Elements(order));
    var done := order + [x];
    forall i, p | 0 <= i < |done| && done[i] in parents && p in parents[done[i]]
      ensures p in done[..i]
    {
      if i < |order| {
        assert done[..i] == order[..i];
      } else {
        assert done[..i] == order;
        assert p in Elements(order);
      }
    }
  }

  /** The queue loop. */
  method Order(nodes: seq<Iri>, parents: map<Iri, seq<Iri>>, children: map<Iri, seq<Iri>>, start: map<Iri, nat>)
    returns (order: seq<Iri>)
    requires Distinct(nodes) && WellBuilt(nodes, parents, children)
    requires start.Keys == parents.Keys && forall c :: c in parents ==> start[c] == |parents[c]|
    ensures Distinct(order) && (forall x :: x in order ==> x in parents) && ParentsFirst(parents, order)
    ensures forall c :: c in parents ==> (c in order <==> Open(parents[c], Elements(order)) == 0)
  {
    Start(nodes, parents, children, start);
    var queue, indegree := Roots(nodes, parents), start;
    order := [];
    while queue != []
      invariant Progress(nodes, parents, order, queue, indegree) && ParentsFirst(parents, order)
      decreases |nodes| - |order|
    {
      HeadsChildren(nodes, parents, children, order, queue, indegree);
      var indegree', queue' := Release(children[queue[0]], indegree, queue[1..]);
      StepKeepsProgress(nodes, parents, children, order, queue, indegree, queue', indegree');
      StepKeepsOrder(nodes, parents, order, queue, indegree);
      OrderFits(nodes, parents, children, order, queue, indegree);
      order, queue, indegree := order + [queue[0]], queue', indegree';
    }
    assert order + [] == order;
  }

  lemma OrderFits(nodes: seq<Iri>, parents: map<Iri, seq<Iri>>, children: map<Iri, seq<Iri>>, order: seq<Iri>,
                  queue: seq<Iri>, indegree: map<Iri, nat>)
    requires WellBuilt(nodes, parents, children) && Progress(nodes, parents, order, queue, indegree) && queue != []
      && Distinct(nodes)
    ensures |order| < |nodes|
  {
    Pigeonhole(order + queue, parents.Keys);
    DistinctCard(nodes);
  }

  // ---------------------------------------------------------------- from_edges

  type ParentTable = seq<(Iri, seq<Iri>)>

  /** The declared parents of a node, repeats dropped. */
  function ParentsOf(given: ParentTable, c: Iri): seq<Iri> {
    if given == [] then []
    else
      var n := |given| - 1;
      if given[n].0 == c then Dedup(given[n].1) else ParentsOf(given[..n], c)
  }

  function DeclaredChildren(given: ParentTable): (r: seq<Iri>)
    ensures |r| == |given| && forall i :: 0 <= i < |r| ==> r[i] == given[i].0
  {
    seq(|given|, i requires 0 <= i < |given| => given[i].0)
  }

  predicate RowKnown(nodes: set<Iri>, row: (Iri, seq<Iri>)) {
    row.0 in nodes && forall p :: p in row.1 ==> p in nodes
  }

  predicate KnownRows(nodes: set<Iri>, given: ParentTable) {
    forall i :: 0 <= i < |given| ==> RowKnown(nodes, given[i])
  }

  /** Every node and parent the table names is one of `nodes`. */
  predicate Known(nodes: seq<Iri>, given: ParentTable) {
    KnownRows(Elements(nodes), given)
  }

  lemma KnownSnoc(nodes: set<Iri>, given: ParentTable, i: nat)
    requires i < |given| && KnownRows(nodes, given[..i])
    ensures given[..i + 1] == given[..i] + [given[i]]
    ensures KnownRows(nodes, given[..i + 1]) <==> RowKnown(nodes, given[i])
    ensures !RowKnown(nodes, given[i]) ==> !KnownRows(nodes, given)
  {
    if KnownRows(nodes, given[..i + 1]) {
      assert given[..i + 1][i] == given[i];
    }
  }

  /** List `child` under each of its parents, or report an unknown parent. */
  method AddUnder(nodes: set<Iri>, children: map<Iri, seq<Iri>>, child: Iri, parents: seq<Iri>)
    returns (ok: bool, children': map<Iri, seq<Iri>>)
    requires children.Keys == nodes && Distinct(parents)
    ensures ok <==> forall p :: p in parents ==> p in nodes
    ensures ok ==> children'.Keys == nodes
    ensures ok ==> forall p :: p in nodes ==> children'[p] == children[p] + if p in parents then [child] else []
  {
    ok, children' := true, children;
    for i := 0 to |parents|
      invariant ok && forall p :: p in parents[..i] ==> p in nodes
      invariant children'.Keys == nodes
      invariant forall p :: p in nodes ==> children'[p] == children[p] + if p in parents[..i] then [child] else []
    {
      var p := parents[i];
      assert parents[..i + 1] == parents[..i] + [p];
      if p !in nodes {
        ok := false;
        return;
      }
      assert p !in parents[..i];
      children' := children'[p := children'[p] + [child]];
    }
    assert parents[..|parents|] == parents;
  }

  /** Adding one declared row keeps the adjacency well built. */
  lemma RowKeepsBuilt(nodes: seq<Iri>, parents: map<Iri, seq<Iri>>, children: map<Iri, seq<Iri>>,
                      child: Iri, ps: seq<Iri>, parents': map<Iri, seq<Iri>>, children': map<Iri, seq<Iri>>)
    requires WellBuilt(nodes, parents, children) && child in parents && parents[child] == []
    requires Distinct(ps) && forall p :: p in ps ==> p in parents
    requires parents' == parents[child := ps] && children'.Keys == children.Keys
    requires forall p :: p in children ==> children'[p] == children[p] + if p in ps then [child] else []
    ensures WellBuilt(nodes, parents', children')
  {
    forall p | p in children
      ensures Distinct(children'[p]) && forall c :: c in children'[p] <==> c in children[p] || (c == child && p in ps)
    {
      assert child !in children[p];
      DistinctSnoc(children[p], child);
    }
  }

  /** The three dictionaries once the rows of `given` are in. */
  ghost predicate Holds(nodes: seq<Iri>, given: ParentTable, parents: map<Iri, seq<Iri>>,
                        children: map<Iri, seq<Iri>>, indegree: map<Iri, nat>) {
    && WellBuilt(nodes, parents, children)
    && (forall c :: c in parents ==> parents[c] == ParentsOf(given, c))
    && indegree.Keys == parents.Keys && forall c :: c in parents ==> indegree[c] == |parents[c]|
  }

  /** One declared row: refused if it names an unknown node, else entered in all three dictionaries. */
  method AddRow(nodes: seq<Iri>, ghost before: ParentTable, row: (Iri, seq<Iri>),
                parents: map<Iri, seq<Iri>>, children: map<Iri, seq<Iri>>, indegree: map<Iri, nat>)
    returns (ok: bool, parents': map<Iri, seq<Iri>>, children': map<Iri, seq<Iri>>, indegree': map<Iri, nat>)
    requires Holds(nodes, before, parents, children, indegree) && ParentsOf(before, row.0) == []
    ensures ok <==> RowKnown(Elements(nodes), row)
    ensures ok ==> Holds(nodes, before + [row], parents', children', indegree')
  {
    var known := Elements(nodes);
    var child, deduped := row.0, Dedup(row.1);
    parents', children', indegree' := parents, children, indegree;
    ok := child in known;
    if ok {
      ok, children' := AddUnder(known, children, child, deduped);
      if ok {
        parents', indegree' := parents[child := deduped], indegree[child := |deduped|];
        RowKeepsBuilt(nodes, parents, children, child, deduped, parents', children');
        RowKeepsParents(before, row, parents);
      }
    }
  }

  lemma RowKeepsParents(before: ParentTable, row: (Iri, seq<Iri>), parents: map<Iri, seq<Iri>>)
    requires forall c :: c in parents ==> parents[c] == ParentsOf(before, c)
    ensures forall c :: c in parents[row.0 := Dedup(row.1)] ==> c == row.0 || c in parents
    ensures forall c :: c in parents || c == row.0 ==> parents[row.0 := Dedup(row.1)][c] == ParentsOf(before + [row], c)
  {
    assert (before + [row])[..|before|] == before;
  }

  method Blank(nodes: seq<Iri>)
    returns (parents: map<Iri, seq<Iri>>, children: map<Iri, seq<Iri>>, indegree: map<Iri, nat>)
    ensures Holds(nodes, [], parents, children, indegree)
  {
    var known := Elements(nodes);
    parents, children, indegree := map x | x in known :: [], map x | x in known :: [], map x | x in known :: 0;
  }

  method Build(nodes: seq<Iri>, given: ParentTable)
    returns (ok: bool, parents: map<Iri, seq<Iri>>, children: map<Iri, seq<Iri>>, indegree: map<Iri, nat>)
    requires Distinct(DeclaredChildren(given))
    ensures ok <==> Known(nodes, given)
    ensures ok ==> Holds(nodes, given, parents, children, indegree)
  {
    var known := Elements(nodes);
    parents, children, indegree := Blank(nodes);
    ok := true;
    assert given[..0] == [];
    for i := 0 to |given|
      invariant ok && KnownRows(known, given[..i])
      invariant Holds(nodes, given[..i], parents, children, indegree)
    {
      KnownSnoc(known, given, i);
      FirstDeclaration(given, i);
      ok, parents, children, indegree := AddRow(nodes, given[..i], given[i], parents, children, indegree);
      if !ok {
        return;
      }
    }
    assert given[..|given|] == given;
  }

  lemma {:induction false} Undeclared(given: ParentTable, c: Iri)
    requires forall i :: 0 <= i < |given| ==> given[i].0 != c
    ensures ParentsOf(given, c) == []
  {
    if given != [] {
      Undeclared(given[..|given| - 1], c);
    }
  }

  lemma FirstDeclaration(given: ParentTable, i: nat)
    requires Distinct(DeclaredChildren(given)) && i < |given|
    ensures ParentsOf(given[..i], given[i].0) == []
  {
    forall j | 0 <= j < i
      ensures given[j].0 != given[i].0
    {
      assert DeclaredChildren(given)[j] != DeclaredChildren(given)[i];
    }
    Undeclared(given[..i], given[i].0);
  }

  /** `topological_order` lists every node once, parents first. */
  ghost predicate IsTopological(dag: Dag) {
    Distinct(dag.order) && Elements(dag.order) == Elements(dag.nodes) && ParentsFirst(dag.parents, dag.order)
  }

  ghost predicate ValidDag(dag: Dag) {
    WellBuilt(dag.nodes, dag.parents, dag.children) && IsTopological(dag)
  }

  /** `from_edges`: accepts exactly the acyclic relations over known nodes. */
  method FromEdges(nodes: seq<Iri>, given: ParentTable) returns (r: Result<Dag>)
    requires Distinct(nodes) && Distinct(DeclaredChildren(given))
    ensures r == Err("CDB-9504") <==> !Known(nodes, given)
    ensures r.Ok? <==> Known(nodes, given) && Acyclic(Declared(nodes, given))
    ensures r.Ok? ==> r.value.nodes == nodes && ValidDag(r.value) && EdgesOf(r.value.parents) == Declared(nodes, given)
  {
    var ok, parents, children, indegree := Build(nodes, given);
    if !ok {
      return Err("CDB-9504");
    }
    var order := Order(nodes, parents, children, indegree);
    assert EdgesOf(parents) == Declared(nodes, given);
    var dag := Dag(nodes, parents, children, order);
    if |order| != |nodes| {
      LeftoverIsCyclic(dag);
      return Err("CDB-9505");
    }
    FullOrderIsTopological(dag);
    r := Ok(dag);
  }

  /** The parent relation the caller declared. */
  ghost function Declared(nodes: seq<Iri>, given: ParentTable): set<(Iri, Iri)> {
    set c, p | c in nodes && p in ParentsOf(given, c) :: (c, p)
  }

  ghost predicate Finished(dag: Dag) {
    && WellBuilt(dag.nodes, dag.parents, dag.children) && Distinct(dag.nodes)
    && Distinct(dag.order) && (forall x :: x in dag.order ==> x in dag.parents) && ParentsFirst(dag.parents, dag.order)
    && forall c :: c in dag.parents ==> (c in dag.order <==> Open(dag.parents[c], Elements(dag.order)) == 0)
  }

  lemma SomethingIsLeft(order: seq<Iri>, nodes: seq<Iri>)
    requires Distinct(nodes) && Distinct(order) && |order| != |nodes|
    requires Elements(order) <= Elements(nodes)
    ensures Elements(nodes) - Elements(order) != {}
  {
    DistinctCard(order);
    DistinctCard(nodes);
    assert Elements(nodes) == Elements(order) + (Elements(nodes) - Elements(order));
  }

  lemma LeftoverContinues(parents: map<Iri, seq<Iri>>, done: set<Iri>, c: Iri)
    requires c in parents && Open(parents[c], done) != 0
    requires forall p :: p in parents[c] ==> p in parents
    ensures Continues(EdgesOf(parents), parents.Keys - done, c)
  {
    OpenZero(parents[c], done);
    var p :| p in parents[c] && p !in done;
    assert p in parents.Keys - done && (c, p) in EdgesOf(parents);
  }

  lemma LeftoverIsCyclic(dag: Dag)
    requires Finished(dag) && |dag.order| != |dag.nodes|
    ensures !Acyclic(EdgesOf(dag.parents))
  {
    var done := Elements(dag.order);
    assert done <= dag.parents.Keys;
    SomethingIsLeft(dag.order, dag.nodes);
    var left := dag.parents.Keys - done;
    forall c | c in left
      ensures Continues(EdgesOf(dag.parents), left, c)
    {
      LeftoverContinues(dag.parents, done, c);
    }
    EndlessMeansCycle(EdgesOf(dag.parents), left);
  }

  lemma FullOrderIsTopological(dag: Dag)
    requires Finished(dag) && |dag.order| == |dag.nodes|
    ensures IsTopological(dag) && Acyclic(EdgesOf(dag.parents))
  {
    DistinctCard(dag.order);
    DistinctCard(dag.nodes);
    assert Elements(dag.order) <= Elements(dag.nodes);
    SubsetSameCard(Elements(dag.order), Elements(dag.nodes));
    TopologicalIsRanked(dag);
    RankedIsAcyclic(EdgesOf(dag.parents), dag.order);
  }

  lemma TopologicalIsRanked(dag: Dag)
    requires ValidDag(dag)
    ensures Ranked(EdgesOf(dag.parents), dag.order)
  {
    forall c, p | (c, p) in EdgesOf(dag.parents)
      ensures exists i, j :: 0 <= j < i < |dag.order| && dag.order[i] == c && dag.order[j] == p
    {
      assert c in Elements(dag.order);
      var i :| 0 <= i < |dag.order| && dag.order[i] == c;
      assert p in dag.order[..i];
      var j :| 0 <= j < i && dag.order[..i][j] == p;
      assert dag.order[j] == p;
    }
  }

  lemma SubsetSameCard<T>(small: set<T>, large: set<T>)
    requires small <= large && |small| == |large|
    ensures small == large
  {
    assert large == small + (large - small);
  }
}
