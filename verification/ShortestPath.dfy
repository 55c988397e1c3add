/** Path queries: exact enumeration, result order, and shortest path (api.py `_paths`, `_shortest_path`). */
module ShortestPath {
  import opened Results
  import opened Walks
  import opened Paths
  import opened PathSearch
  import opened Routes

  // ---------------------------------------------------------------- walks shorten to simple paths

  lemma {:induction false} NodesAreEnds(source: nat, p: Path, i: nat)
    requires i <= |p|
    ensures |Nodes(source, p)| == |p| + 1 && Nodes(source, p)[i] == End(source, p[..i])
  {
    if p != [] {
      var n := |p| - 1;
      NodesAreEnds(source, p[..n], if i <= n then i else n);
      if i <= n {
        assert p[..n][..i] == p[..i];
      } else {
        assert p[..i] == p;
      }
    }
  }

  lemma {:induction false} PrefixIsPath(adj: Adjacency, source: nat, p: Path, i: nat)
    requires IsPath(adj, source, p) && i <= |p|
    ensures IsPath(adj, source, p[..i])
  {
    if i < |p| {
      PrefixIsPath(adj, source, p[..|p| - 1], i);
      assert p[..|p| - 1][..i] == p[..i];
    } else {
      assert p[..i] == p;
    }
  }

  /** Cutting out a loop leaves a path to the same end. */
  lemma {:induction false} CutPath(adj: Adjacency, source: nat, p: Path, i: nat, j: nat)
    requires IsPath(adj, source, p) && i < j <= |p| && End(source, p[..i]) == End(source, p[..j])
    ensures IsPath(adj, source, p[..i] + p[j..]) && End(source, p[..i] + p[j..]) == End(source, p)
    decreases |p|
  {
    var cut := p[..i] + p[j..];
    if j == |p| {
      PrefixIsPath(adj, source, p, i);
      assert cut == p[..i] && p[..j] == p;
    } else {
      var q := p[..|p| - 1];
      assert q[..i] == p[..i] && q[..j] == p[..j];
      CutPath(adj, source, q, i, j);
      assert cut[..|cut| - 1] == q[..i] + q[j..];
      assert cut[|cut| - 1] == p[|p| - 1];
    }
  }

  lemma {:induction false} ShortenPath(adj: Adjacency, source: nat, p: Path) returns (q: Path)
    requires IsPath(adj, source, p)
    ensures IsSimple(adj, source, q) && End(source, q) == End(source, p) && |q| <= |p|
    decreases |p|
  {
    NodesAreEnds(source, p, 0);
    if Distinct(Nodes(source, p)) {
      q := p;
    } else {
      var i, j :| 0 <= i < j <= |p| && Nodes(source, p)[i] == Nodes(source, p)[j];
      NodesAreEnds(source, p, i);
      NodesAreEnds(source, p, j);
      CutPath(adj, source, p, i, j);
      q := ShortenPath(adj, source, p[..i] + p[j..]);
    }
  }

  // ---------------------------------------------------------------- the vertex-count bound

  ghost predicate EndpointsBelow(edges: seq<Edge>, n: nat) {
    forall i :: 0 <= i < |edges| ==> edges[i].src < n && edges[i].dst < n
  }

  lemma StepEndpoints(edges: seq<Edge>, direction: Direction, u: nat, s: Step, n: nat)
    requires EndpointsBelow(edges, n) && s in AdjacencyOf(edges, direction)(u)
    ensures u < n && s.next < n
  {
    InAdjacency(edges, direction, u, s);
  }

  lemma {:induction false} NodesBelow(edges: seq<Edge>, direction: Direction, source: nat, p: Path, n: nat)
    requires EndpointsBelow(edges, n) && IsPath(AdjacencyOf(edges, direction), source, p) && p != []
    ensures forall x :: x in Nodes(source, p) ==> x in Below(n)
  {
    var q := p[..|p| - 1];
    StepEndpoints(edges, direction, End(source, q), p[|p| - 1], n);
    if q != [] {
      NodesBelow(edges, direction, source, q, n);
    }
  }

  /** A simple path has fewer steps than there are vertices. */
  lemma SimplePathsAreShort(edges: seq<Edge>, direction: Direction, source: nat, p: Path, n: nat)
    requires EndpointsBelow(edges, n) && IsSimple(AdjacencyOf(edges, direction), source, p) && p != []
    ensures |p| < n
  {
    NodesBelow(edges, direction, source, p, n);
    NodesAreEnds(source, p, 0);
    Pigeonhole(Nodes(source, p), Below(n));
  }

  // ---------------------------------------------------------------- result order

  predicate LexLess(a: seq<nat>, b: seq<nat>) {
    if a == [] then b != []
    else if b == [] then false
    else a[0] < b[0] || (a[0] == b[0] && LexLess(a[1..], b[1..]))
  }

  lemma {:induction false} LexTransitive(a: seq<nat>, b: seq<nat>, c: seq<nat>)
    requires !LexLess(b, a) && !LexLess(c, b)
    ensures !LexLess(c, a)
    decreases |a|
  {
    if a != [] && b != [] && c != [] && a[0] == b[0] == c[0] {
      LexTransitive(a[1..], b[1..], c[1..]);
    }
  }

  lemma {:induction false} LexAsymmetric(a: seq<nat>, b: seq<nat>)
    requires LexLess(a, b)
    ensures !LexLess(b, a)
    decreases |a|
  {
    if a != [] && a[0] == b[0] {
      LexAsymmetric(a[1..], b[1..]);
    }
  }

  function EdgeIds(p: Path): seq<nat> {
    if p == [] then [] else EdgeIds(p[..|p| - 1]) + [p[|p| - 1].edge.eid]
  }

  /** `(depth, node ids, edge ids)`; rows of equal depth have node and edge lists of equal length. */
  function Key(source: nat, p: Path): seq<nat> {
    [|p|] + Nodes(source, p) + EdgeIds(p)
  }

  function Place(source: nat, x: Path, sorted: seq<Path>): seq<Path> {
    if sorted == [] then [x]
    else
      var n := |sorted| - 1;
      if LexLess(Key(source, x), Key(source, sorted[n])) then Place(source, x, sorted[..n]) + [sorted[n]]
          else sorted + [x]
  }

  /** The stable sort of the result rows. */
  function SortRows(source: nat, rows: seq<Path>): seq<Path> {
    if rows == [] then [] else Place(source, rows[|rows| - 1], SortRows(source, rows[..|rows| - 1]))
  }

  /** No row is preceded by a larger one. */
  ghost predicate InOrder(source: nat, rows: seq<Path>) {
    forall i, j :: 0 <= i < j < |rows| ==> !LexLess(Key(source, rows[j]), Key(source, rows[i]))
  }

  lemma {:induction false} PlaceElements(source: nat, x: Path, sorted: seq<Path>)
    ensures multiset(Place(source, x, sorted)) == multiset(sorted) + multiset{x}
  {
    if sorted != [] {
      var n := |sorted| - 1;
      assert sorted == sorted[..n] + [sorted[n]];
      PlaceElements(source, x, sorted[..n]);
    }
  }

  /** Nothing in `rows` is larger than `y`. */
  ghost predicate NoneAbove(source: nat, rows: seq<Path>, y: Path) {
    forall x :: x in rows ==> !LexLess(Key(source, y), Key(source, x))
  }

  lemma InOrderSnoc(source: nat, rows: seq<Path>, y: Path)
    requires InOrder(source, rows) && NoneAbove(source, rows, y)
    ensures InOrder(source, rows + [y])
  {
  }

  lemma LastIsLargest(source: nat, rows: seq<Path>)
    requires InOrder(source, rows) && rows != []
    ensures NoneAbove(source, rows[..|rows| - 1], rows[|rows| - 1])
  {
  }

  lemma {:induction false} PlaceInOrder(source: nat, x: Path, sorted: seq<Path>)
    requires InOrder(source, sorted)
    ensures InOrder(source, Place(source, x, sorted))
  {
    if sorted != [] {
      var n := |sorted| - 1;
      LastIsLargest(source, sorted);
      if LexLess(Key(source, x), Key(source, sorted[n])) {
        PlaceInOrder(source, x, sorted[..n]);
        PlacedBelow(source, x, sorted[..n], sorted[n]);
        InOrderSnoc(source, Place(source, x, sorted[..n]), sorted[n]);
      } else {
        AboveAll(source, sorted[..n], sorted[n], x);
        assert sorted == sorted[..n] + [sorted[n]];
        InOrderSnoc(source, sorted, x);
      }
    }
  }

  lemma PlacedBelow(source: nat, x: Path, rows: seq<Path>, y: Path)
    requires NoneAbove(source, rows, y) && LexLess(Key(source, x), Key(source, y))
    ensures NoneAbove(source, Place(source, x, rows), y)
  {
    PlaceElements(source, x, rows);
    LexAsymmetric(Key(source, x), Key(source, y));
    forall q | q in Place(source, x, rows)
      ensures q == x || q in rows
    {
      assert q in multiset(Place(source, x, rows));
    }
  }

  lemma AboveAll(source: nat, rows: seq<Path>, last: Path, x: Path)
    requires NoneAbove(source, rows, last) && !LexLess(Key(source, x), Key(source, last))
    ensures NoneAbove(source, rows + [last], x)
  {
    forall q | q in rows
      ensures !LexLess(Key(source, x), Key(source, q))
    {
      LexTransitive(Key(source, q), Key(source, last), Key(source, x));
    }
  }

  /** Sorting permutes the rows. */
  lemma {:induction false} SortRowsElements(source: nat, rows: seq<Path>)
    ensures multiset(SortRows(source, rows)) == multiset(rows)
  {
    if rows != [] {
      var n := |rows| - 1;
      SortRowsElements(source, rows[..n]);
      PlaceElements(source, rows[n], SortRows(source, rows[..n]));
      LastElement(rows);
    }
  }

  lemma LastElement(rows: seq<Path>)
    requires rows != []
    ensures multiset(rows) == multiset(rows[..|rows| - 1]) + multiset{rows[|rows| - 1]}
  {
    assert rows == rows[..|rows| - 1] + [rows[|rows| - 1]];
  }

  /** Sorting puts smaller keys first. */
  lemma {:induction false} SortRowsInOrder(source: nat, rows: seq<Path>)
    ensures InOrder(source, SortRows(source, rows))
  {
    if rows != [] {
      SortRowsInOrder(source, rows[..|rows| - 1]);
      PlaceInOrder(source, rows[|rows| - 1], SortRows(source, rows[..|rows| - 1]));
    }
  }

  /** The rows in the order of the result: by depth, then node ids, then edge ids. */
  ghost predicate Precedes(p: Path, q: Path) {
    || |p| < |q|
    || (|p| == |q|
        && exists m :: 0 <= m < |p| && p[m].next < q[m].next && forall l :: 0 <= l < m ==> p[l].next == q[l].next)
    || (|p| == |q| && (forall l :: 0 <= l < |p| ==> p[l].next == q[l].next)
        && exists m :: 0 <= m < |p| && p[m].edge.eid < q[m].edge.eid && forall l :: 0 <= l < m ==>
          p[l].edge.eid == q[l].edge.eid)
  }

  lemma {:induction false} FirstDifferenceLess(a: seq<nat>, b: seq<nat>, m: nat)
    requires m < |a| && m < |b| && a[m] < b[m] && forall l :: 0 <= l < m ==> a[l] == b[l]
    ensures LexLess(a, b)
    decreases m
  {
    if m > 0 {
      FirstDifferenceLess(a[1..], b[1..], m - 1);
    }
  }

  lemma {:induction false} EdgeIdsAt(p: Path)
    ensures |EdgeIds(p)| == |p| && forall i :: 0 <= i < |p| ==> EdgeIds(p)[i] == p[i].edge.eid
  {
    if p != [] {
      EdgeIdsAt(p[..|p| - 1]);
    }
  }

  lemma KeyAt(source: nat, p: Path)
    ensures IsKey(Key(source, p), source, p)
  {
    NodesAreStarts(source, p);
    EdgeIdsAt(p);
    assert forall i :: 0 <= i < |p| ==> Nodes(source, p)[1 + i] == p[i].next;
  }

  /** A key, taken apart. */
  ghost predicate IsKey(key: seq<nat>, source: nat, p: Path) {
    && |key| == 2 * |p| + 2 && key[0] == |p| && key[1] == source
    && (forall i :: 2 <= i < 2 + |p| ==> key[i] == p[i - 2].next)
    && (forall i :: 2 + |p| <= i < 2 + 2 * |p| ==> key[i] == p[i - 2 - |p|].edge.eid)
  }

  lemma NextsLess(a: seq<nat>, b: seq<nat>, source: nat, p: Path, q: Path, m: nat)
    requires IsKey(a, source, p) && IsKey(b, source, q) && m < |p| == |q|
    requires p[m].next < q[m].next && forall l :: 0 <= l < m ==> p[l].next == q[l].next
    ensures LexLess(a, b)
  {
    assert a[2 + m] == p[m].next && b[2 + m] == q[m].next;
    forall l | 0 <= l < 2 + m
      ensures a[l] == b[l]
    {
      if l >= 2 {
        assert p[l - 2].next == q[l - 2].next;
      }
    }
    FirstDifferenceLess(a, b, 2 + m);
  }

  lemma EidsLess(a: seq<nat>, b: seq<nat>, source: nat, p: Path, q: Path, m: nat)
    requires IsKey(a, source, p) && IsKey(b, source, q) && m < |p| == |q|
    requires forall l :: 0 <= l < |p| ==> p[l].next == q[l].next
    requires p[m].edge.eid < q[m].edge.eid && forall l :: 0 <= l < m ==> p[l].edge.eid == q[l].edge.eid
    ensures LexLess(a, b)
  {
    var n := |p|;
    assert a[2 + n + m] == p[m].edge.eid && b[2 + n + m] == q[m].edge.eid;
    forall l | 0 <= l < 2 + n + m
      ensures a[l] == b[l]
    {
      if l >= 2 + n {
        assert p[l - 2 - n].edge.eid == q[l - 2 - n].edge.eid;
      } else if l >= 2 {
        assert p[l - 2].next == q[l - 2].next;
      }
    }
    FirstDifferenceLess(a, b, 2 + n + m);
  }

  lemma PrecedesIsLess(source: nat, p: Path, q: Path)
    requires Precedes(p, q)
    ensures LexLess(Key(source, p), Key(source, q))
  {
    var a, b, n := Key(source, p), Key(source, q), |p|;
    KeyAt(source, p);
    KeyAt(source, q);
    if |p| < |q| {
      FirstDifferenceLess(a, b, 0);
    } else if m :| 0 <= m < n && p[m].next < q[m].next && forall l :: 0 <= l < m ==> p[l].next == q[l].next {
      NextsLess(a, b, source, p, q, m);
    } else {
      var m :| 0 <= m < n && p[m].edge.eid < q[m].edge.eid && forall l :: 0 <= l < m ==> p[l].edge.eid == q[l].edge.eid;
      EidsLess(a, b, source, p, q, m);
    }
  }

  /** No row of the result is preceded by one that belongs before it. */
  lemma RowsInOrder(source: nat, rows: seq<Path>, i: nat, j: nat)
    requires i < j < |SortRows(source, rows)|
    ensures !Precedes(SortRows(source, rows)[j], SortRows(source, rows)[i])
  {
    var all := SortRows(source, rows);
    SortRowsInOrder(source, rows);
    if Precedes(all[j], all[i]) {
      PrecedesIsLess(source, all[j], all[i]);
    }
  }

  lemma InOrderDepths(source: nat, rows: seq<Path>, i: nat, j: nat)
    requires InOrder(source, rows) && i < j < |rows|
    ensures |rows[i]| <= |rows[j]|
  {
    assert Key(source, rows[i])[0] == |rows[i]| && Key(source, rows[j])[0] == |rows[j]|;
  }

  // ---------------------------------------------------------------- queries

  /** `_paths` without a score: enumerate, sort, cut to the limit. */
  method PathsQuery(edges: seq<Edge>, direction: Direction, source: nat, target: nat, maxDepth: int, limit: int)
    returns (r: Result<seq<Path>>)
    ensures r.Ok? <==> maxDepth >= 1 && limit >= 0
    ensures r.Ok? ==>
      var all := SortRows(source, HitsUpTo(AdjacencyOf(edges, direction), source, target, maxDepth));
      r.value == if limit < |all| then all[..limit] else all
  {
    if maxDepth < 1 {
      return Err("CDB-6031");
    }
    if limit < 0 {
      return Err("CDB-6020");
    }
    var rows := EnumeratePaths(edges, direction, source, target, maxDepth);
    var all := SortRows(source, rows);
    r := Ok(if limit < |all| then all[..limit] else all);
  }

  /** Enumeration emits every simple path of 1 to `maxDepth` steps to the target once, and nothing else. */
  lemma EnumerationExact(edges: seq<Edge>, direction: Direction, source: nat, target: nat, maxDepth: nat)
    requires Distinct(edges)
    ensures var adj := AdjacencyOf(edges, direction);
            var all := SortRows(source, HitsUpTo(adj, source, target, maxDepth));
            forall q: Path :: multiset(all)[q] ==
              if IsAnswer(edges, direction, source, target, maxDepth, q) then 1 else 0
  {
    var adj := AdjacencyOf(edges, direction);
    var rows := HitsUpTo(adj, source, target, maxDepth);
    SortRowsElements(source, rows);
    DistinctEdgesNoRepeats(edges, direction);
    HitsUpToDistinct(adj, source, target, maxDepth);
    forall q: Path
      ensures multiset(rows)[q] == if IsAnswer(edges, direction, source, target, maxDepth, q) then 1 else 0
    {
      InHitsUpTo(adj, source, target, maxDepth, q);
      SimpleIsRoute(edges, direction, source, q);
      DistinctOnce(rows, q);
    }
  }

  lemma {:induction false} DistinctOnce(rows: seq<Path>, q: Path)
    requires Distinct(rows)
    ensures multiset(rows)[q] == if q in rows then 1 else 0
  {
    if rows != [] {
      var n := |rows| - 1;
      DistinctOnce(rows[..n], q);
      assert rows == rows[..n] + [rows[n]];
    }
  }

  /** Some walk with at most `bound` steps leads from source to target. */
  ghost predicate ReachableWithin(adj: Adjacency, source: nat, target: nat, bound: nat) {
    exists q :: IsPath(adj, source, q) && End(source, q) == target && |q| <= bound
  }

  ghost predicate Shortest(adj: Adjacency, source: nat, target: nat, p: Path) {
    && IsSimple(adj, source, p) && End(source, p) == target
    && forall q :: IsPath(adj, source, q) && End(source, q) == target ==> |p| <= |q|
  }

  lemma FirstRowIsShortest(adj: Adjacency, source: nat, target: nat, bound: nat, all: seq<Path>)
    requires source != target && all == SortRows(source, HitsUpTo(adj, source, target, bound))
    ensures all == [] <==> !ReachableWithin(adj, source, target, bound)
    ensures all != [] ==> Shortest(adj, source, target, all[0])
  {
    var rows := HitsUpTo(adj, source, target, bound);
    SortRowsElements(source, rows);
    SortRowsInOrder(source, rows);
    forall q | IsPath(adj, source, q) && End(source, q) == target && |q| <= bound
      ensures all != [] && |all[0]| <= |q|
    {
      ShorterRowExists(adj, source, target, bound, all, q);
    }
    if all != [] {
      assert all[0] in multiset(all);
      InHitsUpTo(adj, source, target, bound, all[0]);
    }
  }

  lemma ShorterRowExists(adj: Adjacency, source: nat, target: nat, bound: nat, all: seq<Path>, q: Path)
    requires source != target && IsPath(adj, source, q) && End(source, q) == target && |q| <= bound
    requires multiset(all) == multiset(HitsUpTo(adj, source, target, bound)) && InOrder(source, all)
    ensures all != [] && |all[0]| <= |q|
  {
    var p := ShortenPath(adj, source, q);
    InHitsUpTo(adj, source, target, bound, p);
    assert p in multiset(all);
    var j :| 0 <= j < |all| && all[j] == p;
    if j > 0 {
      InOrderDepths(source, all, 0, j);
    }
  }

  /** `_shortest_path`: the first row of the bounded enumeration. */
  method FindShortest(edges: seq<Edge>, direction: Direction, source: nat, target: nat, maxDepth: Option<int>,
                      vertexCount: nat)
    returns (r: Result<Option<Path>>)
    ensures r.Ok? <==> (maxDepth.Some? ==> maxDepth.value >= 1)
    ensures r.Ok? && source == target ==> r.value.None?
    ensures r.Ok? && source != target ==>
      var adj := AdjacencyOf(edges, direction);
      && (r.value.Some? ==> Shortest(adj, source, target, r.value.value))
      && (maxDepth.Some? ==> (r.value.Some? <==> ReachableWithin(adj, source, target, maxDepth.value)))
      && (maxDepth.None? && EndpointsBelow(edges, vertexCount) ==>
            (r.value.Some? <==> exists q :: IsPath(adj, source, q) && End(source, q) == target))
    ensures r.Ok? && r.value.Some? ==> IsShortestRoute(edges, direction, source, target, r.value.value)
    ensures r.Ok? && source != target && maxDepth.Some? ==>
      (r.value.Some? <==> exists n: nat :: n <= maxDepth.value && Hops(Relation(edges, direction), source, target, n))
    ensures r.Ok? && source != target && maxDepth.None? && EndpointsBelow(edges, vertexCount) ==>
      (r.value.Some? <==> exists n: nat :: Hops(Relation(edges, direction), source, target, n))
  {
    if maxDepth.Some? && maxDepth.value < 1 {
      return Err("CDB-6031");
    }
    var bound := if maxDepth.Some? then maxDepth.value else if vertexCount > 1 then vertexCount else 1;
    var rows := PathsQuery(edges, direction, source, target, bound, 1);
    r := Ok(if rows.value == [] then None else Some(rows.value[0]));
    ghost var adj := AdjacencyOf(edges, direction);
    ghost var all := SortRows(source, HitsUpTo(adj, source, target, bound));
    if source == target {
      NoPathToSelf(adj, source, bound);
    } else {
      FirstRowIsShortest(adj, source, target, bound, all);
      if maxDepth.None? && EndpointsBelow(edges, vertexCount) {
        DefaultBoundSuffices(edges, direction, source, target, vertexCount);
      }
      if r.value.Some? {
        ShortestIsRoute(edges, direction, source, target, r.value.value);
      }
      ReachableIsWalk(edges, direction, source, target, bound);
    }
  }

  /** A route to the target that no walk in the relation undercuts. */
  ghost predicate IsShortestRoute(edges: seq<Edge>, direction: Direction, source: nat, target: nat, p: Path) {
    && IsRoute(edges, direction, source, p) && VisitsOnce(source, p) && p != [] && p[|p| - 1].next == target
    && forall n: nat :: n < |p| ==> !Hops(Relation(edges, direction), source, target, n)
  }

  lemma ShortestIsRoute(edges: seq<Edge>, direction: Direction, source: nat, target: nat, p: Path)
    requires source != target && Shortest(AdjacencyOf(edges, direction), source, target, p)
    ensures IsShortestRoute(edges, direction, source, target, p)
  {
    SimpleIsRoute(edges, direction, source, p);
    forall n: nat | n < |p|
      ensures !Hops(Relation(edges, direction), source, target, n)
    {
      PathsAreWalks(edges, direction, source, target, n);
    }
  }

  lemma ReachableIsWalk(edges: seq<Edge>, direction: Direction, source: nat, target: nat, bound: nat)
    ensures ReachableWithin(AdjacencyOf(edges, direction), source, target, bound)
       <==> exists n: nat :: n <= bound && Hops(Relation(edges, direction), source, target, n)
    ensures (exists q :: IsPath(AdjacencyOf(edges, direction), source, q) && End(source, q) == target)
       <==> exists n: nat :: Hops(Relation(edges, direction), source, target, n)
  {
    var adj := AdjacencyOf(edges, direction);
    forall q | IsPath(adj, source, q) && End(source, q) == target
      ensures Hops(Relation(edges, direction), source, target, |q|)
    {
      PathsAreWalks(edges, direction, source, target, |q|);
    }
    forall n: nat | Hops(Relation(edges, direction), source, target, n)
      ensures exists q :: IsPath(adj, source, q) && End(source, q) == target && |q| == n
    {
      PathsAreWalks(edges, direction, source, target, n);
    }
  }

  lemma NoPathToSelf(adj: Adjacency, source: nat, bound: nat)
    ensures SortRows(source, HitsUpTo(adj, source, source, bound)) == []
  {
    var rows := HitsUpTo(adj, source, source, bound);
    if rows != [] {
      var q := rows[0];
      InHitsUpTo(adj, source, source, bound, q);
      NodesAreEnds(source, q, 0);
      NodesAreEnds(source, q, |q|);
      assert false;
    }
  }

  /** With the default bound nothing reachable is missed. */
  lemma DefaultBoundSuffices(edges: seq<Edge>, direction: Direction, source: nat, target: nat, n: nat)
    requires EndpointsBelow(edges, n) && source != target
    ensures ReachableWithin(AdjacencyOf(edges, direction), source, target, if n > 1 then n else 1)
       <==> exists q :: IsPath(AdjacencyOf(edges, direction), source, q) && End(source, q) == target
  {
    var adj := AdjacencyOf(edges, direction);
    forall q | IsPath(adj, source, q) && End(source, q) == target
      ensures ReachableWithin(adj, source, target, if n > 1 then n else 1)
    {
      var p := ShortenPath(adj, source, q);
      SimplePathsAreShort(edges, direction, source, p, n);
      assert IsPath(adj, source, p) && End(source, p) == target && |p| <= n;
    }
  }
}
