/** Paths over an edge table, read as walks between the endpoints of its rows (api.py). */
module Routes {
  import opened Walks
  import opened Paths

  // ---------------------------------------------------------------- routes

  /** Where the `i`-th step of a path starts. */
  function StartOf(source: nat, p: Path, i: nat): nat
    requires i <= |p|
  {
    if i == 0 then source else p[i - 1].next
  }

  /** Every step follows a row of the table from where the one before it ended. */
  ghost predicate IsRoute(edges: seq<Edge>, direction: Direction, source: nat, p: Path) {
    forall i :: 0 <= i < |p| ==> IsStep(edges, direction, StartOf(source, p, i), p[i])
  }

  /** No node is visited twice. */
  ghost predicate VisitsOnce(source: nat, p: Path) {
    forall i, j :: 0 <= i < j <= |p| ==> StartOf(source, p, i) != StartOf(source, p, j)
  }

  lemma EndIsStart(source: nat, p: Path)
    ensures End(source, p) == StartOf(source, p, |p|)
  {
  }

  lemma {:induction false} PathIsRoute(edges: seq<Edge>, direction: Direction, source: nat, p: Path)
    ensures IsPath(AdjacencyOf(edges, direction), source, p) <==> IsRoute(edges, direction, source, p)
  {
    if p != [] {
      var q, s := p[..|p| - 1], p[|p| - 1];
      PathIsRoute(edges, direction, source, q);
      InAdjacency(edges, direction, End(source, q), s);
      RouteSnoc(edges, direction, source, p);
    }
  }

  lemma RouteSnoc(edges: seq<Edge>, direction: Direction, source: nat, p: Path)
    requires p != []
    ensures IsRoute(edges, direction, source, p) <==>
      var q := p[..|p| - 1];
      IsRoute(edges, direction, source, q) && IsStep(edges, direction, End(source, q), p[|p| - 1])
  {
    var q := p[..|p| - 1];
    EndIsStart(source, q);
    forall i | 0 <= i < |q|
      ensures IsStep(edges, direction, StartOf(source, q, i), q[i]) <==>
        IsStep(edges, direction, StartOf(source, p, i), p[i])
    {
      assert StartOf(source, q, i) == StartOf(source, p, i) && q[i] == p[i];
    }
    assert StartOf(source, p, |q|) == StartOf(source, q, |q|);
  }

  lemma {:induction false} NodesAreStarts(source: nat, p: Path)
    ensures |Nodes(source, p)| == |p| + 1
    ensures forall i :: 0 <= i <= |p| ==> Nodes(source, p)[i] == StartOf(source, p, i)
  {
    if p != [] {
      NodesAreStarts(source, p[..|p| - 1]);
    }
  }

  /** Simple paths are the routes that visit no node twice. */
  lemma SimpleIsRoute(edges: seq<Edge>, direction: Direction, source: nat, p: Path)
    ensures IsSimple(AdjacencyOf(edges, direction), source, p) <==>
      IsRoute(edges, direction, source, p) && VisitsOnce(source, p)
  {
    PathIsRoute(edges, direction, source, p);
    NodesAreStarts(source, p);
  }

  /** A route of 1 to `maxDepth` steps to the target that visits no node twice. */
  ghost predicate IsAnswer(edges: seq<Edge>, direction: Direction, source: nat, target: nat, maxDepth: nat, q: Path) {
    && 1 <= |q| <= maxDepth && q[|q| - 1].next == target
    && IsRoute(edges, direction, source, q) && VisitsOnce(source, q)
  }

  // ---------------------------------------------------------------- walks between endpoints

  ghost function Arrows(edges: seq<Edge>): set<(nat, nat)> {
    set e | e in edges :: (e.src, e.dst)
  }

  ghost function Reversed(edges: seq<Edge>): set<(nat, nat)> {
    set e | e in edges :: (e.dst, e.src)
  }

  /** One step along, against, or along or against the rows of the table. */
  ghost function Relation(edges: seq<Edge>, direction: Direction): set<(nat, nat)> {
    match direction
    case Out => Arrows(edges)
    case In => Reversed(edges)
    case Both => Arrows(edges) + Reversed(edges)
  }

  lemma StepRelates(edges: seq<Edge>, direction: Direction, u: nat, s: Step)
    requires IsStep(edges, direction, u, s)
    ensures (u, s.next) in Relation(edges, direction)
  {
  }

  lemma RelationHasStep(edges: seq<Edge>, direction: Direction, u: nat, v: nat) returns (s: Step)
    requires (u, v) in Relation(edges, direction)
    ensures IsStep(edges, direction, u, s) && s.next == v
  {
    if direction != In && (u, v) in Arrows(edges) {
      var e :| e in edges && e.src == u && e.dst == v;
      s := Step(e, v, true);
    } else {
      var e :| e in edges && e.dst == u && e.src == v;
      s := Step(e, v, false);
    }
  }

  lemma {:induction false} RouteIsWalk(edges: seq<Edge>, direction: Direction, source: nat, p: Path)
    requires IsRoute(edges, direction, source, p)
    ensures Hops(Relation(edges, direction), source, End(source, p), |p|)
  {
    var rel := Relation(edges, direction);
    if p == [] {
      HopsZero(rel, source, source);
    } else {
      var q, s := p[..|p| - 1], p[|p| - 1];
      RouteSnoc(edges, direction, source, p);
      RouteIsWalk(edges, direction, source, q);
      StepRelates(edges, direction, End(source, q), s);
      HopsOne(rel, End(source, q), s.next);
      HopsConcat(rel, source, End(source, q), s.next, |q|, 1);
    }
  }

  lemma {:induction false} WalkIsRoute(edges: seq<Edge>, direction: Direction, source: nat, target: nat, n: nat)
    returns (p: Path)
    requires Hops(Relation(edges, direction), source, target, n)
    ensures IsRoute(edges, direction, source, p) && End(source, p) == target && |p| == n
    decreases n
  {
    var rel := Relation(edges, direction);
    p := [];
    if n == 0 {
      HopsZero(rel, source, target);
    } else {
      var middle := HopsSplit(rel, source, target, n - 1, 1);
      HopsOne(rel, middle, target);
      var q := WalkIsRoute(edges, direction, source, middle, n - 1);
      var s := RelationHasStep(edges, direction, middle, target);
      p := q + [s];
      assert p[..|p| - 1] == q;
      RouteSnoc(edges, direction, source, p);
    }
  }

  /** There is a path of `n` steps if and only if there is a walk of `n` steps in the relation. */
  lemma PathsAreWalks(edges: seq<Edge>, direction: Direction, source: nat, target: nat, n: nat)
    ensures (exists p :: IsPath(AdjacencyOf(edges, direction), source, p) && End(source, p) == target && |p| == n)
       <==> Hops(Relation(edges, direction), source, target, n)
  {
    var adj := AdjacencyOf(edges, direction);
    if p :| IsPath(adj, source, p) && End(source, p) == target && |p| == n {
      PathIsRoute(edges, direction, source, p);
      RouteIsWalk(edges, direction, source, p);
    }
    if Hops(Relation(edges, direction), source, target, n) {
      var p := WalkIsRoute(edges, direction, source, target, n);
      PathIsRoute(edges, direction, source, p);
    }
  }
}
