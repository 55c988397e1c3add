/** Ancestor and descendant queries over an accepted hierarchy (onto/hierarchy.py). */
module HierarchyQueries {
  import opened Results
  import opened Walks
  import opened Hierarchy

  ghost predicate Listed(lists: map<Iri, seq<Iri>>) {
    forall x, y :: x in lists && y in lists[x] ==> y in lists
  }

  // ---------------------------------------------------------------- the recursive collector

  /** Nodes collected on behalf of `iri`: each is reached from it, and has all its neighbours in `seen`. */
  ghost predicate Explored(edges: set<(Iri, Iri)>, iri: Iri, added: set<Iri>, seen: set<Iri>) {
    && (forall x :: x in added ==> Reaches(edges, iri, x))
    && (forall x, y :: x in added && (x, y) in edges ==> y in seen)
  }

  /** The shared `seen` set and `ordered` list agree. */
  ghost predicate InStep(lists: map<Iri, seq<Iri>>, seen: set<Iri>, ordered: seq<Iri>) {
    Distinct(ordered) && Elements(ordered) == seen && seen <= lists.Keys
  }

  lemma StepExplored(edges: set<(Iri, Iri)>, iri: Iri, c: Iri, added: set<Iri>, more: set<Iri>, seen: set<Iri>,
                     seen': set<Iri>)
    requires (iri, c) in edges && Explored(edges, iri, added, seen) && Explored(edges, c, more, seen')
    requires seen <= seen' && forall y :: (c, y) in edges ==> y in seen'
    ensures Explored(edges, iri, added + {c} + more, seen')
  {
    EdgeReaches(edges, iri, c);
    forall x | x in more
      ensures Reaches(edges, iri, x)
    {
      ReachesTransitive(edges, iri, c, x);
    }
  }

  lemma AddKeepsStep(lists: map<Iri, seq<Iri>>, seen: set<Iri>, ordered: seq<Iri>, c: Iri)
    requires InStep(lists, seen, ordered) && c in lists && c !in seen
    ensures InStep(lists, seen + {c}, ordered + [c])
  {
    DistinctSnoc(ordered, c);
    assert Elements(ordered + [c]) == Elements(ordered) + {c};
  }

  /** What the collector has done for `iri` after its first `n` neighbours. */
  ghost predicate Grown(lists: map<Iri, seq<Iri>>, iri: Iri, n: nat, seen0: set<Iri>, ordered0: seq<Iri>,
                        seen: set<Iri>, ordered: seq<Iri>)
    requires iri in lists && n <= |lists[iri]|
  {
    && InStep(lists, seen, ordered) && seen0 <= seen && ordered0 <= ordered
    && Explored(EdgesOf(lists), iri, seen - seen0, seen)
    && forall k :: 0 <= k < n ==> lists[iri][k] in seen
  }

  /** Entering neighbour `n` and then collecting on its behalf. */
  lemma GrownStep(lists: map<Iri, seq<Iri>>, iri: Iri, n: nat, seen0: set<Iri>, ordered0: seq<Iri>,
                  seen: set<Iri>, ordered: seq<Iri>, seen': set<Iri>, ordered': seq<Iri>)
    requires Listed(lists) && iri in lists && n < |lists[iri]| && lists[iri][n] in lists
    requires Grown(lists, iri, n, seen0, ordered0, seen, ordered) && lists[iri][n] !in seen
    requires Grown(lists, lists[iri][n], |lists[lists[iri][n]]|, seen + {lists[iri][n]},
                   ordered + [lists[iri][n]], seen', ordered')
    ensures Grown(lists, iri, n + 1, seen0, ordered0, seen', ordered')
  {
    var c, edges := lists[iri][n], EdgesOf(lists);
    assert (iri, c) in edges;
    forall y | (c, y) in edges
      ensures y in seen'
    {
    }
    StepExplored(edges, iri, c, seen - seen0, seen' - (seen + {c}), seen, seen');
    assert seen' - seen0 == (seen - seen0) + {c} + (seen' - (seen + {c}));
  }

  /** `_collect_up` / `_collect_down`: depth first, one entry per node. */
  method Collect(lists: map<Iri, seq<Iri>>, iri: Iri, seen0: set<Iri>, ordered0: seq<Iri>)
    returns (seen: set<Iri>, ordered: seq<Iri>)
    requires Listed(lists) && iri in lists && InStep(lists, seen0, ordered0)
    ensures Grown(lists, iri, |lists[iri]|, seen0, ordered0, seen, ordered)
    decreases |lists.Keys - seen0|
  {
    seen, ordered := seen0, ordered0;
    for n := 0 to |lists[iri]|
      invariant Grown(lists, iri, n, seen0, ordered0, seen, ordered)
    {
      var c := lists[iri][n];
      if c !in seen {
        AddKeepsStep(lists, seen, ordered, c);
        SmallerRest(lists.Keys, seen0, seen + {c}, c);
        var seen', ordered' := Collect(lists, c, seen + {c}, ordered + [c]);
        GrownStep(lists, iri, n, seen0, ordered0, seen, ordered, seen', ordered');
        seen, ordered := seen', ordered';
      }
    }
  }

  lemma SmallerRest(all: set<Iri>, before: set<Iri>, after: set<Iri>, c: Iri)
    requires before <= after && c in after && c in all && c !in before
    ensures |all - after| < |all - before|
  {
    SubsetCard((all - after) + {c}, all - before);
  }

  // ---------------------------------------------------------------- closure of the two relations

  ghost predicate ListsClosure(lists: map<Iri, seq<Iri>>, iri: Iri, includeSelf: bool, out: seq<Iri>) {
    Distinct(out) && forall x :: x in out <==> (includeSelf && x == iri) || Reaches(EdgesOf(lists), iri, x)
  }

  lemma ExploredIsClosure(lists: map<Iri, seq<Iri>>, iri: Iri, seen0: set<Iri>, seen: set<Iri>)
    requires seen0 <= seen && seen0 <= {iri}
    requires Explored(EdgesOf(lists), iri, seen - seen0, seen)
    requires forall y :: (iri, y) in EdgesOf(lists) ==> y in seen
    ensures forall x :: x in seen <==> x in seen0 || Reaches(EdgesOf(lists), iri, x)
  {
    var edges := EdgesOf(lists);
    forall x | Reaches(edges, iri, x)
      ensures x in seen
    {
      var n: nat :| n >= 1 && Hops(edges, iri, x, n);
      var p :| WalkFromTo(edges, iri, x, p) && |p| == n + 1;
      ReachesStaysInside(edges, seen, iri, p);
    }
  }

  /** The common body of `ancestors` and `descendants`. */
  method Closure(lists: map<Iri, seq<Iri>>, iri: Iri, includeSelf: bool) returns (out: seq<Iri>)
    requires Listed(lists) && iri in lists
    ensures ListsClosure(lists, iri, includeSelf, out)
    ensures includeSelf ==> [iri] <= out
  {
    var seen, ordered := {}, [];
    if includeSelf {
      seen, ordered := {iri}, [iri];
    }
    ghost var start := seen;
    seen, ordered := Collect(lists, iri, seen, ordered);
    ExploredIsClosure(lists, iri, start, seen);
    out := ordered;
    assert forall x :: x in out <==> x in Elements(out);
  }

  /** `ancestors`: the strict superclasses, each once, and the node itself first if asked for. */
  method Ancestors(dag: Dag, iri: Iri, includeSelf: bool) returns (r: Result<seq<Iri>>)
    requires ValidDag(dag)
    ensures r.Err? <==> iri !in dag.nodes
    ensures r.Err? ==> r == Err("CDB-9504")
    ensures r.Ok? ==> ListsClosure(dag.parents, iri, includeSelf, r.value) && (includeSelf ==> [iri] <= r.value)
  {
    assert iri in dag.nodes <==> iri in Elements(dag.nodes);
    if iri !in dag.parents {
      return Err("CDB-9504");
    }
    var out := Closure(dag.parents, iri, includeSelf);
    r := Ok(out);
  }

  /** `descendants`: the strict subclasses, each once, and the node itself first if asked for. */
  method Descendants(dag: Dag, iri: Iri, includeSelf: bool) returns (r: Result<seq<Iri>>)
    requires ValidDag(dag)
    ensures r.Err? <==> iri !in dag.nodes
    ensures r.Err? ==> r == Err("CDB-9504")
    ensures r.Ok? ==> ListsClosure(dag.children, iri, includeSelf, r.value) && (includeSelf ==> [iri] <= r.value)
  {
    assert iri in dag.nodes <==> iri in Elements(dag.nodes);
    if iri !in dag.parents {
      return Err("CDB-9504");
    }
    var out := Closure(dag.children, iri, includeSelf);
    r := Ok(out);
  }

  /** The two adjacency dictionaries are converses of each other. */
  lemma ListsAreConverse(dag: Dag, c: Iri, p: Iri)
    requires ValidDag(dag)
    ensures (c, p) in EdgesOf(dag.parents) <==> (p, c) in EdgesOf(dag.children)
  {
  }

  /** Someone's ancestors are exactly those that have it among their descendants. */
  lemma AncestorsConverseDescendants(dag: Dag, c: Iri, p: Iri)
    requires ValidDag(dag)
    ensures Reaches(EdgesOf(dag.parents), c, p) <==> Reaches(EdgesOf(dag.children), p, c)
  {
    var up, down := EdgesOf(dag.parents), EdgesOf(dag.children);
    forall x, y
      ensures (x, y) in up <==> (y, x) in down
    {
      ListsAreConverse(dag, x, y);
    }
    if Reaches(up, c, p) {
      var n: nat :| n >= 1 && Hops(up, c, p, n);
      ConverseHops(up, down, c, p, n);
    }
    if Reaches(down, p, c) {
      var n: nat :| n >= 1 && Hops(down, p, c, n);
      ConverseHops(down, up, p, c, n);
    }
  }

  /** On an accepted hierarchy nothing is its own ancestor, and everything reached is a node. */
  lemma AcceptedIsStrict(dag: Dag, c: Iri, p: Iri)
    requires ValidDag(dag)
    ensures !Reaches(EdgesOf(dag.parents), c, c)
    ensures Reaches(EdgesOf(dag.parents), c, p) ==> c in dag.nodes && p in dag.nodes
  {
    TopologicalIsRanked(dag);
    RankedIsAcyclic(EdgesOf(dag.parents), dag.order);
    assert forall x :: x in dag.nodes <==> x in Elements(dag.nodes);
    if Reaches(EdgesOf(dag.parents), c, p) {
      var n: nat :| n >= 1 && Hops(EdgesOf(dag.parents), c, p, n);
      var w :| WalkFromTo(EdgesOf(dag.parents), c, p, w) && |w| == n + 1;
      assert (w[0], w[1]) in EdgesOf(dag.parents);
      ReachesStaysInside(EdgesOf(dag.parents), dag.parents.Keys, c, w);
    }
  }

  ghost predicate SubtypeOf(dag: Dag, child: Iri, parent: Iri, reflexive: bool) {
    (reflexive && child == parent) || Reaches(EdgesOf(dag.parents), child, parent)
  }

  method IsSubtype(dag: Dag, child: Iri, parent: Iri, reflexive: bool) returns (r: Result<bool>)
    requires ValidDag(dag)
    ensures r.Err? <==> child !in dag.nodes || parent !in dag.nodes
    ensures r.Err? ==> r == Err("CDB-9504")
    ensures r.Ok? ==> (r.value <==> SubtypeOf(dag, child, parent, reflexive))
  {
    assert forall x :: x in dag.nodes <==> x in Elements(dag.nodes);
    if child !in dag.parents || parent !in dag.parents {
      return Err("CDB-9504");
    }
    if reflexive && child == parent {
      return Ok(true);
    }
    var up := Closure(dag.parents, child, false);
    r := Ok(parent in up);
  }
}
