/** The lazy SUBCLASSOF* cache (onto/closure.py). */
module ClosureIndex {
  import opened Results
  import opened Walks
  import opened Hierarchy
  import opened HierarchyQueries

  type Bitmap = set<nat>

  predicate Injective(ids: map<Iri, nat>) {
    forall x, y :: x in ids && y in ids && ids[x] == ids[y] ==> x == y
  }

  /** The bitmap that a listing of class names stands for. */
  function BitmapOf(ids: map<Iri, nat>, iris: seq<Iri>): Bitmap
    requires forall x :: x in iris ==> x in ids
  {
    set x | x in iris :: ids[x]
  }

  /** The ids of everything reachable from `iri` in one of the two relations. */
  ghost predicate IsClosureBitmap(ids: map<Iri, nat>, lists: map<Iri, seq<Iri>>, iri: Iri, bitmap: Bitmap) {
    bitmap <= ids.Values && forall x :: x in ids ==> (ids[x] in bitmap <==> Reaches(EdgesOf(lists), iri, x))
  }

  /** The cache agrees with the hierarchy wherever it holds an entry. */
  ghost predicate Sound(ids: map<Iri, nat>, lists: map<Iri, seq<Iri>>, cache: map<Iri, Bitmap>) {
    cache.Keys <= ids.Keys && forall iri :: iri in cache ==> IsClosureBitmap(ids, lists, iri, cache[iri])
  }

  lemma ListingIsClosureBitmap(ids: map<Iri, nat>, lists: map<Iri, seq<Iri>>, iri: Iri, out: seq<Iri>)
    requires Injective(ids) && (forall x :: x in out ==> x in ids) && ListsClosure(lists, iri, false, out)
    ensures IsClosureBitmap(ids, lists, iri, BitmapOf(ids, out))
  {
  }

  /** Remembering a fresh listing keeps the cache sound. */
  lemma RememberKeepsSound(ids: map<Iri, nat>, lists: map<Iri, seq<Iri>>, cache: map<Iri, Bitmap>, iri: Iri,
                           out: seq<Iri>)
    requires Injective(ids) && Sound(ids, lists, cache) && iri in ids
    requires (forall x :: x in out ==> x in ids) && ListsClosure(lists, iri, false, out)
    ensures Sound(ids, lists, cache[iri := BitmapOf(ids, out)])
  {
    ListingIsClosureBitmap(ids, lists, iri, out);
  }

  /** A closure bitmap with the class itself added on request. */
  ghost predicate IsAnswer(ids: map<Iri, nat>, lists: map<Iri, seq<Iri>>, iri: Iri, includeSelf: bool, bitmap: Bitmap) {
    bitmap <= ids.Values && forall x :: x in ids ==> (ids[x] in bitmap
        <==> (includeSelf && x == iri) || Reaches(EdgesOf(lists), iri, x))
  }

  function WithSelf(ids: map<Iri, nat>, iri: Iri, includeSelf: bool, bitmap: Bitmap): Bitmap
    requires iri in ids
  {
    if includeSelf then bitmap + {ids[iri]} else bitmap
  }

  lemma WithSelfIsAnswer(ids: map<Iri, nat>, lists: map<Iri, seq<Iri>>, iri: Iri, includeSelf: bool, bitmap: Bitmap)
    requires iri in ids && Injective(ids) && IsClosureBitmap(ids, lists, iri, bitmap)
    ensures IsAnswer(ids, lists, iri, includeSelf, WithSelf(ids, iri, includeSelf, bitmap))
  {
  }

  /** Everything a listing names is a known class. */
  lemma ListingIsKnown(dag: Dag, iri: Iri, self: bool, out: seq<Iri>)
    requires ValidDag(dag) && iri in dag.nodes
    requires ListsClosure(dag.parents, iri, self, out) || ListsClosure(dag.children, iri, self, out)
    ensures forall x :: x in out ==> x in dag.nodes
  {
    forall x | x in out
      ensures x in dag.nodes
    {
      AcceptedIsStrict(dag, iri, x);
      AcceptedIsStrict(dag, x, iri);
      AncestorsConverseDescendants(dag, x, iri);
    }
  }

  /** The cache entry for `iri`, computed and remembered if it is missing. */
  method Lookup(dag: Dag, ids: map<Iri, nat>, lists: map<Iri, seq<Iri>>, cache: map<Iri, Bitmap>, iri: Iri)
    returns (cache': map<Iri, Bitmap>)
    requires ValidDag(dag) && ids.Keys == Elements(dag.nodes) && Injective(ids) && iri in ids
    requires (lists == dag.parents || lists == dag.children) && Sound(ids, lists, cache)
    ensures Sound(ids, lists, cache') && cache'.Keys == cache.Keys + {iri}
    ensures forall k :: k in cache ==> cache'[k] == cache[k]
  {
    cache' := cache;
    if iri !in cache {
      var out := Closure(lists, iri, false);
      ListingIsKnown(dag, iri, false, out);
      RememberKeepsSound(ids, lists, cache, iri, out);
      cache' := cache[iri := BitmapOf(ids, out)];
    }
  }

  class Index {
    const hierarchy: Dag
    const ids: map<Iri, nat>
    var below: map<Iri, Bitmap>
    var above: map<Iri, Bitmap>

    ghost predicate Valid()
      reads this
    {
      && ValidDag(hierarchy) && ids.Keys == Elements(hierarchy.nodes) && Injective(ids)
      && Sound(ids, hierarchy.children, below) && Sound(ids, hierarchy.parents, above)
    }

    constructor (hierarchy: Dag, ids: map<Iri, nat>)
      requires ValidDag(hierarchy) && ids.Keys == Elements(hierarchy.nodes) && Injective(ids)
      ensures Valid() && this.hierarchy == hierarchy && this.ids == ids && below == map[] && above == map[]
    {
      this.hierarchy, this.ids := hierarchy, ids;
      below, above := map[], map[];
    }

    /** Look up, or compute and remember, the strict subclasses of `iri`. */
    method DescendantsBitmap(iri: Iri, includeSelf: bool) returns (r: Result<Bitmap>)
      requires Valid()
      modifies this`below
      ensures Valid()
      ensures r.Err? <==> iri !in ids
      ensures r.Err? ==> r == Err("CDB-9504") && below == old(below)
      ensures r.Ok? ==> below.Keys == old(below).Keys + {iri} && forall k :: k in old(below) ==>
        below[k] == old(below)[k]
      ensures r.Ok? ==> IsAnswer(ids, hierarchy.children, iri, includeSelf, r.value)
    {
      if iri !in ids {
        return Err("CDB-9504");
      }
      below := Lookup(hierarchy, ids, hierarchy.children, below, iri);
      WithSelfIsAnswer(ids, hierarchy.children, iri, includeSelf, below[iri]);
      r := Ok(WithSelf(ids, iri, includeSelf, below[iri]));
    }

    /** The same for the strict superclasses. */
    method AncestorsBitmap(iri: Iri, includeSelf: bool) returns (r: Result<Bitmap>)
      requires Valid()
      modifies this`above
      ensures Valid()
      ensures r.Err? <==> iri !in ids
      ensures r.Err? ==> r == Err("CDB-9504") && above == old(above)
      ensures r.Ok? ==> above.Keys == old(above).Keys + {iri} && forall k :: k in old(above) ==>
        above[k] == old(above)[k]
      ensures r.Ok? ==> IsAnswer(ids, hierarchy.parents, iri, includeSelf, r.value)
    {
      if iri !in ids {
        return Err("CDB-9504");
      }
      above := Lookup(hierarchy, ids, hierarchy.parents, above, iri);
      WithSelfIsAnswer(ids, hierarchy.parents, iri, includeSelf, above[iri]);
      r := Ok(WithSelf(ids, iri, includeSelf, above[iri]));
    }

    /** Whatever is cached, the answer is the one `IsSubtype` gives. */
    method IsSubclass(child: Iri, parent: Iri, reflexive: bool) returns (r: Result<bool>)
      requires Valid()
      modifies this`below
      ensures Valid()
      ensures r.Err? <==> child !in hierarchy.nodes || parent !in hierarchy.nodes
      ensures r.Err? ==> r == Err("CDB-9504")
      ensures r.Ok? ==> (r.value <==> SubtypeOf(hierarchy, child, parent, reflexive))
    {
      assert forall x :: x in hierarchy.nodes <==> x in Elements(hierarchy.nodes);
      if child !in ids {
        return Err("CDB-9504");
      }
      var bitmap := DescendantsBitmap(parent, reflexive);
      if bitmap.Err? {
        return Err("CDB-9504");
      }
      AncestorsConverseDescendants(hierarchy, child, parent);
      r := Ok(ids[child] in bitmap.value);
    }

    /** Forget everything, or what concerns one class, its ancestors and its descendants. */
    method Invalidate(target: Option<Iri>) returns (r: Result<()>)
      requires Valid()
      modifies this`below, this`above
      ensures Valid()
      ensures r.Err? <==> target.Some? && target.value !in ids
      ensures r.Err? ==> below == old(below) && above == old(above)
      ensures target.None? ==> below == map[] && above == map[]
      ensures r.Ok? && target.Some? ==>
        forall k :: k in below <==> k in old(below) && !Related(hierarchy, target.value, k)
      ensures r.Ok? && target.Some? ==>
        forall k :: k in above <==> k in old(above) && !Related(hierarchy, target.value, k)
    {
      if target.None? {
        below, above := map[], map[];
        return Ok(());
      }
      var iri := target.value;
      if iri !in ids {
        return Err("CDB-9504");
      }
      var up := Ancestors(hierarchy, iri, false);
      var down := Descendants(hierarchy, iri, false);
      var affected := {iri} + Elements(up.value) + Elements(down.value);
      assert forall k :: k in affected <==> Related(hierarchy, iri, k);
      below, above := below - affected, above - affected;
      r := Ok(());
    }

    method FillOne(iri: Iri)
      requires Valid() && iri in ids
      modifies this`below, this`above
      ensures Valid() && below.Keys == old(below).Keys + {iri} && above.Keys == old(above).Keys + {iri}
    {
      var _ := DescendantsBitmap(iri, true);
      var _ := AncestorsBitmap(iri, true);
    }

    /** Fill both caches for every class. */
    method MaterializeAll()
      requires Valid()
      modifies this`below, this`above
      ensures Valid() && below.Keys == ids.Keys && above.Keys == ids.Keys
    {
      for i := 0 to |hierarchy.nodes|
        invariant Valid() && Elements(hierarchy.nodes[..i]) <= below.Keys
          && Elements(hierarchy.nodes[..i]) <= above.Keys
      {
        ElementsUpTo(hierarchy.nodes, i);
        FillOne(hierarchy.nodes[i]);
      }
      assert hierarchy.nodes[..|hierarchy.nodes|] == hierarchy.nodes;
    }
  }

  lemma ElementsUpTo(nodes: seq<Iri>, i: nat)
    requires i < |nodes|
    ensures Elements(nodes[..i + 1]) == Elements(nodes[..i]) + {nodes[i]} && nodes[i] in Elements(nodes)
  {
    assert nodes[..i + 1] == nodes[..i] + [nodes[i]];
  }

  ghost predicate Related(dag: Dag, iri: Iri, k: Iri) {
    k == iri || Reaches(EdgesOf(dag.parents), iri, k) || Reaches(EdgesOf(dag.children), iri, k)
  }
}
