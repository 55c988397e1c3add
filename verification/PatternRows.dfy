/** The rows of a pattern query in terms of stored rows, cells and edges (api.py). */
module PatternRows {
  import opened Results
  import opened Walks
  import opened Seqs
  import opened Bags
  import opened Names
  import opened Operators
  import opened CsrBuilder
  import opened Pattern
  import opened PatternPlan
  import opened PatternPipeline
  import opened PatternExact

  // ---------------------------------------------------------------- what a match is

  /** A node of the pattern: its alias and its class. */
  datatype Node = Node(alias: string, cls: string)

  function NodesFrom(alias: string, cls: string, hops: seq<Hop>): (nodes: seq<Node>)
    ensures |nodes| == |hops| + 1 && nodes[0] == Node(alias, cls)
    ensures forall i :: 0 <= i < |hops| ==> nodes[i + 1] == Node(hops[i].alias, hops[i].cls)
  {
    [Node(alias, cls)] + seq(|hops|, i requires 0 <= i < |hops| => Node(hops[i].alias, hops[i].cls))
  }

  /** The columns a query shows of a node: its id, and the stored ones among those asked for. */
  ghost predicate Shown(db: Database, plan: Plan, node: Node, c: string) {
    && node.cls in db.classes && c in db.classes[node.cls].columns
    && (c == plan.idColumn || (node.alias in plan.wanted && c in plan.wanted[node.alias]))
  }

  /** Some shown column of a node, behind the node's alias. */
  ghost predicate IsKeyOf(db: Database, plan: Plan, node: Node, x: string) {
    exists c :: Shown(db, plan, node, c) && x == node.alias + "." + c
  }

  ghost predicate IsKey(db: Database, plan: Plan, nodes: seq<Node>, x: string) {
    exists i :: 0 <= i < |nodes| && IsKeyOf(db, plan, nodes[i], x)
  }

  /** The keys are exactly the shown columns of the nodes, each behind its alias. */
  ghost predicate KeysAre(db: Database, plan: Plan, nodes: seq<Node>, b: Binding) {
    forall x :: x in b <==> IsKey(db, plan, nodes, x)
  }

  ghost predicate CellShown(db: Database, node: Node, row: nat, c: string, b: Binding) {
    && node.cls in db.classes && row < |db.classes[node.cls].rows| && c in db.classes[node.cls].rows[row]
    && node.alias + "." + c in b && b[node.alias + "." + c] == db.classes[node.cls].rows[row][c]
  }

  /** Under the keys of each node stand the cells of one stored row of its class. */
  ghost predicate CellsAre(db: Database, plan: Plan, nodes: seq<Node>, rows: seq<nat>, b: Binding) {
    && |rows| == |nodes|
    && forall i, c :: 0 <= i < |nodes| && Shown(db, plan, nodes[i], c) ==> CellShown(db, nodes[i], rows[i], c, b)
  }

  /** Edge `k` of the table leads from `u` to `v`, along it or against it as the direction allows. */
  predicate EdgeLeads(table: EdgeTable, direction: Direction, k: nat, u: nat, v: nat) {
    && k < |table.src| && k < |table.dst|
    && ((direction in {Out, Both} && table.src[k] == u && table.dst[k] == v)
        || (direction in {In, Both} && table.dst[k] == u && table.src[k] == v))
  }

  /** Some edge of a relation of the hop leads from the id `u` to the id `v`. */
  ghost predicate Linked(db: Database, hop: Hop, u: nat, v: nat) {
    exists rel, k: nat ::
      rel in hop.relations && rel in db.relations && EdgeLeads(db.relations[rel], hop.direction, k, u, v)
  }

  /** The id cells of two stored rows are linked by the hop. */
  ghost predicate RowsLinked(db: Database, id: string, cls: string, i: nat, hop: Hop, j: nat) {
    && cls in db.classes && i < |db.classes[cls].rows| && hop.cls in db.classes && j < |db.classes[hop.cls].rows|
    && exists u: nat, v: nat ::
      && id in db.classes[cls].rows[i] && db.classes[cls].rows[i][id] == Num(u)
      && id in db.classes[hop.cls].rows[j] && db.classes[hop.cls].rows[j][id] == Num(v)
      && Linked(db, hop, u, v)
  }

  ghost predicate Stored(db: Database, node: Node, row: nat) {
    node.cls in db.classes && row < |db.classes[node.cls].rows|
  }

  /** Each row is stored in its node's class and linked to the next by the hop between them. */
  ghost predicate LinkedAlong(db: Database, id: string, nodes: seq<Node>, hops: seq<Hop>, rows: seq<nat>) {
    && |nodes| == |rows| == |hops| + 1
    && (forall i :: 0 <= i < |nodes| ==> Stored(db, nodes[i], rows[i]))
    && (forall i :: 0 <= i < |hops| ==> RowsLinked(db, id, nodes[i].cls, rows[i], hops[i], rows[i + 1]))
  }

  /** One stored row for each node, each linked to the next by its hop, shown under the qualified names. */
  ghost predicate IsMatch(db: Database, plan: Plan, rows: seq<nat>, b: Binding) {
    var nodes := NodesFrom(plan.alias, plan.cls, plan.hops);
    LinkedAlong(db, plan.idColumn, nodes, plan.hops, rows) && KeysAre(db, plan, nodes, b)
      && CellsAre(db, plan, nodes, rows, b)
  }

  // ---------------------------------------------------------------- edges

  lemma InAdjacentBy(table: EdgeTable, direction: Direction, u: nat, v: nat)
    requires |table.src| == |table.dst|
    ensures v in AdjacentBy(table, direction, u) <==> exists k: nat :: EdgeLeads(table, direction, k, u, v)
  {
    OutgoingIsRow(table.src, table.dst, u, v);
    OutgoingIsRow(table.dst, table.src, u, v);
    if direction != In {
      assert forall k: nat :: k < |table.src| && table.src[k] == u && table.dst[k] == v ==>
        EdgeLeads(table, direction, k, u, v);
    }
    if direction != Out {
      assert forall k: nat :: k < |table.src| && table.dst[k] == u && table.src[k] == v ==>
        EdgeLeads(table, direction, k, u, v);
    }
  }

  /** A far end is listed once for each edge that leads to it along an admitted direction. */
  lemma AdjacentCount(table: EdgeTable, direction: Direction, u: nat, v: nat)
    requires |table.src| == |table.dst|
    ensures multiset(AdjacentBy(table, direction, u))[v]
      == (if direction != In then Multiplicity(table.src, table.dst, u, v) else 0)
         + if direction != Out then Multiplicity(table.dst, table.src, u, v) else 0
  {
    OutgoingCount(table.src, table.dst, u, v);
    OutgoingCount(table.dst, table.src, u, v);
  }

  /** Some edge of one of the relations leads from `u` to `v`. */
  ghost predicate SomeEdge(db: Database, relations: seq<string>, direction: Direction, u: nat, v: nat) {
    exists rel, k: nat :: rel in relations && rel in db.relations && EdgeLeads(db.relations[rel], direction, k, u, v)
  }

  lemma {:induction false} InAdjacent(db: Database, relations: seq<string>, direction: Direction, u: nat, v: nat)
    requires forall j :: 0 <= j < |relations| ==> ValidRelation(db, relations[j])
    ensures v in Adjacent(db, relations, direction, u) <==> SomeEdge(db, relations, direction, u, v)
  {
    if relations != [] {
      var n := |relations| - 1;
      InAdjacent(db, relations[..n], direction, u, v);
      AdjacentSnoc(db, relations, direction, u, v);
      SomeEdgeSnoc(db, relations, direction, u, v);
    }
  }

  lemma AdjacentSnoc(db: Database, relations: seq<string>, direction: Direction, u: nat, v: nat)
    requires relations != [] && forall j :: 0 <= j < |relations| ==> ValidRelation(db, relations[j])
    ensures var n := |relations| - 1;
            && relations[n] in db.relations
            && (v in Adjacent(db, relations, direction, u)
                <==> v in Adjacent(db, relations[..n], direction, u)
                     || exists k: nat :: EdgeLeads(db.relations[relations[n]], direction, k, u, v))
  {
    assert ValidRelation(db, relations[|relations| - 1]);
    InAdjacentBy(db.relations[relations[|relations| - 1]], direction, u, v);
  }

  lemma SomeEdgeSnoc(db: Database, relations: seq<string>, direction: Direction, u: nat, v: nat)
    requires relations != [] && relations[|relations| - 1] in db.relations
    ensures var n := |relations| - 1;
            SomeEdge(db, relations, direction, u, v)
            <==> SomeEdge(db, relations[..n], direction, u, v)
                 || exists k: nat :: EdgeLeads(db.relations[relations[n]], direction, k, u, v)
  {
    var n := |relations| - 1;
    assert relations == relations[..n] + [relations[n]];
    if r, k: nat :| r in relations && r in db.relations && EdgeLeads(db.relations[r], direction, k, u, v) {
      assert r in relations[..n] || r == relations[n];
    }
    if r, k: nat :| r in relations[..n] && r in db.relations && EdgeLeads(db.relations[r], direction, k, u, v) {
      assert r in relations;
    }
  }

  lemma IdCell(db: Database, id: string, cls: string, i: nat)
    requires ValidStore(db, cls, id) && i < |db.classes[cls].rows|
    ensures id in db.classes[cls].rows[i] && db.classes[cls].rows[i][id] == Num(RowIds(db, cls, id)[i])
  {
    assert IsVertex(db.classes[cls].rows[i], id, db.vertexCount);
  }

  /** Where one row leads on to another: their id cells are linked. */
  lemma LeadsOnIsLinked(db: Database, id: string, cls: string, i: nat, hop: Hop, j: nat)
    requires ValidHop(db, hop, id) && ValidStore(db, cls, id)
    ensures LeadsOn(db, id, cls, i, hop, j) <==> RowsLinked(db, id, cls, i, hop, j)
  {
    if i < |db.classes[cls].rows| && j < |db.classes[hop.cls].rows| {
      IdCell(db, id, cls, i);
      IdCell(db, id, hop.cls, j);
      LinkedIds(db, hop, RowIds(db, cls, id)[i], RowIds(db, hop.cls, id)[j]);
    }
  }

  lemma LinkedIds(db: Database, hop: Hop, u: nat, v: nat)
    requires forall j :: 0 <= j < |hop.relations| ==> ValidRelation(db, hop.relations[j])
    ensures v in Adjacent(db, hop.relations, hop.direction, u) <==> Linked(db, hop, u, v)
  {
    InAdjacent(db, hop.relations, hop.direction, u, v);
  }

  lemma HopIsValid(db: Database, hops: seq<Hop>, id: string)
    requires hops != [] && ValidHops(db, hops, id)
    ensures ValidHop(db, hops[0], id) && ValidStore(db, hops[0].cls, id) && ValidHops(db, hops[1..], id)
  {
  }

  lemma {:induction false} ChainIsLinked(db: Database, id: string, alias: string, cls: string, hops: seq<Hop>,
                                         rows: seq<nat>)
    requires ValidStore(db, cls, id) && ValidHops(db, hops, id)
    ensures IsChain(db, id, cls, hops, rows) <==> LinkedAlong(db, id, NodesFrom(alias, cls, hops), hops, rows)
    decreases |hops|
  {
    if |rows| == |hops| + 1 && hops != [] {
      var hop := hops[0];
      HopIsValid(db, hops, id);
      LeadsOnIsLinked(db, id, cls, rows[0], hop, rows[1]);
      ChainIsLinked(db, id, hop.alias, hop.cls, hops[1..], rows[1..]);
      LinkedCons(db, id, alias, cls, hops, rows);
    }
  }

  lemma LinkedCons(db: Database, id: string, alias: string, cls: string, hops: seq<Hop>, rows: seq<nat>)
    requires hops != [] && |rows| == |hops| + 1
    ensures LinkedAlong(db, id, NodesFrom(alias, cls, hops), hops, rows) <==>
      && Stored(db, Node(alias, cls), rows[0]) && RowsLinked(db, id, cls, rows[0], hops[0], rows[1])
      && LinkedAlong(db, id, NodesFrom(hops[0].alias, hops[0].cls, hops[1..]), hops[1..], rows[1..])
  {
    var nodes, rest := NodesFrom(alias, cls, hops), NodesFrom(hops[0].alias, hops[0].cls, hops[1..]);
    assert nodes[1..] == rest;
    if LinkedAlong(db, id, rest, hops[1..], rows[1..]) && RowsLinked(db, id, cls, rows[0], hops[0], rows[1])
      && Stored(db, Node(alias, cls), rows[0]) {
      LinkedLonger(db, id, nodes, hops, rows);
    }
    if LinkedAlong(db, id, nodes, hops, rows) {
      LinkedShorter(db, id, nodes, hops, rows);
    }
  }

  lemma LinkedShorter(db: Database, id: string, nodes: seq<Node>, hops: seq<Hop>, rows: seq<nat>)
    requires hops != [] && LinkedAlong(db, id, nodes, hops, rows)
    ensures LinkedAlong(db, id, nodes[1..], hops[1..], rows[1..])
    ensures Stored(db, nodes[0], rows[0]) && RowsLinked(db, id, nodes[0].cls, rows[0], hops[0], rows[1])
  {
    forall i | 0 <= i < |hops| - 1
      ensures RowsLinked(db, id, nodes[1..][i].cls, rows[1..][i], hops[1..][i], rows[1..][i + 1])
    {
      assert RowsLinked(db, id, nodes[i + 1].cls, rows[i + 1], hops[i + 1], rows[i + 2]);
    }
    assert RowsLinked(db, id, nodes[0].cls, rows[0], hops[0], rows[1]);
  }

  lemma LinkedLonger(db: Database, id: string, nodes: seq<Node>, hops: seq<Hop>, rows: seq<nat>)
    requires hops != [] && |nodes| == |rows| == |hops| + 1
    requires LinkedAlong(db, id, nodes[1..], hops[1..], rows[1..])
    requires Stored(db, nodes[0], rows[0]) && RowsLinked(db, id, nodes[0].cls, rows[0], hops[0], rows[1])
    ensures LinkedAlong(db, id, nodes, hops, rows)
  {
    forall i | 0 <= i < |nodes|
      ensures Stored(db, nodes[i], rows[i])
    {
      if i > 0 {
        assert Stored(db, nodes[1..][i - 1], rows[1..][i - 1]);
      }
    }
    forall i | 0 <= i < |hops|
      ensures RowsLinked(db, id, nodes[i].cls, rows[i], hops[i], rows[i + 1])
    {
      if i > 0 {
        assert RowsLinked(db, id, nodes[1..][i - 1].cls, rows[1..][i - 1], hops[1..][i - 1], rows[1..][i]);
      }
    }
  }

  // ---------------------------------------------------------------- bindings of chains

  function BindRow(db: Database, plan: Plan, alias: string, cls: string, i: nat): Binding
    requires cls in db.classes && plan.idColumn in db.classes[cls].columns && i < |db.classes[cls].rows|
  {
    Bind(db, plan, alias, cls, db.classes[cls].rows[i])
  }

  /** What the rows after the first contribute. */
  function BindRest(db: Database, plan: Plan, hops: seq<Hop>, rows: seq<nat>): Binding
    decreases |hops|
  {
    if hops == [] || rows == [] then map[]
    else
      var hop := hops[0];
      if hop.cls in db.classes && plan.idColumn in db.classes[hop.cls].columns && rows[0] < |db.classes[hop.cls].rows|
      then BindRow(db, plan, hop.alias, hop.cls, rows[0]) + BindRest(db, plan, hops[1..], rows[1..]) else map[]
  }

  /** A chain from row `i` on, and the match it makes of `b`. */
  ghost predicate ChainMakes(db: Database, plan: Plan, b: Binding, cls: string, i: nat, hops: seq<Hop>,
                             rows: seq<nat>, made: Binding) {
    IsChain(db, plan.idColumn, cls, hops, rows) && rows[0] == i && made == b + BindRest(db, plan, hops, rows[1..])
  }

  ghost predicate Makes(db: Database, plan: Plan, b: Binding, cls: string, i: nat, hops: seq<Hop>, made: Binding) {
    exists rows :: ChainMakes(db, plan, b, cls, i, hops, rows, made)
  }

  /** A hop to row `j`, and a chain on from there. */
  ghost predicate MakesVia(db: Database, plan: Plan, b: Binding, cls: string, i: nat, hops: seq<Hop>, j: nat,
                           made: Binding)
    requires hops != []
  {
    var hop := hops[0];
    && LeadsOn(db, plan.idColumn, cls, i, hop, j) && j < |db.classes[hop.cls].rows|
    && Makes(db, plan, b + BindRow(db, plan, hop.alias, hop.cls, j), hop.cls, j, hops[1..], made)
  }

  lemma MakesStep(db: Database, plan: Plan, b: Binding, cls: string, i: nat, hops: seq<Hop>, made: Binding)
    requires hops != [] && ValidHops(db, hops, plan.idColumn) && ValidStore(db, cls, plan.idColumn)
    ensures Makes(db, plan, b, cls, i, hops, made) <==> exists j: nat :: MakesVia(db, plan, b, cls, i, hops, j, made)
  {
    HopIsValid(db, hops, plan.idColumn);
    if rows :| ChainMakes(db, plan, b, cls, i, hops, rows, made) {
      ChainGoesVia(db, plan, b, cls, i, hops, rows, made);
    }
    if j: nat :| MakesVia(db, plan, b, cls, i, hops, j, made) {
      ViaMakesChain(db, plan, b, cls, i, hops, j, made);
    }
  }

  lemma PlusAssociates(a: Binding, b: Binding, c: Binding)
    ensures a + (b + c) == (a + b) + c
  {
  }

  lemma BindRestCons(db: Database, plan: Plan, hops: seq<Hop>, rows: seq<nat>)
    requires hops != [] && rows != [] && ValidStore(db, hops[0].cls, plan.idColumn)
      && rows[0] < |db.classes[hops[0].cls].rows|
    ensures BindRest(db, plan, hops, rows)
         == BindRow(db, plan, hops[0].alias, hops[0].cls, rows[0]) + BindRest(db, plan, hops[1..], rows[1..])
  {
  }

  lemma ChainCons(db: Database, id: string, cls: string, i: nat, hops: seq<Hop>, tail: seq<nat>)
    requires hops != [] && IsChain(db, id, hops[0].cls, hops[1..], tail) && LeadsOn(db, id, cls, i, hops[0], tail[0])
    ensures IsChain(db, id, cls, hops, [i] + tail)
  {
    var rows := [i] + tail;
    assert rows[1..] == tail && rows[0] == i && rows[1] == tail[0];
  }

  lemma ChainGoesVia(db: Database, plan: Plan, b: Binding, cls: string, i: nat, hops: seq<Hop>, rows: seq<nat>,
                     made: Binding)
    requires hops != [] && ValidStore(db, hops[0].cls, plan.idColumn)
      && ChainMakes(db, plan, b, cls, i, hops, rows, made)
    ensures MakesVia(db, plan, b, cls, i, hops, rows[1], made)
  {
    var hop, tail := hops[0], rows[1..];
    assert IsChain(db, plan.idColumn, hop.cls, hops[1..], tail) && tail[0] == rows[1];
    BindRestCons(db, plan, hops, tail);
    var first := BindRow(db, plan, hop.alias, hop.cls, rows[1]);
    PlusAssociates(b, first, BindRest(db, plan, hops[1..], tail[1..]));
    assert ChainMakes(db, plan, b + first, hop.cls, rows[1], hops[1..], tail, made);
  }

  lemma ViaMakesChain(db: Database, plan: Plan, b: Binding, cls: string, i: nat, hops: seq<Hop>, j: nat, made: Binding)
    requires hops != [] && ValidStore(db, hops[0].cls, plan.idColumn) && MakesVia(db, plan, b, cls, i, hops, j, made)
    ensures Makes(db, plan, b, cls, i, hops, made)
  {
    var hop := hops[0];
    var first := BindRow(db, plan, hop.alias, hop.cls, j);
    var tail :| ChainMakes(db, plan, b + first, hop.cls, j, hops[1..], tail, made);
    ChainCons(db, plan.idColumn, cls, i, hops, tail);
    TailMakes(db, plan, b, cls, i, hops, tail, made);
  }

  lemma TailMakes(db: Database, plan: Plan, b: Binding, cls: string, i: nat, hops: seq<Hop>, tail: seq<nat>,
                  made: Binding)
    requires hops != [] && tail != [] && IsChain(db, plan.idColumn, cls, hops, [i] + tail)
    requires ValidStore(db, hops[0].cls, plan.idColumn) && tail[0] < |db.classes[hops[0].cls].rows|
    requires made == (b + BindRow(db, plan, hops[0].alias, hops[0].cls, tail[0]))
      + BindRest(db, plan, hops[1..], tail[1..])
    ensures Makes(db, plan, b, cls, i, hops, made)
  {
    var rows := [i] + tail;
    assert rows[1..] == tail && rows[0] == i;
    BindRestCons(db, plan, hops, tail);
    PlusAssociates(b, BindRow(db, plan, hops[0].alias, hops[0].cls, tail[0]), BindRest(db, plan, hops[1..], tail[1..]));
    assert ChainMakes(db, plan, b, cls, i, hops, rows, made);
  }

  lemma MakesNothing(db: Database, plan: Plan, b: Binding, cls: string, i: nat, made: Binding)
    requires cls in db.classes && i < |RowIds(db, cls, plan.idColumn)|
    ensures Makes(db, plan, b, cls, i, [], made) <==> made == b
  {
    assert b + map[] == b;
    assert IsChain(db, plan.idColumn, cls, [], [i]) && [i][1..] == [];
    if made == b {
      assert ChainMakes(db, plan, b, cls, i, [], [i], made);
    }
  }

  // ---------------------------------------------------------------- matches are chains

  /** The matches that extend a partial match are the ones that chains from its last row make of it. */
  lemma {:induction false} InExtend(db: Database, plan: Plan, b: Binding, alias: string, cls: string, i: nat,
                                    hops: seq<Hop>, made: Binding)
    requires ValidStore(db, cls, plan.idColumn) && ValidHops(db, hops, plan.idColumn) && i < |db.classes[cls].rows|
    requires CurrentId(b, alias, plan.idColumn) == Num(RowIds(db, cls, plan.idColumn)[i])
    ensures made in Extend(db, plan, b, alias, hops) <==> Makes(db, plan, b, cls, i, hops, made)
    decreases |hops|, 1
  {
    if hops == [] {
      MakesNothing(db, plan, b, cls, i, made);
    } else {
      var far := Adjacent(db, hops[0].relations, hops[0].direction, RowIds(db, cls, plan.idColumn)[i]);
      var f := (v: nat) => ExtendTo(db, plan, b, hops, v);
      HopIsValid(db, hops, plan.idColumn);
      forall v: nat
        ensures made in f(v) <==> exists j: nat :: MakesAt(db, plan, b, hops, v, j, made)
      {
        InExtendTo(db, plan, b, hops, v, made);
      }
      InFarEnds(db, plan, b, hops, far, f, made);
      FarOrVia(db, plan, b, cls, i, hops, far, made);
      MakesStep(db, plan, b, cls, i, hops, made);
    }
  }

  lemma InFarEnds(db: Database, plan: Plan, b: Binding, hops: seq<Hop>, far: seq<nat>, f: nat -> multiset<Binding>,
                  made: Binding)
    requires hops != []
    requires forall v: nat :: made in f(v) <==> exists j: nat :: MakesAt(db, plan, b, hops, v, j, made)
    ensures made in Each(far, f)
       <==> exists n :: 0 <= n < |far| && exists j: nat :: MakesAt(db, plan, b, hops, far[n], j, made)
  {
    InEach(far, f, made);
  }

  /** Row `j` of the hop's class has the id `v`, and a chain goes on from it. */
  ghost predicate MakesAt(db: Database, plan: Plan, b: Binding, hops: seq<Hop>, v: nat, j: nat, made: Binding)
    requires hops != []
  {
    var hop := hops[0];
    && ValidStore(db, hop.cls, plan.idColumn) && j < |db.classes[hop.cls].rows|
      && RowIds(db, hop.cls, plan.idColumn)[j] == v
    && Makes(db, plan, b + BindRow(db, plan, hop.alias, hop.cls, j), hop.cls, j, hops[1..], made)
  }

  lemma FarOrVia(db: Database, plan: Plan, b: Binding, cls: string, i: nat, hops: seq<Hop>, far: seq<nat>,
                 made: Binding)
    requires hops != [] && ValidHop(db, hops[0], plan.idColumn) && ValidStore(db, cls, plan.idColumn)
      && i < |db.classes[cls].rows|
    requires far == Adjacent(db, hops[0].relations, hops[0].direction, RowIds(db, cls, plan.idColumn)[i])
    ensures (exists n :: 0 <= n < |far| && exists j: nat :: MakesAt(db, plan, b, hops, far[n], j, made))
       <==> exists j: nat :: MakesVia(db, plan, b, cls, i, hops, j, made)
  {
    var ids := RowIds(db, hops[0].cls, plan.idColumn);
    if n :| 0 <= n < |far| && exists j: nat :: MakesAt(db, plan, b, hops, far[n], j, made) {
      var j: nat :| MakesAt(db, plan, b, hops, far[n], j, made);
      assert MakesVia(db, plan, b, cls, i, hops, j, made);
    }
    if j: nat :| MakesVia(db, plan, b, cls, i, hops, j, made) {
      var n :| 0 <= n < |far| && far[n] == ids[j];
      assert MakesAt(db, plan, b, hops, far[n], j, made);
    }
  }

  lemma {:induction false} InExtendTo(db: Database, plan: Plan, b: Binding, hops: seq<Hop>, v: nat, made: Binding)
    requires hops != [] && ValidHops(db, hops, plan.idColumn)
    ensures made in ExtendTo(db, plan, b, hops, v) <==> exists j: nat :: MakesAt(db, plan, b, hops, v, j, made)
    decreases |hops|, 0
  {
    var hop, id := hops[0], plan.idColumn;
    HopIsValid(db, hops, id);
    var rows := db.classes[hop.cls].rows;
    var f := (r: map<string, Value>) =>
      if CurrentIdOf(r, id) == Num(v)
      then Extend(db, plan, b + Bind(db, plan, hop.alias, hop.cls, r), hop.alias, hops[1..]) else multiset{};
    InEach(rows, f, made);
    forall j: nat | j < |rows|
      ensures made in f(rows[j]) <==> MakesAt(db, plan, b, hops, v, j, made)
    {
      BindId(db, plan, b, hop.alias, hop.cls, j);
      InExtend(db, plan, b + BindRow(db, plan, hop.alias, hop.cls, j), hop.alias, hop.cls, j, hops[1..], made);
    }
  }

  // ---------------------------------------------------------------- keys and cells

  ghost predicate Shows(db: Database, plan: Plan, nodes: seq<Node>, rows: seq<nat>, b: Binding) {
    KeysAre(db, plan, nodes, b) && CellsAre(db, plan, nodes, rows, b)
  }

  lemma {:induction false} InAvailable(asked: seq<string>, columns: seq<string>, c: string)
    ensures c in Available(asked, columns) <==> c in asked && c in columns
  {
    if asked != [] {
      InAvailable(asked[1..], columns, c);
      assert asked == [asked[0]] + asked[1..];
    }
  }

  /** A scan reads exactly the shown columns. */
  lemma InScanColumns(db: Database, plan: Plan, node: Node, c: string)
    requires node.cls in db.classes && plan.idColumn in db.classes[node.cls].columns
    ensures c in ScanColumns(db, plan, node.alias, node.cls) <==> Shown(db, plan, node, c)
  {
    var wanted := if node.alias in plan.wanted then plan.wanted[node.alias] else [];
    InAvailable(wanted, db.classes[node.cls].columns, c);
    SortUniqueSorted(Available(wanted, db.classes[node.cls].columns) + [plan.idColumn]);
  }

  lemma InScanNames(db: Database, plan: Plan, node: Node, x: string)
    requires node.cls in db.classes && plan.idColumn in db.classes[node.cls].columns
    ensures x in Scan(db, plan, node.alias, node.cls).names <==> IsKeyOf(db, plan, node, x)
  {
    var columns := ScanColumns(db, plan, node.alias, node.cls);
    var names := QualifiedAll(node.alias, columns);
    if x in names {
      var i :| 0 <= i < |names| && names[i] == x;
      InScanColumns(db, plan, node, columns[i]);
      assert x == node.alias + "." + columns[i];
    }
    if c :| Shown(db, plan, node, c) && x == node.alias + "." + c {
      InScanColumns(db, plan, node, c);
      var i :| 0 <= i < |columns| && columns[i] == c;
      assert names[i] == x;
    }
  }

  lemma RowShows(db: Database, plan: Plan, node: Node, i: nat)
    requires ValidStore(db, node.cls, plan.idColumn) && i < |db.classes[node.cls].rows|
    ensures Shows(db, plan, [node], [i], BindRow(db, plan, node.alias, node.cls, i))
  {
    var columns, row := ScanColumns(db, plan, node.alias, node.cls), db.classes[node.cls].rows[i];
    var names, b := QualifiedAll(node.alias, columns), BindRow(db, plan, node.alias, node.cls, i);
    QualifiedAllDistinct(node.alias, columns);
    ToMapAt(names, ScanRow(row, columns));
    forall x
      ensures x in b <==> IsKey(db, plan, [node], x)
    {
      InScanNames(db, plan, node, x);
      IsKeyOne(db, plan, node, x);
    }
    forall c | Shown(db, plan, node, c)
      ensures CellShown(db, node, i, c, b)
    {
      InScanColumns(db, plan, node, c);
      var j :| 0 <= j < |columns| && columns[j] == c;
      assert names[j] == Qualified(node.alias, c);
    }
  }

  /** A row in front, under names of its own. */
  lemma ShowsCons(db: Database, plan: Plan, node: Node, nodes: seq<Node>, i: nat, rows: seq<nat>, first: Binding,
                  rest: Binding)
    requires Shows(db, plan, [node], [i], first) && Shows(db, plan, nodes, rows, rest)
    requires forall x :: x in rest ==> x !in first
    ensures Shows(db, plan, [node] + nodes, [i] + rows, first + rest)
  {
    KeysCons(db, plan, node, nodes, first, rest);
    CellsCons(db, plan, node, nodes, i, rows, first, rest);
  }

  lemma IsKeyCons(db: Database, plan: Plan, node: Node, nodes: seq<Node>, x: string)
    ensures IsKey(db, plan, [node] + nodes, x) <==> IsKeyOf(db, plan, node, x) || IsKey(db, plan, nodes, x)
  {
    var all := [node] + nodes;
    assert all[0] == node;
    if k :| 0 <= k < |nodes| && IsKeyOf(db, plan, nodes[k], x) {
      assert all[k + 1] == nodes[k];
    }
    if k :| 0 <= k < |all| && IsKeyOf(db, plan, all[k], x) {
      assert k > 0 ==> all[k] == nodes[k - 1];
    }
  }

  lemma IsKeyOne(db: Database, plan: Plan, node: Node, x: string)
    ensures IsKey(db, plan, [node], x) <==> IsKeyOf(db, plan, node, x)
  {
    assert [node][0] == node;
  }

  lemma KeysCons(db: Database, plan: Plan, node: Node, nodes: seq<Node>, first: Binding, rest: Binding)
    requires KeysAre(db, plan, [node], first) && KeysAre(db, plan, nodes, rest)
    ensures KeysAre(db, plan, [node] + nodes, first + rest)
  {
    forall x
      ensures x in first + rest <==> IsKey(db, plan, [node] + nodes, x)
    {
      IsKeyCons(db, plan, node, nodes, x);
      IsKeyOne(db, plan, node, x);
    }
  }

  lemma CellsCons(db: Database, plan: Plan, node: Node, nodes: seq<Node>, i: nat, rows: seq<nat>, first: Binding,
                  rest: Binding)
    requires CellsAre(db, plan, [node], [i], first) && CellsAre(db, plan, nodes, rows, rest)
    requires forall x :: x in rest ==> x !in first
    ensures CellsAre(db, plan, [node] + nodes, [i] + rows, first + rest)
  {
    var all, allRows := [node] + nodes, [i] + rows;
    forall k, c | 0 <= k < |all| && Shown(db, plan, all[k], c)
      ensures CellShown(db, all[k], allRows[k], c, first + rest)
    {
      if k == 0 {
        assert Shown(db, plan, [node][0], c);
        assert CellShown(db, [node][0], [i][0], c, first);
      } else {
        assert Shown(db, plan, nodes[k - 1], c);
        assert CellShown(db, nodes[k - 1], rows[k - 1], c, rest);
      }
    }
  }

  /** The names of later nodes are not among those taken. */
  lemma {:induction false} LaterNamesFresh(db: Database, plan: Plan, taken: set<string>, hops: seq<Hop>, i: nat,
                                           c: string)
    requires ValidHops(db, hops, plan.idColumn) && FreshColumns(db, plan, taken, hops) && i < |hops|
    requires Shown(db, plan, Node(hops[i].alias, hops[i].cls), c)
    ensures hops[i].alias + "." + c !in taken
    decreases |hops|
  {
    var hop := hops[0];
    HopIsValid(db, hops, plan.idColumn);
    if i == 0 {
      InScanNames(db, plan, Node(hop.alias, hop.cls), hop.alias + "." + c);
    } else {
      var names := Scan(db, plan, hop.alias, hop.cls).names;
      LaterNamesFresh(db, plan, taken + Elements(names), hops[1..], i - 1, c);
    }
  }

  lemma LaterKeyFresh(db: Database, plan: Plan, taken: set<string>, hops: seq<Hop>, x: string)
    requires hops != [] && ValidHops(db, hops, plan.idColumn) && FreshColumns(db, plan, taken, hops)
    requires IsKey(db, plan, NodesFrom(hops[0].alias, hops[0].cls, hops[1..]), x)
    ensures x !in taken
  {
    var nodes := NodesFrom(hops[0].alias, hops[0].cls, hops[1..]);
    var i :| 0 <= i < |nodes| && IsKeyOf(db, plan, nodes[i], x);
    var c :| Shown(db, plan, nodes[i], c) && x == nodes[i].alias + "." + c;
    assert nodes[i] == Node(hops[i].alias, hops[i].cls);
    LaterNamesFresh(db, plan, taken, hops, i, c);
  }

  lemma RestIsFresh(db: Database, plan: Plan, taken: set<string>, hops: seq<Hop>, rest: Binding)
    requires hops != [] && ValidHops(db, hops, plan.idColumn) && FreshColumns(db, plan, taken, hops)
    requires KeysAre(db, plan, NodesFrom(hops[0].alias, hops[0].cls, hops[1..]), rest)
    ensures forall x :: x in rest ==> x !in taken
  {
    forall x | x in rest
      ensures x !in taken
    {
      LaterKeyFresh(db, plan, taken, hops, x);
    }
  }

  ghost predicate NamesTaken(db: Database, plan: Plan, node: Node, taken: set<string>) {
    forall c :: Shown(db, plan, node, c) ==> node.alias + "." + c in taken
  }

  /** The binding of a chain shows its rows. */
  lemma {:induction false} ChainShows(db: Database, plan: Plan, alias: string, cls: string, hops: seq<Hop>,
                                      rows: seq<nat>, taken: set<string>)
    requires ValidStore(db, cls, plan.idColumn) && ValidHops(db, hops, plan.idColumn)
    requires IsChain(db, plan.idColumn, cls, hops, rows)
    requires FreshColumns(db, plan, taken, hops) && NamesTaken(db, plan, Node(alias, cls), taken)
    ensures Shows(db, plan, NodesFrom(alias, cls, hops), rows,
                  BindRow(db, plan, alias, cls, rows[0]) + BindRest(db, plan, hops, rows[1..]))
    decreases |hops|
  {
    var node, first := Node(alias, cls), BindRow(db, plan, alias, cls, rows[0]);
    RowShows(db, plan, node, rows[0]);
    if hops == [] {
      assert first + map[] == first && rows == [rows[0]] && NodesFrom(alias, cls, hops) == [node];
    } else {
      var hop := hops[0];
      var names := Scan(db, plan, hop.alias, hop.cls).names;
      HopIsValid(db, hops, plan.idColumn);
      NamesAreTaken(db, plan, Node(hop.alias, hop.cls), taken);
      ChainShows(db, plan, hop.alias, hop.cls, hops[1..], rows[1..], taken + Elements(names));
      BindRestCons(db, plan, hops, rows[1..]);
      FirstInFront(db, plan, alias, cls, hops, rows, taken, first, BindRest(db, plan, hops, rows[1..]));
    }
  }

  lemma NamesAreTaken(db: Database, plan: Plan, node: Node, taken: set<string>)
    requires ValidStore(db, node.cls, plan.idColumn)
    ensures NamesTaken(db, plan, node, taken + Elements(Scan(db, plan, node.alias, node.cls).names))
  {
    forall c | Shown(db, plan, node, c)
      ensures node.alias + "." + c in Elements(Scan(db, plan, node.alias, node.cls).names)
    {
      InScanNames(db, plan, node, node.alias + "." + c);
    }
  }

  lemma NodesCons(alias: string, cls: string, hops: seq<Hop>)
    requires hops != []
    ensures NodesFrom(alias, cls, hops) == [Node(alias, cls)] + NodesFrom(hops[0].alias, hops[0].cls, hops[1..])
  {
    var nodes, rest := NodesFrom(alias, cls, hops), NodesFrom(hops[0].alias, hops[0].cls, hops[1..]);
    forall i | 1 <= i < |nodes|
      ensures nodes[i] == rest[i - 1]
    {
      assert i > 1 ==> hops[1..][i - 2] == hops[i - 1];
    }
    ConsIs(nodes, Node(alias, cls), rest);
  }

  lemma ConsIs<T>(s: seq<T>, x: T, rest: seq<T>)
    requires |s| == |rest| + 1 && s[0] == x && forall i :: 1 <= i < |s| ==> s[i] == rest[i - 1]
    ensures s == [x] + rest
  {
  }

  lemma FirstIsTaken(db: Database, plan: Plan, node: Node, taken: set<string>, first: Binding)
    requires NamesTaken(db, plan, node, taken) && KeysAre(db, plan, [node], first)
    ensures forall x :: x in first ==> x in taken
  {
    forall x | x in first
      ensures x in taken
    {
      IsKeyOne(db, plan, node, x);
    }
  }

  lemma FirstInFront(db: Database, plan: Plan, alias: string, cls: string, hops: seq<Hop>, rows: seq<nat>,
                     taken: set<string>,
                     first: Binding, rest: Binding)
    requires hops != [] && |rows| == |hops| + 1 && ValidHops(db, hops, plan.idColumn)
      && FreshColumns(db, plan, taken, hops)
    requires NamesTaken(db, plan, Node(alias, cls), taken) && Shows(db, plan, [Node(alias, cls)], [rows[0]], first)
    requires Shows(db, plan, NodesFrom(hops[0].alias, hops[0].cls, hops[1..]), rows[1..], rest)
    ensures Shows(db, plan, NodesFrom(alias, cls, hops), rows, first + rest)
  {
    var node, nodes := Node(alias, cls), NodesFrom(hops[0].alias, hops[0].cls, hops[1..]);
    RestIsFresh(db, plan, taken, hops, rest);
    FirstIsTaken(db, plan, node, taken, first);
    NodesCons(alias, cls, hops);
    assert [rows[0]] + rows[1..] == rows;
    ShowsCons(db, plan, node, nodes, rows[0], rows[1..], first, rest);
  }

  /** Two bindings that show the same rows are the same. */
  lemma ShowsUnique(db: Database, plan: Plan, nodes: seq<Node>, rows: seq<nat>, a: Binding, b: Binding)
    requires Shows(db, plan, nodes, rows, a) && Shows(db, plan, nodes, rows, b)
    ensures a == b
  {
    forall x | x in a
      ensures x in b && a[x] == b[x]
    {
      var i :| 0 <= i < |nodes| && IsKeyOf(db, plan, nodes[i], x);
      var c :| Shown(db, plan, nodes[i], c) && x == nodes[i].alias + "." + c;
      assert CellShown(db, nodes[i], rows[i], c, a) && CellShown(db, nodes[i], rows[i], c, b);
    }
    assert a.Keys == b.Keys;
  }
}
