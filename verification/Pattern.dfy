/** The pattern compiler's plans and their reference meaning (api.py). */
module Pattern {
  import opened Results
  import opened Walks
  import opened Seqs
  import opened Bags
  import opened Names
  import opened Operators
  import opened HopAlgebra
  import opened CsrBuilder
  import opened CsrReader

  // The reference meaning is nested-loop matching, one result per choice of nodes and connecting edges.

  type Binding = map<string, Value>

  datatype Store = Store(columns: seq<string>, rows: seq<map<string, Value>>)
  datatype EdgeTable = EdgeTable(src: seq<nat>, dst: seq<nat>)
  datatype Database = Database(classes: map<string, Store>, relations: map<string, EdgeTable>, vertexCount: nat)

  datatype Direction = Out | In | Both
  datatype Hop = Hop(alias: string, cls: string, relations: seq<string>, direction: Direction)
  datatype Plan = Plan(alias: string, cls: string, hops: seq<Hop>, wanted: map<string, seq<string>>, idColumn: string)

  // ---------------------------------------------------------------- well-formed inputs

  /** A class store whose id column is a non-negative number below the vertex count in every row. */
  ghost predicate ValidStore(db: Database, cls: string, id: string) {
    && cls in db.classes
    && id in db.classes[cls].columns
    && (forall i, c :: 0 <= i < |db.classes[cls].rows| && c in db.classes[cls].columns ==> c in db.classes[cls].rows[i])
    && forall i :: 0 <= i < |db.classes[cls].rows| ==>
      IsVertex(db.classes[cls].rows[i], id, db.vertexCount)
  }

  predicate IsVertex(row: map<string, Value>, id: string, n: nat) {
    id in row && row[id].Num? && 0 <= row[id].n < n
  }

  ghost predicate ValidRelation(db: Database, rel: string) {
    rel in db.relations && |db.relations[rel].src| == |db.relations[rel].dst|
  }

  ghost predicate ValidHops(db: Database, hops: seq<Hop>, id: string) {
    forall i :: 0 <= i < |hops| ==>
      && ValidStore(db, hops[i].cls, id)
      && hops[i].relations != []
      && forall j :: 0 <= j < |hops[i].relations| ==> ValidRelation(db, hops[i].relations[j])
  }

  // ---------------------------------------------------------------- scans

  /** `sorted(wanted columns that exist, plus the id)`. */
  function ScanColumns(db: Database, plan: Plan, alias: string, cls: string): (r: seq<string>)
    requires cls in db.classes && plan.idColumn in db.classes[cls].columns
    ensures Distinct(r) && plan.idColumn in r && forall c :: c in r ==> c in db.classes[cls].columns
  {
    var asked := Available(if alias in plan.wanted then plan.wanted[alias] else [], db.classes[cls].columns)
        + [plan.idColumn];
    SortUniqueSorted(asked);
    SortedIsDistinct(SortUnique(asked));
    SortUnique(asked)
  }

  function Available(asked: seq<string>, columns: seq<string>): (r: seq<string>)
    ensures forall c :: c in r ==> c in columns
  {
    if asked == [] then []
    else (if asked[0] in columns then [asked[0]] else []) + Available(asked[1..], columns)
  }

  function QualifiedAll(alias: string, columns: seq<string>): (r: seq<string>)
    ensures |r| == |columns| && forall i :: 0 <= i < |r| ==> r[i] == Qualified(alias, columns[i])
  {
    seq(|columns|, i requires 0 <= i < |columns| => Qualified(alias, columns[i]))
  }

  function ScanRow(row: map<string, Value>, columns: seq<string>): (r: Row)
    ensures |r| == |columns|
    ensures forall i :: 0 <= i < |r| ==> r[i] == if columns[i] in row then row[columns[i]] else Null
  {
    seq(|columns|, i requires 0 <= i < |columns| => if columns[i] in row then row[columns[i]] else Null)
  }

  function ScanRows(rows: seq<map<string, Value>>, columns: seq<string>): (r: seq<Row>)
    ensures |r| == |rows| && forall i :: 0 <= i < |r| ==> r[i] == ScanRow(rows[i], columns)
  {
    seq(|rows|, i requires 0 <= i < |rows| => ScanRow(rows[i], columns))
  }

  /** `RenameOperator(NodeScanOperator(...))` for one use of an alias. */
  function Scan(db: Database, plan: Plan, alias: string, cls: string): Table
    requires cls in db.classes && plan.idColumn in db.classes[cls].columns
  {
    var columns := ScanColumns(db, plan, alias, cls);
    Table(QualifiedAll(alias, columns), ScanRows(db.classes[cls].rows, columns))
  }

  // ---------------------------------------------------------------- rows by name

  function ToMap(names: seq<string>, row: Row): Binding
    requires |names| == |row|
  {
    if names == [] then map[] else ToMap(names[..|names| - 1],
        row[..|names| - 1])[names[|names| - 1] := row[|names| - 1]]
  }

  lemma {:induction false} ToMapKeys(names: seq<string>, row: Row)
    requires |names| == |row|
    ensures ToMap(names, row).Keys == Elements(names)
  {
    if names != [] {
      var n := |names| - 1;
      ToMapKeys(names[..n], row[..n]);
      assert Elements(names) == Elements(names[..n]) + {names[n]};
    }
  }

  lemma {:induction false} ToMapFind(names: seq<string>, row: Row, i: nat)
    requires |names| == |row| && Distinct(names) && i < |names|
    ensures names[i] in ToMap(names, row) && ToMap(names, row)[names[i]] == row[i]
  {
    var n := |names| - 1;
    if i < n {
      ToMapFind(names[..n], row[..n], i);
      assert names[..n][i] == names[i] && row[..n][i] == row[i] && names[i] != names[n];
    }
  }

  lemma ToMapAt(names: seq<string>, row: Row)
    requires |names| == |row| && Distinct(names)
    ensures forall x :: x in ToMap(names, row) <==> x in names
    ensures forall i :: 0 <= i < |names| ==> ToMap(names, row)[names[i]] == row[i]
  {
    ToMapKeys(names, row);
    forall i | 0 <= i < |names|
      ensures names[i] in ToMap(names, row) && ToMap(names, row)[names[i]] == row[i]
    {
      ToMapFind(names, row, i);
    }
  }

  /** The binding a stored row contributes under an alias. */
  function Bind(db: Database, plan: Plan, alias: string, cls: string, row: map<string, Value>): Binding
    requires cls in db.classes && plan.idColumn in db.classes[cls].columns
  {
    var columns := ScanColumns(db, plan, alias, cls);
    ToMap(QualifiedAll(alias, columns), ScanRow(row, columns))
  }

  function CurrentId(b: Binding, alias: string, id: string): Value {
    if Qualified(alias, id) in b then b[Qualified(alias, id)] else Null
  }

  // ---------------------------------------------------------------- reference meaning

  /** The far ends of the edges of one relation that touch `k` in the hop's direction. */
  function AdjacentBy(table: EdgeTable, direction: Direction, k: nat): seq<nat>
    requires |table.src| == |table.dst|
  {
    (if direction != In then Outgoing(table.src, table.dst, k) else []) +
    (if direction != Out then Outgoing(table.dst, table.src, k) else [])
  }

  function Adjacent(db: Database, relations: seq<string>, direction: Direction, k: nat): seq<nat>
    requires forall j :: 0 <= j < |relations| ==> ValidRelation(db, relations[j])
  {
    if relations == [] then []
    else
      var n := |relations| - 1;
      assert ValidRelation(db, relations[n]);
      Adjacent(db, relations[..n], direction, k) + AdjacentBy(db.relations[relations[n]], direction, k)
  }

  function AdjacentTo(db: Database, hop: Hop, v: Value): seq<nat>
    requires forall j :: 0 <= j < |hop.relations| ==> ValidRelation(db, hop.relations[j])
  {
    if v.Num? && v.n >= 0 then Adjacent(db, hop.relations, hop.direction, v.n) else []
  }

  /** All complete matches that extend the partial match `b`, whose last node is `alias`. */
  ghost function Extend(db: Database, plan: Plan, b: Binding, alias: string, hops: seq<Hop>): multiset<Binding>
    requires ValidHops(db, hops, plan.idColumn)
    decreases |hops|, 1
  {
    if hops == [] then multiset{b}
    else
      Each(AdjacentTo(db, hops[0], CurrentId(b, alias, plan.idColumn)), v => ExtendTo(db, plan, b, hops, v))
  }

  ghost function ExtendTo(db: Database, plan: Plan, b: Binding, hops: seq<Hop>, v: nat): multiset<Binding>
    requires hops != [] && ValidHops(db, hops, plan.idColumn)
    decreases |hops|, 0
  {
    var hop := hops[0];
    Each(db.classes[hop.cls].rows, r =>
      if CurrentIdOf(r, plan.idColumn) == Num(v)
      then Extend(db, plan, b + Bind(db, plan, hop.alias, hop.cls, r), hop.alias, hops[1..]) else multiset{})
  }

  function CurrentIdOf(row: map<string, Value>, id: string): Value {
    if id in row then row[id] else Null
  }

  /** Nested-loop matching of the whole pattern. */
  ghost function Matching(db: Database, plan: Plan): multiset<Binding>
    requires ValidStore(db, plan.cls, plan.idColumn) && ValidHops(db, plan.hops, plan.idColumn)
  {
    Each(db.classes[plan.cls].rows, MatchesFrom(db, plan))
  }

  /** The matches that start at a row of the first class. */
  ghost function MatchesFrom(db: Database, plan: Plan): map<string, Value> -> multiset<Binding>
    requires ValidStore(db, plan.cls, plan.idColumn) && ValidHops(db, plan.hops, plan.idColumn)
  {
    r => Extend(db, plan, Bind(db, plan, plan.alias, plan.cls, r), plan.alias, plan.hops)
  }
}
