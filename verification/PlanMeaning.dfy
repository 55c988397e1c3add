/** The rewrite rules preserve what a plan computes, row by row and column name by column name (plan/rules.py). */
module PlanMeaning {
  import opened Results
  import opened Names
  import opened Expressions
  import opened Plans

  // ---------------------------------------------------------------- well-formed plans

  ghost predicate AllIn(names: seq<string>, columns: set<string>) {
    forall c :: c in names ==> c in columns
  }

  /** The columns a scan offers to the operators above it. */
  function Offered(db: Db, cls: string, columns: Option<seq<string>>): set<string> {
    if columns.Some? then set c | c in columns.value else if cls in db then db[cls].columns.Keys else {}
  }

  /**
    Scans list columns their class has, and filters and projections directly above a
    scan mention columns it offers.
    */
  ghost predicate Proper(db: Db, p: Plan) {
    match p
    case NodeScan(cls, _, columns) => cls in db && (columns.Some? ==> AllIn(columns.value, db[cls].columns.Keys))
    case Selection(child, pred) =>
      Proper(db, child) && (child.NodeScan? ==> AllIn(ColumnsUsed(pred), Offered(db, child.cls, child.columns)))
    case Project(child, projections) =>
      && Proper(db, child)
      && (child.NodeScan? ==> AllIn(ProjectedColumns(projections), Offered(db, child.cls, child.columns)))
      && (IsFilteredScan(child) ==> AllIn(ProjectedColumns(projections),
          Offered(db, child.child.cls, child.child.columns)))
    case Aggregate(child, _, _) => Proper(db, child)
    case OrderBy(child, _) => Proper(db, child)
    case Limit(child, _, _) => Proper(db, child)
  }

  // ---------------------------------------------------------------- scans by name

  lemma PickedExtensional(t: Table, a: seq<string>, b: seq<string>)
    requires forall c :: c in a <==> c in b
    ensures Picked(t, a) == Picked(t, b)
  {
    if Picked(t, a).Ok? {
      assert Picked(t, a).value.columns == Picked(t, b).value.columns;
    }
  }

  /** Widening by columns already offered changes at most their order. */
  lemma WidenedScan(db: Db, cls: string, columns: Option<seq<string>>, used: seq<string>)
    requires AllIn(used, Offered(db, cls, columns)) || columns.None?
    ensures ScanTable(db, cls, Widened(columns, used)) == ScanTable(db, cls, columns)
    ensures Offered(db, cls, Widened(columns, used)) == Offered(db, cls, columns)
  {
    if columns.Some? {
      SortUniqueSorted(columns.value + used);
      if cls in db {
        PickedExtensional(db[cls], SortUnique(columns.value + used), columns.value);
      }
    }
  }

  /** A narrowed scan and the original agree on the wanted columns. */
  lemma NarrowedScan(db: Db, cls: string, columns: Option<seq<string>>, wanted: seq<string>)
    requires cls in db && (columns.Some? ==> AllIn(columns.value, db[cls].columns.Keys))
      && AllIn(wanted, Offered(db, cls, columns))
    ensures ScanTable(db, cls, columns).Ok? && ScanTable(db, cls, Narrowed(columns, wanted)).Ok?
    ensures Agree(ScanTable(db, cls, columns).value, ScanTable(db, cls, Narrowed(columns, wanted)).value, wanted)
    ensures AllIn(wanted, Offered(db, cls, Narrowed(columns, wanted)))
    ensures Narrowed(columns, wanted).Some? ==> AllIn(Narrowed(columns, wanted).value, db[cls].columns.Keys)
  {
    SortUniqueSorted(wanted);
  }

  // ---------------------------------------------------------------- operators on agreeing batches

  lemma AgreeFewer(t: Table, u: Table, names: seq<string>, fewer: seq<string>)
    requires Agree(t, u, names) && forall c :: c in fewer ==> c in names
    ensures Agree(t, u, fewer)
  {
  }

  lemma FilteredAgrees(k: Kernels, t: Table, u: Table, pred: Node, names: seq<string>)
    requires Agree(t, u, names + ColumnsUsed(pred))
    ensures Filtered(k, t, pred).Ok? == Filtered(k, u, pred).Ok?
    ensures Filtered(k, t, pred).Err? ==> Filtered(k, u, pred) == Filtered(k, t, pred)
    ensures Filtered(k, t, pred).Ok? ==> Agree(Filtered(k, t, pred).value, Filtered(k, u, pred).value, names)
  {
    AgreeFewer(t, u, names + ColumnsUsed(pred), ColumnsUsed(pred));
    AgreeFewer(t, u, names + ColumnsUsed(pred), names);
    EvalDependsOnColumnsUsed(k, pred, t, u);
  }

  lemma ProjectionPart(projections: seq<(Node, string)>, i: nat, c: string)
    requires i < |projections| && c in ColumnsUsed(projections[i].0)
    ensures c in ProjectedColumns(projections) || projections[0].0.Str?
  {
    var items := ProjectionTuple(projections).items;
    if !items[0].Str? {
      UsedByPart(items, i, c);
    }
  }

  lemma {:induction false} ProjectedAgrees(k: Kernels, t: Table, u: Table, projections: seq<(Node, string)>)
    requires t.count == u.count && forall i :: 0 <= i < |projections| ==> Agree(t, u, ColumnsUsed(projections[i].0))
    ensures Projected(k, t, projections) == Projected(k, u, projections)
  {
    if projections != [] {
      var n := |projections| - 1;
      ProjectedAgrees(k, t, u, projections[..n]);
      EvalDependsOnColumnsUsed(k, projections[n].0, t, u);
    }
  }

  /** A projection that starts with a bare string fails to compile, whatever the batch. */
  lemma {:induction false} BareStringFails(k: Kernels, t: Table, projections: seq<(Node, string)>)
    requires projections != [] && projections[0].0.Str?
    ensures Projected(k, t, projections) == Err("CDB-6010")
  {
    var n := |projections| - 1;
    if n > 0 {
      BareStringFails(k, t, projections[..n]);
    } else {
      assert projections[..0] == [];
    }
  }

  lemma ProjectionsAgree(k: Kernels, t: Table, u: Table, projections: seq<(Node, string)>)
    requires Agree(t, u, ProjectedColumns(projections))
    ensures Projected(k, t, projections) == Projected(k, u, projections)
  {
    if projections != [] && projections[0].0.Str? {
      BareStringFails(k, t, projections);
      BareStringFails(k, u, projections);
    } else {
      forall i | 0 <= i < |projections|
        ensures Agree(t, u, ColumnsUsed(projections[i].0))
      {
        forall c | c in ColumnsUsed(projections[i].0)
          ensures c in ProjectedColumns(projections)
        {
          ProjectionPart(projections, i, c);
        }
      }
      ProjectedAgrees(k, t, u, projections);
    }
  }

  // ---------------------------------------------------------------- the rules preserve meaning

  lemma {:induction false} PushdownKeepsRows(en: Engine, db: Db, p: Plan)
    requires Proper(db, p)
    ensures Rows(en, db, Pushdown(p)) == Rows(en, db, p) && Proper(db, Pushdown(p))
  {
    match p
    case NodeScan(_, _, _) =>
    case Selection(child, pred) =>
      if child.NodeScan? {
        WidenedScan(db, child.cls, child.columns, ColumnsUsed(pred));
        SortUniqueSorted((if child.columns.Some? then child.columns.value else []) + ColumnsUsed(pred));
      } else {
        PushdownKeepsRows(en, db, child);
        ShapesStay(child);
      }
    case Project(child, projections) =>
      PushdownKeepsRows(en, db, child);
      ShapesStay(child);
      if IsFilteredScan(child) {
        WidenedScan(db, child.child.cls, child.child.columns, ColumnsUsed(child.predicate_));
      }
    case Aggregate(child, _, _) => PushdownKeepsRows(en, db, child);
    case OrderBy(child, _) => PushdownKeepsRows(en, db, child);
    case Limit(child, _, _) => PushdownKeepsRows(en, db, child);
  }

  lemma PrunedScan(en: Engine, db: Db, scan: Plan, projections: seq<(Node, string)>)
    requires scan.NodeScan? && Proper(db, Project(scan, projections))
    ensures var p := Project(scan, projections); Rows(en, db, Pruning(p)) == Rows(en, db, p) && Proper(db, Pruning(p))
  {
    var wanted := ProjectedColumns(projections);
    NarrowedScan(db, scan.cls, scan.columns, wanted);
    ProjectionsAgree(en.kernels, ScanTable(db, scan.cls, scan.columns).value,
                     ScanTable(db, scan.cls, Narrowed(scan.columns, wanted)).value, projections);
  }

  lemma PrunedFilteredScan(en: Engine, db: Db, scan: Plan, pred: Node, projections: seq<(Node, string)>)
    requires scan.NodeScan? && Proper(db, Project(Selection(scan, pred), projections))
    ensures var p := Project(Selection(scan, pred), projections);
      Rows(en, db, Pruning(p)) == Rows(en, db, p) && Proper(db, Pruning(p))
  {
    var wanted, used := ProjectedColumns(projections), ColumnsUsed(pred);
    var narrow := Narrowed(scan.columns, wanted + used);
    var fewer := scan.(columns := narrow);
    assert Proper(db, Selection(scan, pred)) && Proper(db, scan);
    NarrowedScan(db, scan.cls, scan.columns, wanted + used);
    var t, u := ScanTable(db, scan.cls, scan.columns).value, ScanTable(db, scan.cls, narrow).value;
    FilteredAgrees(en.kernels, t, u, pred, wanted);
    if Filtered(en.kernels, t, pred).Ok? {
      ProjectionsAgree(en.kernels, Filtered(en.kernels, t, pred).value, Filtered(en.kernels, u, pred).value,
          projections);
    }
    assert Rows(en, db, scan) == Ok(t) && Rows(en, db, fewer) == Ok(u);
    assert Rows(en, db, Selection(scan, pred)) == Filtered(en.kernels, t, pred);
    assert Rows(en, db, Selection(fewer, pred)) == Filtered(en.kernels, u, pred);
    assert Proper(db, fewer) && Proper(db, Selection(fewer, pred));
  }

  lemma {:induction false} PruningKeepsRows(en: Engine, db: Db, p: Plan)
    requires Proper(db, p)
    ensures Rows(en, db, Pruning(p)) == Rows(en, db, p) && Proper(db, Pruning(p))
  {
    match p
    case NodeScan(_, _, _) =>
    case Selection(child, pred) => PruningKeepsRows(en, db, child);
    case Project(child, projections) =>
      if child.NodeScan? {
        PrunedScan(en, db, child, projections);
      } else if IsFilteredScan(child) {
        PrunedFilteredScan(en, db, child.child, child.predicate_, projections);
      } else {
        PruningKeepsRows(en, db, child);
        ShapesStay(child);
      }
    case Aggregate(child, _, _) => PruningKeepsRows(en, db, child);
    case OrderBy(child, _) => PruningKeepsRows(en, db, child);
    case Limit(child, _, _) => PruningKeepsRows(en, db, child);
  }

  /** `run_rules` preserves the rows of every well-formed plan of any depth. */
  lemma RewritingKeepsRows(en: Engine, db: Db, p: Plan)
    requires Proper(db, p)
    ensures Rows(en, db, Pruning(Pushdown(p))) == Rows(en, db, p)
  {
    PushdownKeepsRows(en, db, p);
    PruningKeepsRows(en, db, Pushdown(p));
  }

  /** The whole rewriter, with its result's meaning. */
  method Rewrite(ghost en: Engine, ghost db: Db, plan: Plan, maxIterations: nat) returns (r: RewriteResult)
    ensures Proper(db, plan) ==> Rows(en, db, r.plan) == Rows(en, db, plan)
    ensures r.iterations <= 2
  {
    r := RunRules(plan, maxIterations);
    if Proper(db, plan) {
      RewritingKeepsRows(en, db, plan);
    }
  }

  // ---------------------------------------------------------------- exactly when

  lemma {:induction false} ProjectedMonotone(k: Kernels, t: Table, u: Table, projections: seq<(Node, string)>)
    requires forall i :: 0 <= i < |projections| ==> Covers(t, u, ColumnsUsed(projections[i].0))
    requires t.count == u.count && Projected(k, t, projections).Ok?
    ensures Projected(k, u, projections) == Projected(k, t, projections)
  {
    if projections != [] {
      var n := |projections| - 1;
      ProjectedMonotone(k, t, u, projections[..n]);
      EvalMonotone(k, projections[n].0, t, u);
    }
  }

  lemma ProjectionsCovered(k: Kernels, t: Table, u: Table, projections: seq<(Node, string)>)
    requires Covers(t, u, ProjectedColumns(projections)) && Projected(k, t, projections).Ok?
    ensures Projected(k, u, projections) == Projected(k, t, projections)
  {
    if projections != [] && projections[0].0.Str? {
      BareStringFails(k, t, projections);
    }
    forall i | 0 <= i < |projections|
      ensures Covers(t, u, ColumnsUsed(projections[i].0))
    {
      forall c | c in ColumnsUsed(projections[i].0)
        ensures c in ProjectedColumns(projections)
      {
        ProjectionPart(projections, i, c);
      }
    }
    ProjectedMonotone(k, t, u, projections);
  }

  /**
    Pruning a runnable projection of a scan is right if and only if the class has
    every column `_columns_used` reports.
    */
  lemma PruningExactlyWhen(en: Engine, db: Db, scan: Plan, projections: seq<(Node, string)>)
    requires scan.NodeScan? && Rows(en, db, Project(scan, projections)).Ok?
    ensures scan.cls in db
    ensures Rows(en, db, Pruning(Project(scan, projections))) == Rows(en, db, Project(scan, projections))
       <==> AllIn(ProjectedColumns(projections), db[scan.cls].columns.Keys) || ProjectedColumns(projections) == []
  {
    var wanted := ProjectedColumns(projections);
    assert Rows(en, db, scan) == ScanTable(db, scan.cls, scan.columns);
    var fewer := scan.(columns := Narrowed(scan.columns, wanted));
    assert Rows(en, db, fewer) == ScanTable(db, scan.cls, Narrowed(scan.columns, wanted));
    SortUniqueSorted(wanted);
    if wanted != [] && AllIn(wanted, db[scan.cls].columns.Keys) {
      ProjectionsCovered(en.kernels, Rows(en, db, scan).value, Rows(en, db, fewer).value, projections);
    }
  }

  lemma FilteredCovers(k: Kernels, t: Table, u: Table, pred: Node, names: seq<string>)
    requires Covers(t, u, names + ColumnsUsed(pred)) && Filtered(k, t, pred).Ok?
    ensures Filtered(k, u, pred).Ok? && Covers(Filtered(k, t, pred).value, Filtered(k, u, pred).value, names)
  {
    EvalMonotone(k, pred, t, u);
  }

  /** The same below a filter: the class must have the columns of the projection and those of the predicate. */
  lemma FilteredPruningExactlyWhen(en: Engine, db: Db, scan: Plan, pred: Node, projections: seq<(Node, string)>)
    requires scan.NodeScan? && Rows(en, db, Project(Selection(scan, pred), projections)).Ok?
    ensures scan.cls in db
    ensures var p, wanted := Project(Selection(scan, pred), projections), ProjectedColumns(projections)
      + ColumnsUsed(pred);
      Rows(en, db, Pruning(p)) == Rows(en, db, p) <==> AllIn(wanted, db[scan.cls].columns.Keys) || wanted == []
  {
    var wanted := ProjectedColumns(projections) + ColumnsUsed(pred);
    var fewer := scan.(columns := Narrowed(scan.columns, wanted));
    assert Rows(en, db, scan) == ScanTable(db, scan.cls, scan.columns);
    assert Rows(en, db, fewer) == ScanTable(db, scan.cls, fewer.columns);
    assert Rows(en, db, Selection(scan, pred)) == Filtered(en.kernels, Rows(en, db, scan).value, pred);
    SortUniqueSorted(wanted);
    if wanted != [] && AllIn(wanted, db[scan.cls].columns.Keys) {
      var t, u := Rows(en, db, scan).value, Rows(en, db, fewer).value;
      FilteredCovers(en.kernels, t, u, pred, ProjectedColumns(projections));
      assert Rows(en, db, Selection(fewer, pred)) == Filtered(en.kernels, u, pred);
      ProjectionsCovered(en.kernels, Filtered(en.kernels, t, pred).value, Filtered(en.kernels, u, pred).value,
          projections);
    }
  }

  /**
    Widening a runnable filtered scan is right if and only if the scan already lists
    every column `_columns_used` reports.
    */
  lemma PushdownExactlyWhen(en: Engine, db: Db, scan: Plan, pred: Node)
    requires scan.NodeScan? && scan.columns.Some? && Rows(en, db, Selection(scan, pred)).Ok?
    ensures Rows(en, db, Pushdown(Selection(scan, pred))) == Rows(en, db, Selection(scan, pred))
       <==> forall c :: c in ColumnsUsed(pred) ==> c in scan.columns.value
  {
    var used, columns := ColumnsUsed(pred), scan.columns.value;
    var wider := scan.(columns := Widened(scan.columns, used));
    assert Rows(en, db, scan) == ScanTable(db, scan.cls, scan.columns);
    assert Rows(en, db, wider) == ScanTable(db, scan.cls, wider.columns);
    if forall c :: c in used ==> c in columns {
      WidenedScan(db, scan.cls, scan.columns, used);
    } else {
      var c :| c in used && c !in columns;
      SortUniqueSorted(columns + used);
      assert c in wider.columns.value;
      assert c !in Rows(en, db, Selection(scan, pred)).value.columns;
      WiderHasColumn(en, db, wider, pred, c);
    }
  }

  lemma WiderHasColumn(en: Engine, db: Db, scan: Plan, pred: Node, c: string)
    requires scan.NodeScan? && scan.columns.Some? && c in scan.columns.value
    ensures var r := Rows(en, db, Selection(scan, pred)); r.Ok? ==> c in r.value.columns
  {
    assert Rows(en, db, scan) == ScanTable(db, scan.cls, scan.columns);
  }

  /**
    A tuple literal that reads like a column reference: the plan runs, its pruned
    form asks for a column nobody has.
    */
  lemma LiteralMistakenForColumn(en: Engine)
    ensures var literal := Tup([Str("lit"), Tup([Str("col"), Str("ghost")])]);
      var db := map["Person" := Table(0, map["name" := []])];
      var plan := Project(NodeScan("Person", "n", None), [(literal, "x")]);
      Rows(en, db, plan).Ok? && Rows(en, db, Pruning(plan)) == Err("KeyError")
  {
    var literal := Tup([Str("lit"), Tup([Str("col"), Str("ghost")])]);
    var db := map["Person" := Table(0, map["name" := []])];
    var scan, projections := NodeScan("Person", "n", None), [(literal, "x")];
    assert ProjectionTuple(projections).items == [literal];
    assert literal.items[1..] == [Tup([Str("col"), Str("ghost")])];
    assert UsedByAll([Tup([Str("col"), Str("ghost")])]) == ["ghost"] + UsedByAll([]);
    assert ColumnsUsed(literal) == ["ghost"];
    assert UsedByAll([literal]) == ["ghost"] + UsedByAll([]);
    assert SortUnique(["ghost"]) == ["ghost"];
    assert Rows(en, db, scan) == Ok(db["Person"]);
    assert projections[..0] == [];
    assert Projected(en.kernels, db["Person"], []).Ok? && Eval(en.kernels, literal, db["Person"]).Ok?;
    assert Projected(en.kernels, db["Person"], projections).Ok?;
    assert Pruning(Project(scan, projections)).child == NodeScan("Person", "n", Some(["ghost"]));
    assert "ghost" in ["ghost"];
    assert Rows(en, db, NodeScan("Person", "n", Some(["ghost"]))) == Err("KeyError");
  }
}
