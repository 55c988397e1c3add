/** Logical plans, the two rewrite rules, and what a plan computes (plan/logical.py, plan/rules.py). */
module Plans {
  import opened Results
  import opened Names
  import opened Expressions

  datatype Plan =
    | NodeScan(cls: string, alias: string, columns: Option<seq<string>>)
    | Selection(child: Plan, predicate_: Node)
    | Project(child: Plan, projections: seq<(Node, string)>)
    | Aggregate(child: Plan, groupKeys: seq<Node>, aggregates: seq<(string, Node, string)>)
    | OrderBy(child: Plan, keys: seq<(Node, bool)>)
    | Limit(child: Plan, limit: nat, offset: nat)

  // ---------------------------------------------------------------- the rules

  function ProjectionTuple(projections: seq<(Node, string)>): Node {
    Tup(seq(|projections|, i requires 0 <= i < |projections| => projections[i].0))
  }

  function ProjectedColumns(projections: seq<(Node, string)>): seq<string> {
    ColumnsUsed(ProjectionTuple(projections))
  }

  /** `tuple(sorted(wanted)) or columns`. */
  function Narrowed(columns: Option<seq<string>>, wanted: seq<string>): Option<seq<string>> {
    if wanted == [] then columns else Some(SortUnique(wanted))
  }

  /** `tuple(sorted(set(columns) | referenced))`, where the columns are listed at all. */
  function Widened(columns: Option<seq<string>>, referenced: seq<string>): Option<seq<string>> {
    if columns.None? then columns else Some(SortUnique(columns.value + referenced))
  }

  predicate IsScan(p: Plan) {
    p.NodeScan?
  }

  predicate IsFilteredScan(p: Plan) {
    p.Selection? && p.child.NodeScan?
  }

  function Pushdown(p: Plan): Plan {
    match p
    case NodeScan(_, _, _) => p
    case Selection(child, pred) =>
      if child.NodeScan? then Selection(child.(columns := Widened(child.columns, ColumnsUsed(pred))), pred)
      else Selection(Pushdown(child), pred)
    case Project(child, projections) => Project(Pushdown(child), projections)
    case Aggregate(child, keys, aggregates) => Aggregate(Pushdown(child), keys, aggregates)
    case OrderBy(child, keys) => OrderBy(Pushdown(child), keys)
    case Limit(child, limit, offset) => Limit(Pushdown(child), limit, offset)
  }

  function Pruning(p: Plan): Plan {
    match p
    case NodeScan(_, _, _) => p
    case Selection(child, pred) => Selection(Pruning(child), pred)
    case Project(child, projections) =>
      var wanted := ProjectedColumns(projections);
      if child.NodeScan? then Project(child.(columns := Narrowed(child.columns, wanted)), projections)
      else if IsFilteredScan(child) then
        var scan := child.child;
        var columns := Narrowed(scan.columns, wanted + ColumnsUsed(child.predicate_));
        Project(Selection(scan.(columns := columns), child.predicate_), projections)
      else Project(Pruning(child), projections)
    case Aggregate(child, keys, aggregates) => Aggregate(Pruning(child), keys, aggregates)
    case OrderBy(child, keys) => OrderBy(Pruning(child), keys)
    case Limit(child, limit, offset) => Limit(Pruning(child), limit, offset)
  }

  // ---------------------------------------------------------------- the fixpoint

  lemma WidenedTwice(columns: Option<seq<string>>, used: seq<string>)
    ensures Widened(Widened(columns, used), used) == Widened(columns, used)
  {
    if columns.Some? {
      var all := columns.value + used;
      SortUniqueSorted(all);
      SortUniqueExtensional(SortUnique(all) + used, all);
    }
  }

  lemma NarrowedTwice(columns: Option<seq<string>>, wanted: seq<string>)
    ensures Narrowed(Narrowed(columns, wanted), wanted) == Narrowed(columns, wanted)
  {
  }

  /** Under a projection the widening finds every column the predicate needs already there. */
  lemma WidenedAfterNarrowed(columns: Option<seq<string>>, wanted: seq<string>, used: seq<string>)
    ensures var narrow := Narrowed(Widened(columns, used), wanted + used); Widened(narrow, used) == narrow
  {
    var all := wanted + used;
    if all == [] {
      WidenedTwice(columns, used);
    } else {
      SortUniqueSorted(all);
      SortUniqueExtensional(SortUnique(all) + used, all);
    }
  }

  lemma ShapesStay(p: Plan)
    ensures IsScan(Pushdown(p)) == IsScan(p) == IsScan(Pruning(p))
    ensures IsFilteredScan(Pushdown(p)) == IsFilteredScan(p) == IsFilteredScan(Pruning(p))
  {
  }

  /** One pass of both rules: a second changes nothing, rule by rule. */
  lemma {:induction false} OnePassSettles(p: Plan)
    ensures var q := Pruning(Pushdown(p)); Pushdown(q) == q && Pruning(q) == q
    decreases p, 0
  {
    match p
    case NodeScan(_, _, _) =>
    case Selection(child, pred) =>
      if child.NodeScan? {
        WidenedTwice(child.columns, ColumnsUsed(pred));
      } else {
        OnePassSettles(child);
        ShapesStay(child);
        ShapesStay(Pushdown(child));
      }
    case Project(child, projections) => ProjectSettles(child, projections);
    case Aggregate(child, _, _) => OnePassSettles(child);
    case OrderBy(child, _) => OnePassSettles(child);
    case Limit(child, _, _) => OnePassSettles(child);
  }

  lemma {:induction false} ProjectSettles(child: Plan, projections: seq<(Node, string)>)
    ensures var q := Pruning(Pushdown(Project(child, projections))); Pushdown(q) == q && Pruning(q) == q
    decreases child, 1
  {
    var wanted := ProjectedColumns(projections);
    ShapesStay(child);
    if child.NodeScan? {
      NarrowedTwice(child.columns, wanted);
    } else if IsFilteredScan(child) {
      var used, columns := ColumnsUsed(child.predicate_), child.child.columns;
      WidenedAfterNarrowed(columns, wanted, used);
      NarrowedTwice(Widened(columns, used), wanted + used);
    } else {
      OnePassSettles(child);
      ShapesStay(Pushdown(child));
    }
  }

  // ---------------------------------------------------------------- what the rules do to a plan

  /** A sorted list of just these columns. */
  ghost predicate ListsJust(columns: Option<seq<string>>, wanted: string -> bool) {
    columns.Some? && Sorted(columns.value) && forall c :: c in columns.value <==> wanted(c)
  }

  /** The scan, listing exactly the columns wanted if any is; otherwise as it was. */
  ghost predicate NarrowedScan(scan: Plan, wanted: string -> bool, out: Plan) {
    && scan.NodeScan? && out.NodeScan? && out.cls == scan.cls && out.alias == scan.alias
    && if exists c :: wanted(c) then ListsJust(out.columns, wanted) else out.columns == scan.columns
  }

  /** The scan, also listing the columns of the filter above it, if it lists columns at all. */
  ghost predicate WidenedScan(scan: Plan, pred: Node, out: Plan) {
    && scan.NodeScan? && out.NodeScan? && out.cls == scan.cls && out.alias == scan.alias
    && if scan.columns.None? then out.columns.None?
       else ListsJust(out.columns, c => c in scan.columns.value || Mentions(pred, c))
  }

  /** The tuple of the projected expressions, looked through as one expression. */
  ghost function MentionedIn(projections: seq<(Node, string)>): string -> bool {
    c => Mentions(Tup(seq(|projections|, i requires 0 <= i < |projections| => projections[i].0)), c)
  }

  ghost function MentionedInEither(projections: seq<(Node, string)>, pred: Node): string -> bool {
    c => MentionedIn(projections)(c) || Mentions(pred, c)
  }

  /**
    The same plan but for the columns of its scans: under a projection those it and
    the filter between them mention, under a filter alone those of the filter in
    addition, elsewhere as they were.
    */
  ghost predicate Rewritten(p: Plan, q: Plan) {
    match p
    case NodeScan(_, _, _) => q == p
    case Selection(child, pred) =>
      && q.Selection? && q.predicate_ == pred
      && if child.NodeScan? then WidenedScan(child, pred, q.child) else Rewritten(child, q.child)
    case Project(child, projections) =>
      && q.Project? && q.projections == projections
      && if child.NodeScan? then NarrowedScan(child, MentionedIn(projections), q.child)
         else if child.Selection? && child.child.NodeScan? then
           && q.child.Selection? && q.child.predicate_ == child.predicate_
           && exists scan ::
             && WidenedScan(child.child, child.predicate_, scan)
             && NarrowedScan(scan, MentionedInEither(projections, child.predicate_), q.child.child)
         else Rewritten(child, q.child)
    case Aggregate(child, keys, aggregates) =>
      q.Aggregate? && q.groupKeys == keys && q.aggregates == aggregates && Rewritten(child, q.child)
    case OrderBy(child, keys) => q.OrderBy? && q.keys == keys && Rewritten(child, q.child)
    case Limit(child, limit, offset) => q.Limit? && q.limit == limit && q.offset == offset && Rewritten(child, q.child)
  }

  lemma ProjectedMentions(projections: seq<(Node, string)>, c: string)
    ensures c in ProjectedColumns(projections) <==> MentionedIn(projections)(c)
  {
    var items := seq(|projections|, i requires 0 <= i < |projections| => projections[i].0);
    assert ProjectionTuple(projections) == Tup(items);
    UsedMeansMentioned(Tup(items), c);
  }

  lemma WidenedIs(scan: Plan, pred: Node)
    requires scan.NodeScan?
    ensures WidenedScan(scan, pred, scan.(columns := Widened(scan.columns, ColumnsUsed(pred))))
  {
    if scan.columns.Some? {
      SortUniqueSorted(scan.columns.value + ColumnsUsed(pred));
      forall c
        ensures c in ColumnsUsed(pred) <==> Mentions(pred, c)
      {
        UsedMeansMentioned(pred, c);
      }
    }
  }

  lemma NarrowedIs(scan: Plan, wanted: string -> bool, names: seq<string>)
    requires scan.NodeScan? && forall c :: c in names <==> wanted(c)
    ensures NarrowedScan(scan, wanted, scan.(columns := Narrowed(scan.columns, names)))
  {
    if names == [] {
      assert forall c :: c !in names;
    } else {
      assert wanted(names[0]);
      SortUniqueSorted(names);
    }
  }

  lemma ProjectRewritten(child: Plan, projections: seq<(Node, string)>)
    requires child.NodeScan? || IsFilteredScan(child)
    ensures Rewritten(Project(child, projections), Pruning(Pushdown(Project(child, projections))))
  {
    forall c
      ensures c in ProjectedColumns(projections) <==> MentionedIn(projections)(c)
    {
      ProjectedMentions(projections, c);
    }
    if child.NodeScan? {
      NarrowedIs(child, MentionedIn(projections), ProjectedColumns(projections));
    } else {
      var pred := child.predicate_;
      var names := ProjectedColumns(projections) + ColumnsUsed(pred);
      forall c
        ensures c in names <==> MentionedInEither(projections, pred)(c)
      {
        UsedMeansMentioned(pred, c);
      }
      WidenedIs(child.child, pred);
      NarrowedIs(child.child.(columns := Widened(child.child.columns, ColumnsUsed(pred))),
                 MentionedInEither(projections, pred), names);
    }
  }

  /** One pass of both rules rewrites the plan so. */
  lemma {:induction false} OnePassRewrites(p: Plan)
    ensures Rewritten(p, Pruning(Pushdown(p)))
  {
    match p
    case NodeScan(_, _, _) =>
    case Selection(child, pred) =>
      if child.NodeScan? {
        WidenedIs(child, pred);
      } else {
        OnePassRewrites(child);
      }
    case Project(child, projections) =>
      if child.NodeScan? || IsFilteredScan(child) {
        ProjectRewritten(child, projections);
      } else {
        ShapesStay(child);
        OnePassRewrites(child);
      }
    case Aggregate(child, _, _) => OnePassRewrites(child);
    case OrderBy(child, _) => OnePassRewrites(child);
    case Limit(child, _, _) => OnePassRewrites(child);
  }

  datatype RewriteResult = RewriteResult(plan: Plan, iterations: nat, applied: seq<string>)

  /** `run_rules` with the default rules: settled after one pass, and it notices in the second. */
  method RunRules(plan: Plan, maxIterations: nat) returns (r: RewriteResult)
    ensures r.plan == if maxIterations == 0 then plan else Pruning(Pushdown(plan))
    ensures maxIterations > 0 ==> Pushdown(r.plan) == r.plan && Pruning(r.plan) == r.plan
    ensures maxIterations > 0 ==> Rewritten(plan, r.plan)
    ensures r.iterations == if maxIterations == 0 then 0 else if r.applied == [] || maxIterations == 1 then 1 else 2
    ensures r.iterations <= 2 && r.iterations <= maxIterations
    ensures |r.applied| <= 2 && (maxIterations > 0 ==>
      (r.applied == [] <==> Pushdown(plan) == plan && Pruning(plan) == plan))
  {
    OnePassSettles(plan);
    OnePassRewrites(plan);
    var current, applied := plan, [];
    for i := 0 to maxIterations
      invariant i <= 1
      invariant i == 0 ==> current == plan && applied == []
      invariant i == 1 ==>
        current == Pruning(Pushdown(plan)) && 1 <= |applied| <= 2 && (Pushdown(plan) != plan || Pruning(plan) != plan)
    {
      var changed := false;
      var next := Pushdown(current);
      if next != current {
        current, applied, changed := next, applied + ["predicate_pushdown"], true;
      }
      next := Pruning(current);
      if next != current {
        current, applied, changed := next, applied + ["projection_pruning"], true;
      }
      if !changed {
        return RewriteResult(current, i + 1, applied);
      }
    }
    r := RewriteResult(current, maxIterations, applied);
  }

  // ---------------------------------------------------------------- what a plan computes

  type Db = map<string, Table>

  /** Sorting and grouping, as functions of the child's rows by name. */
  datatype Engine = Engine(
    kernels: Kernels,
    aggregate: (seq<Node>, seq<(string, Node, string)>, Table) -> Result<Table>,
    order: (seq<(Node, bool)>, Table) -> Result<Table>)

  function Picked(t: Table, names: seq<string>): Result<Table> {
    if forall c :: c in names ==> c in t.columns
    then Ok(Table(t.count, map c | c in names :: t.columns[c]))
    else Err("KeyError")
  }

  function ScanTable(db: Db, cls: string, columns: Option<seq<string>>): Result<Table> {
    if cls !in db then Err("CDB-7012")
    else if columns.None? then Ok(db[cls])
    else Picked(db[cls], columns.value)
  }

  function KeepMarked(k: Kernels, column: Column, mask: Column): Column {
    if column == [] || mask == [] then []
    else
      var rest := KeepMarked(k, column[1..], mask[1..]);
      if k.truth(mask[0]) then [column[0]] + rest else rest
  }

  function FilterRows(k: Kernels, t: Table, mask: Column): Table {
    Table(|KeepMarked(k, mask, mask)|, map c | c in t.columns :: KeepMarked(k, t.columns[c], mask))
  }

  function Filtered(k: Kernels, t: Table, pred: Node): Result<Table> {
    match Eval(k, pred, t)
    case Err(code) => Err(code)
    case Ok(mask) => Ok(FilterRows(k, t, mask))
  }

  /** The output columns, left to right; a repeated name keeps its last expression. */
  function Projected(k: Kernels, t: Table, projections: seq<(Node, string)>): Result<Table> {
    if projections == [] then Ok(Table(t.count, map[]))
    else
      var n := |projections| - 1;
      match Projected(k, t, projections[..n])
      case Err(code) => Err(code)
      case Ok(front) =>
        match Eval(k, projections[n].0, t)
        case Err(code) => Err(code)
        case Ok(column) => Ok(front.(columns := front.columns[projections[n].1 := column]))
  }

  function Slice(column: Column, limit: nat, offset: nat): Column {
    if offset >= |column| then []
    else if offset + limit >= |column| then column[offset..]
    else column[offset..offset + limit]
  }

  function Sliced(t: Table, limit: nat, offset: nat): Table {
    var left := if offset >= t.count then 0 else t.count - offset;
    Table(if limit <= left then limit else left, map c | c in t.columns :: Slice(t.columns[c], limit, offset))
  }

  function Rows(en: Engine, db: Db, p: Plan): Result<Table> {
    match p
    case NodeScan(cls, _, columns) => ScanTable(db, cls, columns)
    case Selection(child, pred) =>
      (match Rows(en, db, child)
       case Err(code) => Err(code)
       case Ok(t) => Filtered(en.kernels, t, pred))
    case Project(child, projections) =>
      (match Rows(en, db, child)
       case Err(code) => Err(code)
       case Ok(t) => Projected(en.kernels, t, projections))
    case Aggregate(child, keys, aggregates) =>
      (match Rows(en, db, child)
       case Err(code) => Err(code)
       case Ok(t) => en.aggregate(keys, aggregates, t))
    case OrderBy(child, keys) =>
      (match Rows(en, db, child)
       case Err(code) => Err(code)
       case Ok(t) => en.order(keys, t))
    case Limit(child, limit, offset) =>
      (match Rows(en, db, child)
       case Err(code) => Err(code)
       case Ok(t) => Ok(Sliced(t, limit, offset)))
  }
}
