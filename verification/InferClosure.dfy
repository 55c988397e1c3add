/** The materialisation passes over an edge store (onto/reasoner.py). */
module InferClosure {
  import opened Results
  import opened Walks
  import opened Reasoner

  datatype Rule = SYMMETRIC | TRANSITIVE

  datatype Report = Report(rule: Rule, added: nat, iterations: nat, skipped: nat)

  /** The `(src, dst)` columns of an edge store. */
  class EdgeStore {
    var rows: seq<Pair>

    constructor (rows: seq<Pair>)
      ensures this.rows == rows
    {
      this.rows := rows;
    }

    ghost function Relation(): set<Pair>
      reads this
    {
      Elements(rows)
    }

    method Append(pairs: seq<Pair>)
      modifies this
      ensures rows == old(rows) + pairs
    {
      rows := rows + pairs;
    }
  }

  /** `pairs` lists exactly the pairs of `after` that `before` lacks, each once. */
  ghost predicate Lists(pairs: seq<Pair>, before: set<Pair>, after: set<Pair>) {
    Distinct(pairs) && before <= after && Elements(pairs) == after - before
  }

  lemma ListsStep(pairs: seq<Pair>, before: set<Pair>, after: set<Pair>, p: Pair)
    requires Lists(pairs, before, after) && p !in after
    ensures Lists(pairs + [p], before, after + {p})
  {
    assert p !in Elements(pairs);
    DistinctSnoc(pairs, p);
    assert Elements(pairs + [p]) == Elements(pairs) + {p};
  }

  lemma ListsAppend(first: seq<Pair>, second: seq<Pair>, a: set<Pair>, b: set<Pair>, c: set<Pair>)
    requires Lists(first, a, b) && Lists(second, b, c)
    ensures Lists(first + second, a, c)
  {
    forall x | x in second
      ensures x !in first
    {
      assert x in Elements(second);
      assert x !in Elements(first);
    }
    DistinctConcat(first, second);
    assert Elements(first + second) == Elements(first) + Elements(second);
  }

  lemma ListsNothing(before: set<Pair>, after: set<Pair>)
    requires Lists([], before, after)
    ensures after == before
  {
    assert after - before == {};
    assert after == before + (after - before);
  }

  lemma ListsCount(pairs: seq<Pair>, before: set<Pair>, after: set<Pair>)
    requires Lists(pairs, before, after)
    ensures |pairs| == |after| - |before|
  {
    DistinctCard(pairs);
    assert after == before + (after - before);
  }

  lemma RowsAfterAppend(rows: seq<Pair>, pairs: seq<Pair>, after: set<Pair>)
    requires Lists(pairs, Elements(rows), after)
    ensures Elements(rows + pairs) == after
  {
    assert Elements(rows + pairs) == Elements(rows) + Elements(pairs);
  }

  // ---------------------------------------------------------------- SYMMETRIC

  /** `infer_symmetric`: append the missing reverse of every stored pair. */
  method InferSymmetric(store: EdgeStore) returns (report: Report)
    modifies store
    ensures store.Relation() == old(store.Relation()) + Converse(old(store.Relation()))
    ensures exists additions ::
      && store.rows == old(store.rows) + additions
      && Lists(additions, old(store.Relation()), store.Relation())
    ensures report.rule == SYMMETRIC && report.iterations == 1
    ensures report.added == |store.Relation()| - |old(store.Relation())|
    ensures report.added + report.skipped == |old(store.Relation())|
  {
    var start := Elements(store.rows);
    var existing, todo := start, start;
    var additions: seq<Pair> := [];
    var skipped := 0;
    while todo != {}
      invariant store.rows == old(store.rows)
      invariant todo <= start && Lists(additions, start, existing)
      invariant existing <= start + Converse(start)
      invariant forall p: Pair :: p in start && p !in todo ==> (p.1, p.0) in existing
      invariant |additions| + skipped + |todo| == |start|
      decreases |todo|
    {
      var p :| p in todo;
      var back := (p.1, p.0);
      todo := todo - {p};
      if back in existing {
        skipped := skipped + 1;
      } else {
        ListsStep(additions, start, existing, back);
        assert back in Converse(start);
        additions := additions + [back];
        existing := existing + {back};
      }
    }
    assert existing == start + Converse(start);
    ListsCount(additions, start, existing);
    RowsAfterAppend(store.rows, additions, existing);
    store.Append(additions);
    report := Report(SYMMETRIC, |additions|, 1, skipped);
  }

  // ---------------------------------------------------------------- TRANSITIVE

  /** `out_adj` of the relation as it was when the pass began. */
  method OutAdjacency(edges: set<Pair>) returns (adj: map<nat, set<nat>>)
    ensures forall s: nat, d: nat :: (s in adj && d in adj[s]) <==> (s, d) in edges
  {
    adj := map[];
    var todo := edges;
    while todo != {}
      invariant todo <= edges
      invariant forall s: nat, d: nat :: (s in adj && d in adj[s]) <==> (s, d) in edges - todo
      decreases |todo|
    {
      var p :| p in todo;
      todo := todo - {p};
      adj := adj[p.0 := (if p.0 in adj then adj[p.0] else {}) + {p.1}];
    }
  }

  ghost predicate OverBudget(budget: Option<int>, total: int) {
    budget.Some? && total >= budget.value
  }

  /** One pass: every composition through the relation as it was at the start of the pass. */
  method OnePass(edges: set<Pair>, budget: Option<int>, spent: nat)
    returns (additions: seq<Pair>, after: set<Pair>, over: bool)
    ensures !over ==> Lists(additions, edges, Pass(edges)) && after == Pass(edges)
    ensures over <==> Pass(edges) != edges && OverBudget(budget, spent + |Pass(edges)| - |edges|)
  {
    var adj := OutAdjacency(edges);
    additions, after, over := [], edges, false;
    var todo := edges;
    while todo != {} && !over
      invariant todo <= edges && Lists(additions, edges, after) && after <= Pass(edges)
      invariant !over ==> Followed(edges, todo, after)
      invariant additions != [] ==> (over <==> OverBudget(budget, spent + |additions|))
      invariant additions == [] ==> !over
      decreases |todo|
    {
      var p :| p in todo;
      todo := todo - {p};
      additions, after, over :=
        ExtendFrom(edges, p, if p.1 in adj then adj[p.1] else {}, additions, after, budget, spent);
      assert !over ==> Followed(edges, todo, after);
    }
    if over {
      OverMeansExhausted(edges, additions, after, budget, spent);
    } else {
      FollowedAll(edges, after);
      ListsCount(additions, edges, after);
      if additions == [] {
        ListsNothing(edges, after);
      }
    }
  }

  /** The compositions that start with a pair not in `todo` are all in `after`. */
  ghost predicate Followed(edges: set<Pair>, todo: set<Pair>, after: set<Pair>) {
    forall p: Pair, d: nat :: p in edges && p !in todo && (p.1, d) in edges ==> (p.0, d) in after
  }

  lemma FollowedAll(edges: set<Pair>, after: set<Pair>)
    requires Followed(edges, {}, after) && edges <= after <= Pass(edges)
    ensures after == Pass(edges)
  {
    forall p: Pair | p in Pass(edges)
      ensures p in after
    {
      if p !in edges {
        var b: nat :| (p.0, b) in edges && (b, p.1) in edges;
        assert ((p.0, b).0, p.1) in after;
      }
    }
  }

  lemma OverMeansExhausted(edges: set<Pair>, additions: seq<Pair>, after: set<Pair>, budget: Option<int>, spent: nat)
    requires Lists(additions, edges, after) && after <= Pass(edges) && additions != []
    requires OverBudget(budget, spent + |additions|)
    ensures Pass(edges) != edges && OverBudget(budget, spent + |Pass(edges)| - |edges|)
  {
    ListsCount(additions, edges, after);
    SubsetCard(after, Pass(edges));
  }

  method ExtendFrom(edges: set<Pair>, p: Pair, targets: set<nat>, soFar: seq<Pair>, reached: set<Pair>,
                    budget: Option<int>, spent: nat)
    returns (additions: seq<Pair>, after: set<Pair>, over: bool)
    requires p in edges && (forall d: nat :: d in targets <==> (p.1, d) in edges)
    requires Lists(soFar, edges, reached) && reached <= Pass(edges)
    requires soFar != [] ==> !OverBudget(budget, spent + |soFar|)
    ensures Lists(additions, edges, after) && reached <= after <= Pass(edges)
    ensures !over ==> forall d: nat :: d in targets ==> (p.0, d) in after
    ensures additions != [] ==> (over <==> OverBudget(budget, spent + |additions|))
    ensures additions == [] ==> !over
  {
    additions, after, over := soFar, reached, false;
    var todo := targets;
    while todo != {} && !over
      invariant todo <= targets && Lists(additions, edges, after) && reached <= after <= Pass(edges)
      invariant forall d: nat :: d in targets - todo ==> (p.0, d) in after
      invariant additions != [] ==> (over <==> OverBudget(budget, spent + |additions|))
      invariant additions == [] ==> !over
      decreases |todo|
    {
      var d :| d in todo;
      todo := todo - {d};
      var pair := (p.0, d);
      if pair !in after {
        ListsStep(additions, edges, after, pair);
        assert Via(edges, p.0, d);
        additions := additions + [pair];
        after := after + {pair};
        over := budget.Some? && spent + |additions| >= budget.value;
      }
    }
  }

  /** The store holds its original rows followed by what `k` passes add, each pair once. */
  ghost predicate Materialized(original: seq<Pair>, rows: seq<Pair>, k: nat) {
    && Elements(rows) == Passes(Elements(original), k)
    && AppendedOnce(original, rows)
  }

  ghost predicate AppendedOnce(original: seq<Pair>, rows: seq<Pair>) {
    exists additions :: rows == original + additions && Lists(additions, Elements(original), Elements(rows))
  }

  lemma NothingAppended(rows: seq<Pair>)
    ensures AppendedOnce(rows, rows)
  {
    assert rows == rows + [] && Lists([], Elements(rows), Elements(rows));
  }

  lemma MaterializedStep(original: seq<Pair>, rows: seq<Pair>, k: nat, additions: seq<Pair>)
    requires Materialized(original, rows, k) && Lists(additions, Elements(rows), Pass(Elements(rows)))
    ensures Materialized(original, rows + additions, k + 1) && Elements(rows + additions) == Pass(Elements(rows))
  {
    var earlier :| rows == original + earlier && Lists(earlier, Elements(original), Elements(rows));
    RowsAfterAppend(rows, additions, Pass(Elements(rows)));
    ListsAppend(earlier, additions, Elements(original), Elements(rows), Pass(Elements(rows)));
    assert rows + additions == original + (earlier + additions);
  }

  /** Where the pass loop stands after `k` passes that added something. */
  ghost predicate Standing(original: seq<Pair>, rows: seq<Pair>, edges: set<Pair>, k: nat, totalNew: nat,
                           budget: Option<int>) {
    && edges == Elements(rows) && Materialized(original, rows, k)
    && totalNew == |edges| - |Elements(original)|
    && (edges != Elements(original) ==> !OverBudget(budget, totalNew))
  }

  lemma StandingStep(original: seq<Pair>, rows: seq<Pair>, edges: set<Pair>, k: nat, totalNew: nat,
                     budget: Option<int>, additions: seq<Pair>)
    requires Standing(original, rows, edges, k, totalNew, budget) && Lists(additions, edges, Pass(edges))
      && additions != []
    requires !OverBudget(budget, totalNew + |Pass(edges)| - |edges|)
    ensures Standing(original, rows + additions, Pass(edges), k + 1, totalNew + |additions|, budget)
  {
    ListsCount(additions, edges, Pass(edges));
    MaterializedStep(original, rows, k, additions);
  }

  lemma SomethingListed(edges: set<Pair>, additions: seq<Pair>, after: set<Pair>)
    requires Lists(additions, edges, after)
    ensures additions == [] <==> after == edges
  {
    if additions == [] {
      ListsNothing(edges, after);
    } else {
      assert additions[0] in Elements(additions);
    }
  }

  /** How the pass loop can end. */
  ghost predicate Ended(edges: set<Pair>, over: bool, quiet: bool, totalNew: nat, iteration: nat, k: nat,
                        maxIterations: nat, budget: Option<int>) {
    if over then k < maxIterations && Pass(edges) != edges && OverBudget(budget, totalNew + |Pass(edges)| - |edges|)
    else if quiet then iteration == k + 1 <= maxIterations && Pass(edges) == edges
    else iteration == k == maxIterations
  }

  lemma StandingAtStart(rows: seq<Pair>, budget: Option<int>)
    ensures Standing(rows, rows, Elements(rows), 0, 0, budget)
  {
    NothingAppended(rows);
  }

  /** One turn of the pass loop: over budget, quiet, or the new pairs appended. */
  method PassOver(store: EdgeStore, ghost original: seq<Pair>, edges: set<Pair>, ghost k: nat, totalNew: nat,
                  budget: Option<int>)
    returns (over: bool, quiet: bool, edges': set<Pair>, totalNew': nat)
    requires Standing(original, store.rows, edges, k, totalNew, budget)
    modifies store
    ensures Standing(original, store.rows, edges', if over || quiet then k else k + 1, totalNew', budget)
    ensures over ==> Pass(edges') != edges' && OverBudget(budget, totalNew' + |Pass(edges')| - |edges'|)
    ensures !over && quiet ==> Pass(edges') == edges'
  {
    edges', totalNew', quiet := edges, totalNew, false;
    var additions, after;
    additions, after, over := OnePass(edges, budget, totalNew);
    if !over {
      SomethingListed(edges, additions, after);
      quiet := additions == [];
      if !quiet {
        StandingStep(original, store.rows, edges, k, totalNew, budget, additions);
        store.Append(additions);
        edges', totalNew' := after, totalNew + |additions|;
      }
    }
  }

  /** The pass loop: stops on the budget, on a quiet pass, or at the cap. */
  method RunPasses(store: EdgeStore, maxIterations: nat, budget: Option<int>)
    returns (over: bool, quiet: bool, totalNew: nat, iteration: nat, ghost k: nat)
    requires maxIterations > 0
    modifies store
    ensures Standing(old(store.rows), store.rows, store.Relation(), k, totalNew, budget)
    ensures Ended(store.Relation(), over, quiet, totalNew, iteration, k, maxIterations, budget)
  {
    var edges := Elements(store.rows);
    ghost var original := store.rows;
    StandingAtStart(original, budget);
    over, quiet, totalNew, iteration, k := false, false, 0, 0, 0;
    while iteration < maxIterations
      invariant !over && !quiet && k == iteration <= maxIterations
      invariant Standing(original, store.rows, edges, k, totalNew, budget)
    {
      over, quiet, edges, totalNew := PassOver(store, original, edges, k, totalNew, budget);
      if over {
        return;
      }
      iteration := iteration + 1;
      if quiet {
        return;
      }
      k := k + 1;
    }
  }

  /** `infer_transitive`: the limit of the passes, or the budget error. */
  method InferTransitive(store: EdgeStore, maxIterations: int, budget: Option<int>) returns (r: Result<Report>)
    modifies store
    ensures maxIterations <= 0 ==> r == Err("CDB-9510") && store.rows == old(store.rows)
    ensures maxIterations > 0 ==> (r.Err? <==> Exhausts(old(store.Relation()), maxIterations, budget))
    ensures r.Ok? ==> maxIterations > 0 && store.Relation() == Passes(old(store.Relation()), maxIterations)
    ensures r.Ok? ==> r.value.rule == TRANSITIVE && r.value.added == |store.Relation()| - |old(store.Relation())|
    ensures r.Ok? ==>
      1 <= r.value.iterations <= maxIterations && store.Relation() == Passes(old(store.Relation()), r.value.iterations)
    ensures r.Ok? && r.value.iterations < maxIterations ==> IsTransitiveClosure(old(store.Relation()), store.Relation())
    ensures AppendedOnce(old(store.rows), store.rows)
  {
    if maxIterations <= 0 {
      NothingAppended(store.rows);
      return Err("CDB-9510");
    }
    var over, quiet, totalNew, iteration, k := RunPasses(store, maxIterations, budget);
    if over {
      StoppedByBudget(old(store.Relation()), store.Relation(), maxIterations, budget, k);
      return Err("TF-6012");
    }
    Settled(old(store.Relation()), store.Relation(), maxIterations, quiet, k, iteration);
    r := Ok(Report(TRANSITIVE, totalNew, iteration, 0));
  }

  lemma StrictInside<T>(a: set<T>, b: set<T>, c: set<T>, d: set<T>)
    requires a <= b <= d && c <= d && a <= c && b <= c && b != c
    ensures a != d
  {
    var x :| x in c && x !in b;
    assert x in d && x !in a;
  }

  lemma StoppedByBudget(before: set<Pair>, relation: set<Pair>, maxIterations: nat, budget: Option<int>, k: nat)
    requires relation == Passes(before, k) && k < maxIterations && Pass(relation) != relation
    requires OverBudget(budget, |Pass(relation)| - |before|)
    ensures Exhausts(before, maxIterations, budget)
  {
    LaterTotals(before, k, k + 1);
    LaterTotals(before, k + 1, maxIterations);
    StrictInside(before, relation, Passes(before, k + 1), Passes(before, maxIterations));
  }

  lemma Settled(before: set<Pair>, relation: set<Pair>, maxIterations: nat, quiet: bool, k: nat, iteration: nat)
    requires relation == Passes(before, k)
    requires quiet ==> iteration == k + 1 <= maxIterations && Pass(relation) == relation
    requires !quiet ==> iteration == k == maxIterations
    ensures relation == Passes(before, maxIterations) == Passes(before, iteration)
    ensures iteration < maxIterations ==> IsTransitiveClosure(before, relation)
  {
    if quiet {
      QuietPassMeansClosure(before, k);
      QuietPassesStay(before, k, maxIterations);
      QuietPassesStay(before, k, k + 1);
    }
  }

  /** The passes would add something, and at least as much as the budget. */
  ghost predicate Exhausts(before: set<Pair>, maxIterations: nat, budget: Option<int>) {
    var limit := Passes(before, maxIterations);
    limit != before && OverBudget(budget, |limit| - |before|)
  }

  /** Once a pass has grown the relation, later passes only grow it further. */
  lemma LaterTotals(before: set<Pair>, k: nat, m: nat)
    requires k <= m
    ensures before <= Passes(before, k) <= Passes(before, m)
    ensures |before| <= |Passes(before, k)| <= |Passes(before, m)|
  {
    PassesGrow(before, 0, k);
    PassesGrow(before, k, m);
    SubsetCard(before, Passes(before, k));
    SubsetCard(Passes(before, k), Passes(before, m));
  }

  // ---------------------------------------------------------------- INFER CLOSURE

  ghost function ApplyRule(passes: nat, rule: Rule, before: set<Pair>): set<Pair> {
    match rule
    case SYMMETRIC => before + Converse(before)
    case TRANSITIVE => Passes(before, passes)
  }

  /** What a list of rules makes of a relation. */
  ghost function Apply(passes: nat, rules: seq<Rule>, relation: set<Pair>): set<Pair> {
    if rules == [] then relation else ApplyRule(passes, rules[|rules| - 1],
        Apply(passes, rules[..|rules| - 1], relation))
  }

  /** A rule and the position of the store it is for. */
  datatype Target = Target(rule: Rule, store: nat)

  /** The rules a plan has for one store, in order. */
  ghost function RulesFor(plan: seq<Target>, k: nat): seq<Rule> {
    if plan == [] then []
    else
      var n := |plan| - 1;
      RulesFor(plan[..n], k) + if plan[n].store == k then [plan[n].rule] else []
  }

  /** The rule runs out of budget on this relation, or has no passes to run. */
  ghost predicate Fails(passes: nat, rule: Rule, before: set<Pair>, budget: Option<int>) {
    rule == TRANSITIVE && (passes == 0 || Exhausts(before, passes, budget))
  }

  /** Target `i` runs out of budget on what the earlier rules for its store have made of it. */
  ghost predicate FailsAt(passes: nat, plan: seq<Target>, i: nat, relations: seq<set<Pair>>, budget: Option<int>) {
    i < |plan| && plan[i].store < |relations| && Fails(passes, plan[i].rule,
        Apply(passes, RulesFor(plan[..i], plan[i].store), relations[plan[i].store]), budget)
  }

  ghost function Relations(stores: seq<EdgeStore>): (r: seq<set<Pair>>)
    reads Elements(stores)
    ensures |r| == |stores| && forall k :: 0 <= k < |r| ==> r[k] == stores[k].Relation()
  {
    seq(|stores|, k requires 0 <= k < |stores| reads Elements(stores) => stores[k].Relation())
  }

  method InferOne(passes: nat, rule: Rule, store: EdgeStore, budget: Option<int>) returns (r: Result<Report>)
    modifies store
    ensures r.Err? <==> Fails(passes, rule, old(store.Relation()), budget)
    ensures r.Ok? ==> store.Relation() == ApplyRule(passes, rule, old(store.Relation()))
  {
    match rule
    case SYMMETRIC =>
      var report := InferSymmetric(store);
      r := Ok(report);
    case TRANSITIVE =>
      r := InferTransitive(store, passes, budget);
  }

  /** After the first `i` targets every store is what its own rules make of it. */
  ghost predicate RulesApplied(passes: nat, plan: seq<Target>, i: nat, before: seq<set<Pair>>, now: seq<set<Pair>>) {
    i <= |plan| && |before| == |now| && forall k :: 0 <= k < |now| ==>
        now[k] == Apply(passes, RulesFor(plan[..i], k), before[k])
  }

  lemma ApplySnoc(passes: nat, rules: seq<Rule>, rule: Rule, relation: set<Pair>)
    ensures Apply(passes, rules + [rule], relation) == ApplyRule(passes, rule, Apply(passes, rules, relation))
  {
    assert (rules + [rule])[..|rules|] == rules;
  }

  lemma RulesForSnoc(plan: seq<Target>, i: nat, k: nat)
    requires i < |plan|
    ensures RulesFor(plan[..i + 1], k) == if plan[i].store == k then RulesFor(plan[..i], k) + [plan[i].rule]
      else RulesFor(plan[..i], k)
  {
    assert plan[..i + 1][..i] == plan[..i];
  }

  lemma NextApplied(passes: nat, plan: seq<Target>, i: nat, before: seq<set<Pair>>, now: seq<set<Pair>>,
                    next: seq<set<Pair>>)
    requires i < |plan| && RulesApplied(passes, plan, i, before, now) && plan[i].store < |now|
    requires next == now[plan[i].store := ApplyRule(passes, plan[i].rule, now[plan[i].store])]
    ensures RulesApplied(passes, plan, i + 1, before, next)
  {
    forall k | 0 <= k < |next|
      ensures next[k] == Apply(passes, RulesFor(plan[..i + 1], k), before[k])
    {
      RulesForSnoc(plan, i, k);
      ApplySnoc(passes, RulesFor(plan[..i], k), plan[i].rule, before[k]);
    }
  }

  method InferAt(passes: nat, stores: seq<EdgeStore>, target: Target, budget: Option<int>) returns (r: Result<Report>)
    requires Distinct(stores) && target.store < |stores|
    modifies Elements(stores)
    ensures r.Err? <==> Fails(passes, target.rule, old(Relations(stores))[target.store], budget)
    ensures r.Ok? ==>
      var was := old(Relations(stores));
      Relations(stores) == was[target.store := ApplyRule(passes, target.rule, was[target.store])]
  {
    r := InferOne(passes, target.rule, stores[target.store], budget);
  }

  /** Each store ends as its own rules make it, unless some target fails. */
  method InferPlan(passes: nat, stores: seq<EdgeStore>, plan: seq<Target>, budget: Option<int>)
    returns (r: Result<seq<Report>>)
    requires Distinct(stores) && forall i :: 0 <= i < |plan| ==> plan[i].store < |stores|
    modifies Elements(stores)
    ensures r.Err? <==> exists i :: FailsAt(passes, plan, i, old(Relations(stores)), budget)
    ensures r.Ok? ==> |r.value| == |plan|
    ensures r.Ok? ==> forall k :: 0 <= k < |stores| ==>
      stores[k].Relation() == Apply(passes, RulesFor(plan, k), old(stores[k].Relation()))
  {
    var reports: seq<Report> := [];
    ghost var before := Relations(stores);
    for i := 0 to |plan|
      invariant |reports| == i && RulesApplied(passes, plan, i, before, Relations(stores))
      invariant NoneFailed(passes, plan, i, before, budget)
    {
      var report := InferNext(passes, stores, plan, i, before, budget);
      if report.Err? {
        return Err(report.code);
      }
      reports := reports + [report.value];
    }
    NoneFailedMeans(passes, plan, |plan|, before, budget);
    AllApplied(passes, plan, before, Relations(stores));
    r := Ok(reports);
  }

  ghost predicate NoneFailed(passes: nat, plan: seq<Target>, i: nat, before: seq<set<Pair>>, budget: Option<int>) {
    i == 0 || (NoneFailed(passes, plan, i - 1, before, budget) && !FailsAt(passes, plan, i - 1, before, budget))
  }

  lemma {:induction false} NoneFailedMeans(passes: nat, plan: seq<Target>, i: nat, before: seq<set<Pair>>,
                                           budget: Option<int>)
    requires NoneFailed(passes, plan, i, before, budget)
    ensures forall j: nat :: j < i ==> !FailsAt(passes, plan, j, before, budget)
  {
    if i > 0 {
      NoneFailedMeans(passes, plan, i - 1, before, budget);
    }
  }

  lemma AllApplied(passes: nat, plan: seq<Target>, before: seq<set<Pair>>, now: seq<set<Pair>>)
    requires RulesApplied(passes, plan, |plan|, before, now)
    ensures forall k :: 0 <= k < |now| ==> now[k] == Apply(passes, RulesFor(plan, k), before[k])
  {
    assert plan[..|plan|] == plan;
  }

  /** Target `i`, after the ones before it. */
  method InferNext(passes: nat, stores: seq<EdgeStore>, plan: seq<Target>, i: nat, ghost before: seq<set<Pair>>,
                   budget: Option<int>)
    returns (r: Result<Report>)
    requires Distinct(stores) && i < |plan| && plan[i].store < |stores|
    requires RulesApplied(passes, plan, i, before, Relations(stores))
    modifies Elements(stores)
    ensures r.Err? <==> FailsAt(passes, plan, i, before, budget)
    ensures r.Ok? ==> RulesApplied(passes, plan, i + 1, before, Relations(stores))
  {
    ghost var now := Relations(stores);
    r := InferAt(passes, stores, plan[i], budget);
    if r.Ok? {
      NextApplied(passes, plan, i, before, now, Relations(stores));
    }
  }

  const DEFAULT_PASSES := 16

  /** Target `i` is the only one for its store, and asks for this rule. */
  ghost predicate OnlyTarget(plan: seq<Target>, i: nat, k: nat, rule: Rule) {
    i < |plan| && plan[i] == Target(rule, k) && forall j :: 0 <= j < |plan| && j != i ==> plan[j].store != k
  }

  lemma {:induction false} NoRules(plan: seq<Target>, k: nat)
    requires forall j :: 0 <= j < |plan| ==> plan[j].store != k
    ensures RulesFor(plan, k) == []
  {
    if plan != [] {
      NoRules(plan[..|plan| - 1], k);
    }
  }

  lemma {:induction false} OnlyRule(plan: seq<Target>, i: nat, k: nat, rule: Rule)
    requires OnlyTarget(plan, i, k, rule)
    ensures RulesFor(plan, k) == [rule]
  {
    var n := |plan| - 1;
    if i == n {
      NoRules(plan[..n], k);
    } else {
      OnlyRule(plan[..n], i, k, rule);
    }
  }

  lemma OneRule(passes: nat, rule: Rule, before: set<Pair>)
    ensures Apply(passes, [rule], before) == ApplyRule(passes, rule, before)
  {
    assert [rule][..0] == [];
    assert Apply(passes, [], before) == before;
  }

  lemma DoubledSixteenTimes(passes: nat)
    requires passes == DEFAULT_PASSES
    ensures Pow2(passes) == 65536
  {
    assert Pow2(passes) == 2 * Pow2(15) == 4 * Pow2(14) == 8 * Pow2(13) == 16 * Pow2(12);
    assert Pow2(12) == 2 * Pow2(11) == 4 * Pow2(10) == 8 * Pow2(9) == 16 * Pow2(8);
    assert Pow2(8) == 2 * Pow2(7) == 4 * Pow2(6) == 8 * Pow2(5) == 16 * Pow2(4);
    assert Pow2(4) == 16;
  }

  /** What one TRANSITIVE rule leaves: the pairs joined by a walk of at most 65536 edges. */
  ghost predicate ClosedUpToCap(before: set<Pair>, after: set<Pair>) {
    && (forall p: Pair :: p in after <==> JoinedUpToCap(before, p.0, p.1))
    && ((forall a: nat, b: nat :: Reaches(before, a, b) ==> JoinedUpToCap(before, a, b)) ==>
          forall p: Pair :: p in after <==> Reaches(before, p.0, p.1))
  }

  ghost predicate JoinedUpToCap(edges: set<Pair>, a: nat, b: nat) {
    exists n: nat :: 1 <= n <= 65536 && Hops(edges, a, b, n)
  }

  lemma TransitiveCloses(before: set<Pair>, passes: nat)
    requires Pow2(passes) == 65536
    ensures ClosedUpToCap(before, ApplyRule(passes, TRANSITIVE, before))
  {
    PassesCover(before, passes);
    var after := Passes(before, passes);
    forall p: Pair
      ensures p in after <==> JoinedUpToCap(before, p.0, p.1)
    {
      assert p in after <==> ReachesWithin(before, p.0, p.1, 65536);
    }
  }

  ghost predicate SymmetricallyClosed(before: set<Pair>, after: set<Pair>) {
    forall a: nat, b: nat :: (a, b) in after <==> (a, b) in before || (b, a) in before
  }

  lemma SymmetricCloses(before: set<Pair>, passes: nat)
    ensures SymmetricallyClosed(before, ApplyRule(passes, SYMMETRIC, before))
  {
    forall a: nat, b: nat
      ensures (a, b) in Converse(before) <==> (b, a) in before
    {
      assert (b, a) in before ==> ((b, a).1, (b, a).0) in Converse(before);
    }
  }

  /** A store with a single target ends as that target's rule promises. */
  lemma SingleTargetCloses(plan: seq<Target>, i: nat, k: nat, rule: Rule, before: set<Pair>, passes: nat)
    requires OnlyTarget(plan, i, k, rule) && passes == DEFAULT_PASSES
    ensures var after := Apply(passes, RulesFor(plan, k), before);
      if rule == TRANSITIVE then ClosedUpToCap(before, after) else SymmetricallyClosed(before, after)
  {
    OnlyRule(plan, i, k, rule);
    OneRule(passes, rule, before);
    DoubledSixteenTimes(passes);
    TransitiveCloses(before, passes);
    SymmetricCloses(before, passes);
  }

  lemma SingleTargets(plan: seq<Target>, passes: nat, before: seq<set<Pair>>, after: seq<set<Pair>>)
    requires passes == DEFAULT_PASSES && |before| == |after|
    requires forall k :: 0 <= k < |after| ==> after[k] == Apply(passes, RulesFor(plan, k), before[k])
    ensures forall i, k: nat :: k < |after| && OnlyTarget(plan, i, k, TRANSITIVE) ==> ClosedUpToCap(before[k], after[k])
    ensures forall i, k: nat :: k < |after| && OnlyTarget(plan, i, k, SYMMETRIC) ==>
      SymmetricallyClosed(before[k], after[k])
  {
    forall i: nat, k: nat | k < |after| && OnlyTarget(plan, i, k, TRANSITIVE)
      ensures ClosedUpToCap(before[k], after[k])
    {
      SingleTargetCloses(plan, i, k, TRANSITIVE, before[k], passes);
    }
    forall i: nat, k: nat | k < |after| && OnlyTarget(plan, i, k, SYMMETRIC)
      ensures SymmetricallyClosed(before[k], after[k])
    {
      SingleTargetCloses(plan, i, k, SYMMETRIC, before[k], passes);
    }
  }

  /** `infer_closure`, which leaves the cap on the passes at its default. */
  method InferAll(stores: seq<EdgeStore>, plan: seq<Target>, budget: Option<int>) returns (r: Result<seq<Report>>)
    requires Distinct(stores) && forall i :: 0 <= i < |plan| ==> plan[i].store < |stores|
    modifies Elements(stores)
    ensures r.Err? <==> exists i :: FailsAt(DEFAULT_PASSES, plan, i, old(Relations(stores)), budget)
    ensures r.Ok? ==> |r.value| == |plan|
    ensures r.Ok? ==> forall k :: 0 <= k < |stores| ==>
      stores[k].Relation() == Apply(DEFAULT_PASSES, RulesFor(plan, k), old(stores[k].Relation()))
    ensures r.Ok? ==> forall i, k: nat :: k < |stores| && OnlyTarget(plan, i, k, TRANSITIVE) ==>
      ClosedUpToCap(old(Relations(stores))[k], Relations(stores)[k])
    ensures r.Ok? ==> forall i, k: nat :: k < |stores| && OnlyTarget(plan, i, k, SYMMETRIC) ==>
      SymmetricallyClosed(old(Relations(stores))[k], Relations(stores)[k])
  {
    ghost var before := Relations(stores);
    var passes := DEFAULT_PASSES;
    r := InferPlan(passes, stores, plan, budget);
    if r.Ok? {
      SingleTargets(plan, passes, before, Relations(stores));
    }
  }

  lemma RuleLeavesSymmetric(passes: nat, rule: Rule, before: set<Pair>)
    requires rule == SYMMETRIC || Symmetric(before)
    ensures Symmetric(ApplyRule(passes, rule, before))
  {
    match rule
    case SYMMETRIC => ConverseMakesSymmetric(before);
    case TRANSITIVE => PassesKeepSymmetry(before, passes);
  }

  /** From the first SYMMETRIC on, the relation is symmetric whatever rules follow. */
  lemma {:induction false} SymmetricFirstStaysSymmetric(passes: nat, rules: seq<Rule>, relation: set<Pair>, i: nat)
    requires i < |rules| && rules[i] == SYMMETRIC
    ensures Symmetric(Apply(passes, rules, relation))
    decreases |rules|
  {
    var n := |rules| - 1;
    var before := Apply(passes, rules[..n], relation);
    if rules[n] == TRANSITIVE {
      SymmetricFirstStaysSymmetric(passes, rules[..n], relation, i);
    }
    RuleLeavesSymmetric(passes, rules[n], before);
  }
}
