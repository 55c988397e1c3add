/** Compiled pattern queries against nested-loop matching: the main results. */
module PatternTheorems {
  import opened Results
  import opened Walks
  import opened Seqs
  import opened Bags
  import opened Names
  import opened Operators
  import opened CsrBuilder
  import opened Pattern
  import opened PatternPlan
  import opened PatternPipeline
  import opened PatternExact
  import opened PatternRows
  import opened PatternMatches

  /**
    The rows of the compiled pipeline are the matches: one stored row per node,
    linked by the hops and shown under the qualified names. It yields every row
    of nested-loop matching, with multiplicity, and yields exactly those rows if and only if no match leaves a
    node row that shares its id with another row of its class.
    */
  method MatchPattern(db: Database, plan: Plan) returns (r: Result<Table>)
    requires Runnable(db, plan)
    ensures r.Ok? <==> EdgesInVertexSpace(db, plan)
    ensures r.Ok? ==> HoldsJustMatches(db, plan, Rows(r.value))
    ensures r.Ok? ==> Matching(db, plan) <= Rows(r.value)
    ensures r.Ok? ==> (Rows(r.value) == Matching(db, plan) <==> LeavesSoleRows(db, plan))
    ensures r.Ok? && UniqueBeforeLast(db, plan.idColumn, plan.cls, plan.hops) ==> Rows(r.value) == Matching(db, plan)
  {
    r := RunPattern(db, plan);
    if r.Ok? {
      RowsHoldMatches(db, plan, Rows(r.value));
      HoldsMatches(db, plan, Rows(r.value));
      ExactIff(db, plan, Rows(r.value));
      UniqueIdsSuffice(db, plan);
    }
  }

  lemma RowsHoldMatches(db: Database, plan: Plan, rows: multiset<Binding>)
    requires Runnable(db, plan) && rows == SeededMatching(db, plan)
    ensures HoldsJustMatches(db, plan, rows)
  {
    RowsAreMatches(db, plan);
  }

  lemma HoldsMatches(db: Database, plan: Plan, rows: multiset<Binding>)
    requires ValidStore(db, plan.cls, plan.idColumn) && ValidHops(db, plan.hops, plan.idColumn)
      && rows == SeededMatching(db, plan)
    ensures Matching(db, plan) <= rows
  {
    ExactIffSoleRows(db, plan);
  }

  lemma ExactIff(db: Database, plan: Plan, rows: multiset<Binding>)
    requires ValidStore(db, plan.cls, plan.idColumn) && ValidHops(db, plan.hops, plan.idColumn)
      && rows == SeededMatching(db, plan)
    ensures rows == Matching(db, plan) <==> LeavesSoleRows(db, plan)
  {
    ExactIffSoleRows(db, plan);
  }

  lemma UniqueIdsSuffice(db: Database, plan: Plan)
    ensures UniqueBeforeLast(db, plan.idColumn, plan.cls, plan.hops) ==> LeavesSoleRows(db, plan)
  {
    if UniqueBeforeLast(db, plan.idColumn, plan.cls, plan.hops) {
      UniqueLeavesSoleRows(db, plan);
    }
  }

  // ---------------------------------------------------------------- aliases

  function AliasesOf(hops: seq<Hop>): (r: seq<string>)
    ensures |r| == |hops| && forall i :: 0 <= i < |r| ==> r[i] == hops[i].alias
  {
    seq(|hops|, i requires 0 <= i < |hops| => hops[i].alias)
  }

  ghost predicate FromAliases(taken: set<string>, used: set<string>) {
    forall x :: x in taken ==> exists a, c :: a in used && x == Qualified(a, c)
  }

  /** Distinct identifier aliases never collide after qualification. */
  lemma {:induction false} DistinctAliasesAreFresh(db: Database, plan: Plan, taken: set<string>, used: set<string>,
                                                   hops: seq<Hop>)
    requires ValidHops(db, hops, plan.idColumn) && FromAliases(taken, used)
    requires forall a :: a in used ==> '.' !in a
    requires Distinct(AliasesOf(hops)) && forall i :: 0 <= i < |hops| ==>
      hops[i].alias !in used && '.' !in hops[i].alias
    ensures FreshColumns(db, plan, taken, hops)
    decreases |hops|
  {
    if hops != [] {
      var hop := hops[0];
      var columns := ScanColumns(db, plan, hop.alias, hop.cls);
      var names := QualifiedAll(hop.alias, columns);
      QualifiedAllDistinct(hop.alias, columns);
      forall x | x in names
        ensures x !in taken && exists a, c :: a in used + {hop.alias} && x == Qualified(a, c)
      {
        var i :| 0 <= i < |names| && names[i] == x;
        assert x == Qualified(hop.alias, columns[i]);
        if x in taken {
          var a, c :| a in used && x == Qualified(a, c);
          QualifiedInjective(a, hop.alias, c, columns[i]);
        }
      }
      assert AliasesOf(hops[1..]) == AliasesOf(hops)[1..];
      assert forall i :: 0 <= i < |hops[1..]| ==>
            hops[1..][i].alias == AliasesOf(hops)[i + 1] && AliasesOf(hops)[0] == hop.alias;
      DistinctAliasesAreFresh(db, plan, taken + Elements(names), used + {hop.alias}, hops[1..]);
    }
  }

  ghost predicate DotFree(plan: Plan) {
    '.' !in plan.alias && forall i :: 0 <= i < |plan.hops| ==> '.' !in plan.hops[i].alias
  }

  /** So over valid stores every plan with distinct dot-free aliases, the first one included, can be run. */
  lemma DistinctAliasesRun(db: Database, plan: Plan)
    requires ValidStore(db, plan.cls, plan.idColumn) && ValidHops(db, plan.hops, plan.idColumn)
    requires Distinct([plan.alias] + AliasesOf(plan.hops)) && DotFree(plan)
    ensures Runnable(db, plan)
  {
    var columns := ScanColumns(db, plan, plan.alias, plan.cls);
    var names := QualifiedAll(plan.alias, columns);
    QualifiedAllDistinct(plan.alias, columns);
    forall x | x in Elements(names)
      ensures exists a, c :: a in {plan.alias} && x == Qualified(a, c)
    {
      var i :| 0 <= i < |names| && names[i] == x;
      assert x == Qualified(plan.alias, columns[i]);
    }
    HeadIsDistinct(plan.alias, AliasesOf(plan.hops));
    forall i | 0 <= i < |plan.hops|
      ensures plan.hops[i].alias !in {plan.alias}
    {
      assert plan.hops[i].alias == AliasesOf(plan.hops)[i];
    }
    DistinctAliasesAreFresh(db, plan, Elements(names), {plan.alias}, plan.hops);
  }

  lemma HeadIsDistinct<T>(x: T, s: seq<T>)
    requires Distinct([x] + s)
    ensures Distinct(s) && x !in s
  {
    forall i | 0 <= i < |s|
      ensures s[i] != x
    {
      assert ([x] + s)[i + 1] == s[i] && ([x] + s)[0] == x;
    }
    forall i, j | 0 <= i < j < |s|
      ensures s[i] != s[j]
    {
      assert ([x] + s)[i + 1] == s[i] && ([x] + s)[j + 1] == s[j];
    }
  }
}
