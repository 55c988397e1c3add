/** Every row of a pattern query is a match, and every match is a row of it (api.py). */
module PatternMatches {
  import opened Results
  import opened Walks
  import opened Seqs
  import opened Bags
  import opened Names
  import opened Operators
  import opened CsrBuilder
  import opened Pattern
  import opened PatternPlan
  import opened PatternPipeline
  import opened PatternExact
  import opened PatternRows

  // ---------------------------------------------------------------- the same rows, however often

  ghost predicate Alike<B(!new)>(a: multiset<B>, b: multiset<B>) {
    forall x :: x in a <==> x in b
  }

  lemma EachAlike<A, B(!new)>(xs: seq<A>, f: A -> multiset<B>, g: A -> multiset<B>)
    requires forall i :: 0 <= i < |xs| ==> Alike(f(xs[i]), g(xs[i]))
    ensures Alike(Each(xs, f), Each(xs, g))
  {
    forall x
      ensures x in Each(xs, f) <==> x in Each(xs, g)
    {
      InEach(xs, f, x);
      InEach(xs, g, x);
    }
  }

  /** Taking a hop once per row that shares the current id adds no new match and loses none. */
  lemma SeededAlike<B(!new)>(seeds: seq<nat>, i: nat, bag: multiset<B>)
    requires i < |seeds|
    ensures Alike(Seeded(seeds, Num(seeds[i]), bag), bag)
  {
    CountPositive(seeds, i);
    forall x
      ensures x in Seeded(seeds, Num(seeds[i]), bag) <==> x in bag
    {
      SeededMultiplicity(seeds, seeds[i], bag, x);
      AtLeast(Count(seeds, seeds[i]), bag[x]);
    }
  }

  lemma {:induction false} RowAlike(db: Database, plan: Plan, b: Binding, alias: string, cls: string, i: nat,
                                    hops: seq<Hop>)
    requires ValidStore(db, cls, plan.idColumn) && ValidHops(db, hops, plan.idColumn) && i < |db.classes[cls].rows|
    requires CurrentId(b, alias, plan.idColumn) == Num(RowIds(db, cls, plan.idColumn)[i])
    ensures Alike(SeededExtend(db, plan, b, alias, cls, hops), Extend(db, plan, b, alias, hops))
    decreases |hops|, 2
  {
    if hops != [] {
      HopAlike(db, plan, b, alias, cls, i, hops);
      var more := Remaining(db, plan, hops[0].alias, hops[0].cls, hops[1..]);
      SeededAlike(RowIds(db, cls, plan.idColumn), i, Step(db, plan, b, alias, hops[0], more));
    }
  }

  lemma {:induction false} HopAlike(db: Database, plan: Plan, b: Binding, alias: string, cls: string, i: nat,
                                    hops: seq<Hop>)
    requires hops != [] && ValidStore(db, cls, plan.idColumn) && ValidHops(db, hops, plan.idColumn)
      && i < |db.classes[cls].rows|
    requires CurrentId(b, alias, plan.idColumn) == Num(RowIds(db, cls, plan.idColumn)[i])
    ensures Alike(Step(db, plan, b, alias, hops[0], Remaining(db, plan, hops[0].alias, hops[0].cls, hops[1..])),
                  Extend(db, plan, b, alias, hops))
    decreases |hops|, 1
  {
    var hop := hops[0];
    var more := Remaining(db, plan, hop.alias, hop.cls, hops[1..]);
    var far := Adjacent(db, hop.relations, hop.direction, RowIds(db, cls, plan.idColumn)[i]);
    var f, g := (v: nat) => StepTo(db, plan, b, hop, more, v), (v: nat) => ExtendTo(db, plan, b, hops, v);
    forall n | 0 <= n < |far|
      ensures Alike(f(far[n]), g(far[n]))
    {
      EndAlike(db, plan, b, hops, far[n]);
    }
    EachAlike(far, f, g);
  }

  lemma {:induction false} EndAlike(db: Database, plan: Plan, b: Binding, hops: seq<Hop>, v: nat)
    requires hops != [] && ValidHops(db, hops, plan.idColumn)
    ensures Alike(StepTo(db, plan, b, hops[0], Remaining(db, plan, hops[0].alias, hops[0].cls, hops[1..]), v),
                  ExtendTo(db, plan, b, hops, v))
    decreases |hops|, 0
  {
    var hop, rest, id := hops[0], hops[1..], plan.idColumn;
    var more, rows := Remaining(db, plan, hop.alias, hop.cls, rest), db.classes[hop.cls].rows;
    var f := (r: map<string, Value>) =>
      if CurrentIdOf(r, id) == Num(v) then more(b + Bind(db, plan, hop.alias, hop.cls, r)) else multiset{};
    var g := (r: map<string, Value>) =>
      if CurrentIdOf(r, id) == Num(v)
      then Extend(db, plan, b + Bind(db, plan, hop.alias, hop.cls, r), hop.alias, rest) else multiset{};
    forall j | 0 <= j < |rows|
      ensures Alike(f(rows[j]), g(rows[j]))
    {
      BindId(db, plan, b, hop.alias, hop.cls, j);
      RowAlike(db, plan, b + Bind(db, plan, hop.alias, hop.cls, rows[j]), hop.alias, hop.cls, j, rest);
    }
    EachAlike(rows, f, g);
  }

  // ---------------------------------------------------------------- the whole pattern

  /** The binding of a first row carries that row's id. */
  lemma FirstId(db: Database, plan: Plan, alias: string, cls: string, i: nat)
    requires ValidStore(db, cls, plan.idColumn) && i < |db.classes[cls].rows|
    ensures CurrentId(BindRow(db, plan, alias, cls, i), alias, plan.idColumn) == Num(RowIds(db, cls, plan.idColumn)[i])
  {
    BindId(db, plan, map[], alias, cls, i);
    assert map[] + BindRow(db, plan, alias, cls, i) == BindRow(db, plan, alias, cls, i);
  }

  lemma HeadAlike(db: Database, plan: Plan, i: nat)
    requires ValidStore(db, plan.cls, plan.idColumn) && ValidHops(db, plan.hops, plan.idColumn)
      && i < |db.classes[plan.cls].rows|
    ensures var b := Bind(db, plan, plan.alias, plan.cls, db.classes[plan.cls].rows[i]);
            Alike(SeededExtend(db, plan, b, plan.alias, plan.cls, plan.hops),
                  Extend(db, plan, b, plan.alias, plan.hops))
  {
    FirstId(db, plan, plan.alias, plan.cls, i);
    RowAlike(db, plan, BindRow(db, plan, plan.alias, plan.cls, i), plan.alias, plan.cls, i, plan.hops);
  }

  lemma FirstAlike(db: Database, plan: Plan, i: nat, f: map<string, Value> -> multiset<Binding>,
                   g: map<string, Value> -> multiset<Binding>)
    requires ValidStore(db, plan.cls, plan.idColumn) && ValidHops(db, plan.hops, plan.idColumn)
      && i < |db.classes[plan.cls].rows|
    requires f == FromFirst(db, plan) && g == MatchesFrom(db, plan)
    ensures Alike(f(db.classes[plan.cls].rows[i]), g(db.classes[plan.cls].rows[i]))
  {
    FromFirstAt(db, plan, db.classes[plan.cls].rows[i]);
    MatchesFromAt(db, plan, db.classes[plan.cls].rows[i]);
    HeadAlike(db, plan, i);
  }

  lemma SeededIsAlike(db: Database, plan: Plan)
    requires ValidStore(db, plan.cls, plan.idColumn) && ValidHops(db, plan.hops, plan.idColumn)
    ensures Alike(SeededMatching(db, plan), Matching(db, plan))
  {
    var f, g := FromFirst(db, plan), MatchesFrom(db, plan);
    forall i | 0 <= i < |db.classes[plan.cls].rows|
      ensures Alike(f(db.classes[plan.cls].rows[i]), g(db.classes[plan.cls].rows[i]))
    {
      FirstAlike(db, plan, i, f, g);
    }
    EachAlike(db.classes[plan.cls].rows, f, g);
    TotalsAre(db, plan, f, g);
  }

  /** The bag holds just what chains from row `i` of the first class make. */
  ghost predicate HoldsMade(db: Database, plan: Plan, i: nat, bag: multiset<Binding>) {
    forall b :: b in bag <==> MadeFrom(db, plan, i, b)
  }

  lemma HeadIsMade(db: Database, plan: Plan, i: nat)
    requires ValidStore(db, plan.cls, plan.idColumn) && ValidHops(db, plan.hops, plan.idColumn)
      && i < |db.classes[plan.cls].rows|
    ensures var first := Bind(db, plan, plan.alias, plan.cls, db.classes[plan.cls].rows[i]);
            HoldsMade(db, plan, i, Extend(db, plan, first, plan.alias, plan.hops))
  {
    FirstId(db, plan, plan.alias, plan.cls, i);
    var first := BindRow(db, plan, plan.alias, plan.cls, i);
    forall b
      ensures b in Extend(db, plan, first, plan.alias, plan.hops) <==> MadeFrom(db, plan, i, b)
    {
      InExtend(db, plan, first, plan.alias, plan.cls, i, plan.hops, b);
    }
  }

  lemma FirstIsMade(db: Database, plan: Plan, i: nat, g: map<string, Value> -> multiset<Binding>)
    requires ValidStore(db, plan.cls, plan.idColumn) && ValidHops(db, plan.hops, plan.idColumn)
      && i < |db.classes[plan.cls].rows|
    requires g == MatchesFrom(db, plan)
    ensures HoldsMade(db, plan, i, g(db.classes[plan.cls].rows[i]))
  {
    MatchesFromAt(db, plan, db.classes[plan.cls].rows[i]);
    HeadIsMade(db, plan, i);
  }

  /** The bag holds just what chains from rows of the first class make. */
  ghost predicate HoldsAllMade(db: Database, plan: Plan, bag: multiset<Binding>) {
    forall b :: b in bag <==> exists i: nat :: MadeFrom(db, plan, i, b)
  }

  lemma EmittedAreMade(db: Database, plan: Plan, g: map<string, Value> -> multiset<Binding>)
    requires plan.cls in db.classes
    requires forall i: nat :: i < |db.classes[plan.cls].rows| ==>
      HoldsMade(db, plan, i, g(db.classes[plan.cls].rows[i]))
    ensures HoldsAllMade(db, plan, Each(db.classes[plan.cls].rows, g))
  {
    var rows := db.classes[plan.cls].rows;
    forall b
      ensures b in Each(rows, g) <==> exists i: nat :: MadeFrom(db, plan, i, b)
    {
      InEach(rows, g, b);
      if i: nat :| MadeFrom(db, plan, i, b) {
        assert HoldsMade(db, plan, i, g(rows[i]));
      }
    }
  }

  lemma MatchingIsMade(db: Database, plan: Plan)
    requires ValidStore(db, plan.cls, plan.idColumn) && ValidHops(db, plan.hops, plan.idColumn)
    ensures HoldsAllMade(db, plan, Matching(db, plan))
  {
    var f, g := FromFirst(db, plan), MatchesFrom(db, plan);
    forall i: nat | i < |db.classes[plan.cls].rows|
      ensures HoldsMade(db, plan, i, g(db.classes[plan.cls].rows[i]))
    {
      FirstIsMade(db, plan, i, g);
    }
    EmittedAreMade(db, plan, g);
    TotalsAre(db, plan, f, g);
  }

  /** A chain from row `i` of the first class makes `b`. */
  ghost predicate MadeFrom(db: Database, plan: Plan, i: nat, b: Binding) {
    && ValidStore(db, plan.cls, plan.idColumn) && i < |db.classes[plan.cls].rows|
    && Makes(db, plan, BindRow(db, plan, plan.alias, plan.cls, i), plan.cls, i, plan.hops, b)
  }

  lemma MadeIsMatch(db: Database, plan: Plan, rows: seq<nat>, b: Binding)
    requires Runnable(db, plan) && IsChain(db, plan.idColumn, plan.cls, plan.hops, rows)
    requires b == BindRow(db, plan, plan.alias, plan.cls, rows[0]) + BindRest(db, plan, plan.hops, rows[1..])
    ensures IsMatch(db, plan, rows, b)
  {
    var node, names := Node(plan.alias, plan.cls), Scan(db, plan, plan.alias, plan.cls).names;
    ChainIsLinked(db, plan.idColumn, plan.alias, plan.cls, plan.hops, rows);
    NamesAreTaken(db, plan, node, {});
    assert {} + Elements(names) == Elements(names);
    ChainShows(db, plan, plan.alias, plan.cls, plan.hops, rows, Elements(names));
  }

  lemma ChainIsMade(db: Database, plan: Plan, rows: seq<nat>, b: Binding)
    requires ValidStore(db, plan.cls, plan.idColumn) && IsChain(db, plan.idColumn, plan.cls, plan.hops, rows)
    requires b == BindRow(db, plan, plan.alias, plan.cls, rows[0]) + BindRest(db, plan, plan.hops, rows[1..])
    ensures MadeFrom(db, plan, rows[0], b)
  {
    var first := BindRow(db, plan, plan.alias, plan.cls, rows[0]);
    assert ChainMakes(db, plan, first, plan.cls, rows[0], plan.hops, rows, b);
  }

  /** A match is the binding of its own rows. */
  lemma MatchIsBound(db: Database, plan: Plan, rows: seq<nat>, b: Binding, made: Binding)
    requires IsMatch(db, plan, rows, b) && IsMatch(db, plan, rows, made)
    ensures b == made
  {
    ShowsUnique(db, plan, NodesFrom(plan.alias, plan.cls, plan.hops), rows, b, made);
  }

  lemma MatchIsChain(db: Database, plan: Plan, rows: seq<nat>, b: Binding)
    requires ValidStore(db, plan.cls, plan.idColumn) && ValidHops(db, plan.hops, plan.idColumn)
    requires IsMatch(db, plan, rows, b)
    ensures IsChain(db, plan.idColumn, plan.cls, plan.hops, rows)
  {
    ChainIsLinked(db, plan.idColumn, plan.alias, plan.cls, plan.hops, rows);
  }

  lemma MatchIsMadeAs(db: Database, plan: Plan, rows: seq<nat>, b: Binding, made: Binding)
    requires IsMatch(db, plan, rows, b) && IsMatch(db, plan, rows, made)
    requires MadeFrom(db, plan, rows[0], made)
    ensures MadeFrom(db, plan, rows[0], b)
  {
    MatchIsBound(db, plan, rows, b, made);
  }

  lemma MatchIsMade(db: Database, plan: Plan, rows: seq<nat>, b: Binding)
    requires Runnable(db, plan) && IsMatch(db, plan, rows, b)
    ensures MadeFrom(db, plan, rows[0], b)
  {
    MatchIsChain(db, plan, rows, b);
    var made := BindRow(db, plan, plan.alias, plan.cls, rows[0]) + BindRest(db, plan, plan.hops, rows[1..]);
    MadeIsMatch(db, plan, rows, made);
    ChainIsMade(db, plan, rows, made);
    MatchIsMadeAs(db, plan, rows, b, made);
  }

  lemma MadeIffMatch(db: Database, plan: Plan, b: Binding)
    requires Runnable(db, plan)
    ensures (exists i: nat :: MadeFrom(db, plan, i, b)) <==> exists rows :: IsMatch(db, plan, rows, b)
  {
    if i: nat :| MadeFrom(db, plan, i, b) {
      var rows :| ChainMakes(db, plan, BindRow(db, plan, plan.alias, plan.cls, i), plan.cls, i, plan.hops, rows, b);
      MadeIsMatch(db, plan, rows, b);
    }
    if rows :| IsMatch(db, plan, rows, b) {
      MatchIsMade(db, plan, rows, b);
    }
  }

  /** The bag holds just the matches. */
  ghost predicate HoldsJustMatches(db: Database, plan: Plan, bag: multiset<Binding>) {
    forall b :: b in bag <==> exists rows :: IsMatch(db, plan, rows, b)
  }

  lemma MadeAreMatches(db: Database, plan: Plan, exact: multiset<Binding>, bag: multiset<Binding>)
    requires Runnable(db, plan) && HoldsAllMade(db, plan, exact) && Alike(bag, exact)
    ensures HoldsJustMatches(db, plan, bag)
  {
    forall b
      ensures b in bag <==> exists rows :: IsMatch(db, plan, rows, b)
    {
      MadeIffMatch(db, plan, b);
    }
  }

  /** Nested-loop matching yields exactly the matches, and so does the compiled form, counting aside. */
  lemma RowsAreMatches(db: Database, plan: Plan)
    requires Runnable(db, plan)
    ensures HoldsJustMatches(db, plan, Matching(db, plan))
    ensures HoldsJustMatches(db, plan, SeededMatching(db, plan))
  {
    MatchingIsMade(db, plan);
    SeededIsAlike(db, plan);
    MadeAreMatches(db, plan, Matching(db, plan), Matching(db, plan));
    MadeAreMatches(db, plan, Matching(db, plan), SeededMatching(db, plan));
  }
}
