/** Exactly when the compiled pattern counts every match once (api.py). */
module PatternExact {
  import opened Results
  import opened Walks
  import opened Seqs
  import opened Bags
  import opened Names
  import opened Operators
  import opened CsrBuilder
  import opened Pattern
  import opened PatternPlan
  import opened PatternPipeline

  // ---------------------------------------------------------------- how often a hop is taken

  /** A hop is multiplied by the number of node rows that share the current id. */
  lemma {:induction false} SeededMultiplicity<B>(seeds: seq<nat>, k: nat, bag: multiset<B>, x: B)
    ensures Seeded(seeds, Num(k), bag)[x] == Count(seeds, k) * bag[x]
    decreases |seeds|
  {
    if seeds != [] {
      var n := |seeds| - 1;
      SeededMultiplicity(seeds[..n], k, bag, x);
      var before, here := Count(seeds[..n], k), if seeds[n] == k then 1 else 0;
      assert (before + here) * bag[x] == before * bag[x] + here * bag[x];
    }
  }

  lemma {:induction false} CountPositive(seeds: seq<nat>, i: nat)
    requires i < |seeds|
    ensures Count(seeds, seeds[i]) >= 1
  {
    if i < |seeds| - 1 {
      CountPositive(seeds[..|seeds| - 1], i);
    }
  }

  lemma {:induction false} CountNone(seeds: seq<nat>, k: nat)
    ensures Count(seeds, k) == 0 <==> k !in seeds
  {
    if seeds != [] {
      CountNone(seeds[..|seeds| - 1], k);
      assert seeds == seeds[..|seeds| - 1] + [seeds[|seeds| - 1]];
    }
  }

  /** No other position holds the same id. */
  ghost predicate AloneAt(seeds: seq<nat>, i: nat)
    requires i < |seeds|
  {
    forall j :: 0 <= j < |seeds| && j != i ==> seeds[j] != seeds[i]
  }

  lemma {:induction false} CountOneIffAlone(seeds: seq<nat>, i: nat)
    requires i < |seeds|
    ensures Count(seeds, seeds[i]) == 1 <==> AloneAt(seeds, i)
  {
    var n := |seeds| - 1;
    CountPositive(seeds, i);
    if i < n {
      CountOneIffAlone(seeds[..n], i);
      CountPositive(seeds[..n], i);
    } else {
      CountNone(seeds[..n], seeds[n]);
    }
  }

  /** Seeding `bag` against a smaller `exact`: equal only where they agree and nothing is counted twice. */
  lemma SeededExact<B>(seeds: seq<nat>, i: nat, bag: multiset<B>, exact: multiset<B>)
    requires i < |seeds| && exact <= bag
    ensures var seeded := Seeded(seeds, Num(seeds[i]), bag);
      && exact <= seeded
      && (seeded == exact <==> bag == exact && (exact == multiset{} || AloneAt(seeds, i)))
  {
    var k := seeds[i];
    var seeded, c := Seeded(seeds, Num(k), bag), Count(seeds, k);
    CountPositive(seeds, i);
    CountOneIffAlone(seeds, i);
    forall x
      ensures seeded[x] == c * bag[x] && exact[x] <= bag[x] <= seeded[x]
    {
      SeededMultiplicity(seeds, k, bag, x);
      AtLeast(c, bag[x]);
    }
    if seeded == exact {
      SeededOnlyOnce(bag, exact, seeded, c);
    }
    if bag == exact && (exact == multiset{} || c == 1) {
      SeededNoMore(bag, seeded, c);
    }
  }

  lemma SeededNoMore<B>(bag: multiset<B>, seeded: multiset<B>, c: nat)
    requires (bag == multiset{} || c == 1) && forall x :: seeded[x] == c * bag[x]
    ensures seeded == bag
  {
    forall x
      ensures seeded[x] == bag[x]
    {
      assert seeded[x] == c * bag[x];
    }
    assert seeded <= bag <= seeded;
  }

  lemma SeededOnlyOnce<B>(bag: multiset<B>, exact: multiset<B>, seeded: multiset<B>, c: nat)
    requires seeded == exact && c >= 1 && forall x :: seeded[x] == c * bag[x] && exact[x] <= bag[x] <= seeded[x]
    ensures bag == exact && (exact == multiset{} || c == 1)
  {
    forall x
      ensures bag[x] == exact[x]
    {
      assert exact[x] <= bag[x] <= seeded[x];
    }
    if exact != multiset{} && c >= 2 {
      var x :| x in exact;
      TwiceIsMore(c, bag[x]);
    }
  }

  lemma AtLeast(c: nat, n: nat)
    requires c >= 1
    ensures n <= c * n
  {
  }

  lemma TwiceIsMore(c: nat, n: nat)
    requires n >= 1 && c >= 2
    ensures c * n > n
  {
    assert c * n == 2 * n + (c - 2) * n;
    AtLeast(1, n);
  }

  // ---------------------------------------------------------------- chains of rows

  function RowIds(db: Database, cls: string, id: string): seq<nat>
    requires cls in db.classes
  {
    SeedIds(db.classes[cls].rows, id)
  }

  /** An edge of the hop leads from row `i` of a class to row `j` of the hop's class. */
  ghost predicate LeadsOn(db: Database, id: string, cls: string, i: nat, hop: Hop, j: nat) {
    && ValidHop(db, hop, id) && cls in db.classes && i < |RowIds(db, cls, id)| && j < |RowIds(db, hop.cls, id)|
    && RowIds(db, hop.cls, id)[j] in Adjacent(db, hop.relations, hop.direction, RowIds(db, cls, id)[i])
  }

  /** No other row of the class has the id of row `i`. */
  ghost predicate Sole(db: Database, id: string, cls: string, i: nat) {
    cls in db.classes && i < |RowIds(db, cls, id)| && AloneAt(RowIds(db, cls, id), i)
  }

  /** One row per node of the pattern, each joined to the next by an edge: a way to match the pattern. */
  ghost predicate IsChain(db: Database, id: string, cls: string, hops: seq<Hop>, rows: seq<nat>)
    decreases |hops|
  {
    && |rows| == |hops| + 1 && cls in db.classes && rows[0] < |RowIds(db, cls, id)|
    && (hops != [] ==>
          LeadsOn(db, id, cls, rows[0], hops[0], rows[1]) && IsChain(db, id, hops[0].cls, hops[1..], rows[1..]))
  }

  /** Every row of the chain but the last is the only one of its class with its id. */
  ghost predicate SoleAlong(db: Database, id: string, cls: string, hops: seq<Hop>, rows: seq<nat>)
    requires |rows| == |hops| + 1
    decreases |hops|
  {
    hops != [] ==> Sole(db, id, cls, rows[0]) && SoleAlong(db, id, hops[0].cls, hops[1..], rows[1..])
  }

  /** No match leaves a row, through a hop, that shares its id with another row of its class. */
  ghost predicate LeavesSoleRows(db: Database, plan: Plan) {
    forall rows :: IsChain(db, plan.idColumn, plan.cls, plan.hops, rows) ==>
        SoleAlong(db, plan.idColumn, plan.cls, plan.hops, rows)
  }

  /** Some chain starts at row `i`. */
  ghost predicate Continues(db: Database, id: string, cls: string, i: nat, hops: seq<Hop>)
    decreases |hops|
  {
    hops == [] || exists j: nat :: LeadsOn(db, id, cls, i, hops[0], j) && Continues(db, id, hops[0].cls, j, hops[1..])
  }

  /** Every chain from row `i` leaves sole rows only. */
  ghost predicate Unshared(db: Database, id: string, cls: string, i: nat, hops: seq<Hop>)
    decreases |hops|
  {
    hops != [] ==>
      && (Continues(db, id, cls, i, hops) ==> Sole(db, id, cls, i))
      && forall j: nat :: LeadsOn(db, id, cls, i, hops[0], j) ==> Unshared(db, id, hops[0].cls, j, hops[1..])
  }

  lemma {:induction false} ContinuesIsChain(db: Database, id: string, cls: string, i: nat, hops: seq<Hop>)
    returns (rows: seq<nat>)
    requires cls in db.classes && i < |RowIds(db, cls, id)| && Continues(db, id, cls, i, hops)
    ensures IsChain(db, id, cls, hops, rows) && rows[0] == i
    decreases |hops|
  {
    if hops == [] {
      rows := [i];
    } else {
      var j: nat :| LeadsOn(db, id, cls, i, hops[0], j) && Continues(db, id, hops[0].cls, j, hops[1..]);
      var rest := ContinuesIsChain(db, id, hops[0].cls, j, hops[1..]);
      rows := [i] + rest;
      assert rows[1..] == rest;
    }
  }

  lemma {:induction false} ChainContinues(db: Database, id: string, cls: string, hops: seq<Hop>, rows: seq<nat>)
    requires IsChain(db, id, cls, hops, rows)
    ensures Continues(db, id, cls, rows[0], hops)
    decreases |hops|
  {
    if hops != [] {
      ChainContinues(db, id, hops[0].cls, hops[1..], rows[1..]);
    }
  }

  lemma {:induction false} UnsharedChain(db: Database, id: string, cls: string, hops: seq<Hop>, rows: seq<nat>)
    requires IsChain(db, id, cls, hops, rows) && Unshared(db, id, cls, rows[0], hops)
    ensures SoleAlong(db, id, cls, hops, rows)
    decreases |hops|
  {
    if hops != [] {
      ChainContinues(db, id, cls, hops, rows);
      UnsharedChain(db, id, hops[0].cls, hops[1..], rows[1..]);
    }
  }

  ghost predicate SoleChainsFrom(db: Database, id: string, cls: string, i: nat, hops: seq<Hop>) {
    forall rows :: IsChain(db, id, cls, hops, rows) && rows[0] == i ==> SoleAlong(db, id, cls, hops, rows)
  }

  lemma {:induction false} SoleChainsAreUnshared(db: Database, id: string, cls: string, i: nat, hops: seq<Hop>)
    requires cls in db.classes && i < |RowIds(db, cls, id)| && SoleChainsFrom(db, id, cls, i, hops)
    ensures Unshared(db, id, cls, i, hops)
    decreases |hops|
  {
    if hops != [] {
      if Continues(db, id, cls, i, hops) {
        var rows := ContinuesIsChain(db, id, cls, i, hops);
        assert SoleAlong(db, id, cls, hops, rows);
      }
      forall j: nat | LeadsOn(db, id, cls, i, hops[0], j)
        ensures Unshared(db, id, hops[0].cls, j, hops[1..])
      {
        forall rest | IsChain(db, id, hops[0].cls, hops[1..], rest) && rest[0] == j
          ensures SoleAlong(db, id, hops[0].cls, hops[1..], rest)
        {
          var rows := [i] + rest;
          assert rows[1..] == rest;
          assert IsChain(db, id, cls, hops, rows);
        }
        SoleChainsAreUnshared(db, id, hops[0].cls, j, hops[1..]);
      }
    }
  }

  // ---------------------------------------------------------------- the two meanings compared

  lemma BindId(db: Database, plan: Plan, b: Binding, alias: string, cls: string, i: nat)
    requires ValidStore(db, cls, plan.idColumn) && i < |db.classes[cls].rows|
    ensures var row := db.classes[cls].rows[i];
            && CurrentIdOf(row, plan.idColumn) == Num(RowIds(db, cls, plan.idColumn)[i])
            && CurrentId(b + Bind(db, plan, alias, cls, row), alias, plan.idColumn) == CurrentIdOf(row, plan.idColumn)
  {
    var row, columns := db.classes[cls].rows[i], ScanColumns(db, plan, alias, cls);
    assert IsVertex(row, plan.idColumn, db.vertexCount);
    var names := QualifiedAll(alias, columns);
    QualifiedAllDistinct(alias, columns);
    ToMapAt(names, ScanRow(row, columns));
    var j :| 0 <= j < |columns| && columns[j] == plan.idColumn;
    assert names[j] == Qualified(alias, plan.idColumn);
  }

  lemma QualifiedAllDistinct(alias: string, columns: seq<string>)
    requires Distinct(columns)
    ensures Distinct(QualifiedAll(alias, columns))
  {
    forall i, j | 0 <= i < j < |columns|
      ensures Qualified(alias, columns[i]) != Qualified(alias, columns[j])
    {
      assert Qualified(alias, columns[i])[|alias| + 1..] == columns[i];
      assert Qualified(alias, columns[j])[|alias| + 1..] == columns[j];
    }
  }

  /** The compiled meaning emits at least the matches, exactly them where no chain from the row shares an id. */
  ghost predicate Compared(seeded: multiset<Binding>, exact: multiset<Binding>, unshared: bool, continues: bool) {
    && exact <= seeded
    && (seeded == exact <==> unshared)
    && (exact != multiset{} <==> continues)
  }

  lemma {:induction false} CompareRow(db: Database, plan: Plan, b: Binding, alias: string, cls: string, i: nat,
                                      hops: seq<Hop>)
    requires ValidStore(db, cls, plan.idColumn) && ValidHops(db, hops, plan.idColumn) && i < |db.classes[cls].rows|
    requires CurrentId(b, alias, plan.idColumn) == Num(RowIds(db, cls, plan.idColumn)[i])
    ensures Compared(SeededExtend(db, plan, b, alias, cls, hops), Extend(db, plan, b, alias, hops),
                     Unshared(db, plan.idColumn, cls, i, hops), Continues(db, plan.idColumn, cls, i, hops))
    decreases |hops|, 2
  {
    if hops != [] {
      CompareHop(db, plan, b, alias, cls, i, hops);
      var more := Remaining(db, plan, hops[0].alias, hops[0].cls, hops[1..]);
      SeededExact(RowIds(db, cls, plan.idColumn), i, Step(db, plan, b, alias, hops[0], more),
          Extend(db, plan, b, alias, hops));
    }
  }

  /** All rows that the hop leads to from row `i` are unshared. */
  ghost predicate UnsharedNext(db: Database, id: string, cls: string, i: nat, hops: seq<Hop>)
    requires hops != []
  {
    forall j: nat :: LeadsOn(db, id, cls, i, hops[0], j) ==> Unshared(db, id, hops[0].cls, j, hops[1..])
  }

  lemma {:induction false} CompareHop(db: Database, plan: Plan, b: Binding, alias: string, cls: string, i: nat,
                                      hops: seq<Hop>)
    requires hops != [] && ValidStore(db, cls, plan.idColumn) && ValidHops(db, hops, plan.idColumn)
      && i < |db.classes[cls].rows|
    requires CurrentId(b, alias, plan.idColumn) == Num(RowIds(db, cls, plan.idColumn)[i])
    ensures Compared(Step(db, plan, b, alias, hops[0], Remaining(db, plan, hops[0].alias, hops[0].cls, hops[1..])),
                     Extend(db, plan, b, alias, hops),
                     UnsharedNext(db, plan.idColumn, cls, i, hops), Continues(db, plan.idColumn, cls, i, hops))
    decreases |hops|, 1
  {
    var hop, id, k := hops[0], plan.idColumn, RowIds(db, cls, plan.idColumn)[i];
    var more := Remaining(db, plan, hop.alias, hop.cls, hops[1..]);
    var far := Adjacent(db, hop.relations, hop.direction, k);
    var f, g := (v: nat) => StepTo(db, plan, b, hop, more, v), (v: nat) => ExtendTo(db, plan, b, hops, v);
    forall n | 0 <= n < |far|
      ensures Compared(f(far[n]), g(far[n]), UnsharedAt(db, id, hops, far[n]), ContinuesAt(db, id, hops, far[n]))
    {
      CompareEnd(db, plan, b, hops, far[n]);
    }
    EachDominates(far, f, g);
    EachEmpty(far, g);
    FarEnds(db, id, cls, i, hops, far);
  }

  /** The rows of the hop's class with id `v` are unshared; some of them continues. */
  ghost predicate UnsharedAt(db: Database, id: string, hops: seq<Hop>, v: nat)
    requires hops != [] && hops[0].cls in db.classes
  {
    forall j: nat :: j < |RowIds(db, hops[0].cls, id)| && RowIds(db, hops[0].cls, id)[j] == v ==>
        Unshared(db, id, hops[0].cls, j, hops[1..])
  }

  ghost predicate ContinuesAt(db: Database, id: string, hops: seq<Hop>, v: nat)
    requires hops != [] && hops[0].cls in db.classes
  {
    exists j: nat :: j < |RowIds(db, hops[0].cls, id)| && RowIds(db, hops[0].cls, id)[j] == v
        && Continues(db, id, hops[0].cls, j, hops[1..])
  }

  /** Ranging over the far ends of the edges is ranging over the rows they lead to. */
  lemma FarEnds(db: Database, id: string, cls: string, i: nat, hops: seq<Hop>, far: seq<nat>)
    requires hops != [] && ValidHops(db, hops, id) && cls in db.classes && i < |RowIds(db, cls, id)|
    requires far == Adjacent(db, hops[0].relations, hops[0].direction, RowIds(db, cls, id)[i])
    ensures (forall n :: 0 <= n < |far| ==> UnsharedAt(db, id, hops, far[n])) <==> UnsharedNext(db, id, cls, i, hops)
    ensures (exists n :: 0 <= n < |far| && ContinuesAt(db, id, hops, far[n])) <==> Continues(db, id, cls, i, hops)
  {
    var ids := RowIds(db, hops[0].cls, id);
    assert ValidHop(db, hops[0], id);
    forall j: nat
      ensures LeadsOn(db, id, cls, i, hops[0], j) <==> j < |ids| && exists n :: 0 <= n < |far| && far[n] == ids[j]
    {
    }
    if forall n :: 0 <= n < |far| ==> UnsharedAt(db, id, hops, far[n]) {
      forall j: nat | LeadsOn(db, id, cls, i, hops[0], j)
        ensures Unshared(db, id, hops[0].cls, j, hops[1..])
      {
        var n :| 0 <= n < |far| && far[n] == ids[j];
        assert UnsharedAt(db, id, hops, far[n]);
      }
    }
    if Continues(db, id, cls, i, hops) {
      var j: nat :| LeadsOn(db, id, cls, i, hops[0], j) && Continues(db, id, hops[0].cls, j, hops[1..]);
      var n :| 0 <= n < |far| && far[n] == ids[j];
      assert ContinuesAt(db, id, hops, far[n]);
    }
  }

  lemma {:induction false} CompareEnd(db: Database, plan: Plan, b: Binding, hops: seq<Hop>, v: nat)
    requires hops != [] && ValidHops(db, hops, plan.idColumn)
    ensures Compared(StepTo(db, plan, b, hops[0], Remaining(db, plan, hops[0].alias, hops[0].cls, hops[1..]), v),
                     ExtendTo(db, plan, b, hops, v),
                     UnsharedAt(db, plan.idColumn, hops, v), ContinuesAt(db, plan.idColumn, hops, v))
    decreases |hops|, 0
  {
    var hop, rest, id := hops[0], hops[1..], plan.idColumn;
    var more, rows, ids := Remaining(db, plan, hop.alias, hop.cls, rest), db.classes[hop.cls].rows,
        RowIds(db, hop.cls, id);
    var f := (r: map<string, Value>) =>
      if CurrentIdOf(r, id) == Num(v) then more(b + Bind(db, plan, hop.alias, hop.cls, r)) else multiset{};
    var g := (r: map<string, Value>) =>
      if CurrentIdOf(r, id) == Num(v)
      then Extend(db, plan, b + Bind(db, plan, hop.alias, hop.cls, r), hop.alias, rest) else multiset{};
    forall j | 0 <= j < |rows|
      ensures Compared(f(rows[j]), g(rows[j]),
                       ids[j] == v ==> Unshared(db, id, hop.cls, j, rest),
                       ids[j] == v && Continues(db, id, hop.cls, j, rest))
    {
      BindId(db, plan, b, hop.alias, hop.cls, j);
      CompareRow(db, plan, b + Bind(db, plan, hop.alias, hop.cls, rows[j]), hop.alias, hop.cls, j, rest);
    }
    EachDominates(rows, f, g);
    EachEmpty(rows, g);
  }

  // ---------------------------------------------------------------- the whole pattern

  lemma CompareHead(db: Database, plan: Plan, i: nat)
    requires ValidStore(db, plan.cls, plan.idColumn) && ValidHops(db, plan.hops, plan.idColumn)
      && i < |db.classes[plan.cls].rows|
    ensures var b := Bind(db, plan, plan.alias, plan.cls, db.classes[plan.cls].rows[i]);
      Compared(SeededExtend(db, plan, b, plan.alias, plan.cls, plan.hops), Extend(db, plan, b, plan.alias, plan.hops),
               Unshared(db, plan.idColumn, plan.cls, i, plan.hops),
                   Continues(db, plan.idColumn, plan.cls, i, plan.hops))
  {
    var b := Bind(db, plan, plan.alias, plan.cls, db.classes[plan.cls].rows[i]);
    BindId(db, plan, map[], plan.alias, plan.cls, i);
    assert map[] + b == b;
    CompareRow(db, plan, b, plan.alias, plan.cls, i, plan.hops);
  }

  /** Every row of the first class is unshared. */
  ghost predicate UnsharedRows(db: Database, plan: Plan)
    requires plan.cls in db.classes
  {
    forall i: nat :: i < |RowIds(db, plan.cls, plan.idColumn)| ==> Unshared(db, plan.idColumn, plan.cls, i, plan.hops)
  }

  lemma SoleRowsAreUnshared(db: Database, plan: Plan)
    requires plan.cls in db.classes && LeavesSoleRows(db, plan)
    ensures UnsharedRows(db, plan)
  {
    forall i: nat | i < |RowIds(db, plan.cls, plan.idColumn)|
      ensures Unshared(db, plan.idColumn, plan.cls, i, plan.hops)
    {
      assert SoleChainsFrom(db, plan.idColumn, plan.cls, i, plan.hops);
      SoleChainsAreUnshared(db, plan.idColumn, plan.cls, i, plan.hops);
    }
  }

  lemma UnsharedRowsAreSole(db: Database, plan: Plan)
    requires plan.cls in db.classes && UnsharedRows(db, plan)
    ensures LeavesSoleRows(db, plan)
  {
    forall rows | IsChain(db, plan.idColumn, plan.cls, plan.hops, rows)
      ensures SoleAlong(db, plan.idColumn, plan.cls, plan.hops, rows)
    {
      assert Unshared(db, plan.idColumn, plan.cls, rows[0], plan.hops);
      UnsharedChain(db, plan.idColumn, plan.cls, plan.hops, rows);
    }
  }

  lemma UnsharedIffSoleRows(db: Database, plan: Plan)
    requires plan.cls in db.classes
    ensures UnsharedRows(db, plan) <==> LeavesSoleRows(db, plan)
  {
    if LeavesSoleRows(db, plan) {
      SoleRowsAreUnshared(db, plan);
    }
    if UnsharedRows(db, plan) {
      UnsharedRowsAreSole(db, plan);
    }
  }

  lemma TotalsCompared(db: Database, plan: Plan, f: map<string, Value> -> multiset<Binding>,
                       g: map<string, Value> -> multiset<Binding>)
    requires plan.cls in db.classes
    requires forall i: nat :: i < |db.classes[plan.cls].rows| ==> RowCompared(db, plan, f, g, i)
    ensures Each(db.classes[plan.cls].rows, g) <= Each(db.classes[plan.cls].rows, f)
    ensures Each(db.classes[plan.cls].rows, f) == Each(db.classes[plan.cls].rows, g) <==> UnsharedRows(db, plan)
  {
    var rows := db.classes[plan.cls].rows;
    forall i | 0 <= i < |rows|
      ensures g(rows[i]) <= f(rows[i])
      ensures f(rows[i]) == g(rows[i]) <==> Unshared(db, plan.idColumn, plan.cls, i, plan.hops)
    {
      assert RowCompared(db, plan, f, g, i);
    }
    EachDominates(rows, f, g);
  }

  /** Row by row, the compiled form emits at least the matches, and exactly them from the unshared rows. */
  lemma ExactIffUnsharedRows(db: Database, plan: Plan)
    requires ValidStore(db, plan.cls, plan.idColumn) && ValidHops(db, plan.hops, plan.idColumn)
    ensures Matching(db, plan) <= SeededMatching(db, plan)
    ensures SeededMatching(db, plan) == Matching(db, plan) <==> UnsharedRows(db, plan)
  {
    var f, g := FromFirst(db, plan), MatchesFrom(db, plan);
    forall i: nat | i < |db.classes[plan.cls].rows|
      ensures RowCompared(db, plan, f, g, i)
    {
      HeadCompared(db, plan, f, g, i);
    }
    TotalsCompared(db, plan, f, g);
    TotalsAre(db, plan, f, g);
  }

  ghost predicate RowCompared(db: Database, plan: Plan, f: map<string, Value> -> multiset<Binding>,
                              g: map<string, Value> -> multiset<Binding>, i: nat)
    requires plan.cls in db.classes && i < |db.classes[plan.cls].rows|
  {
    Compared(f(db.classes[plan.cls].rows[i]), g(db.classes[plan.cls].rows[i]),
             Unshared(db, plan.idColumn, plan.cls, i, plan.hops), Continues(db, plan.idColumn, plan.cls, i, plan.hops))
  }

  lemma HeadCompared(db: Database, plan: Plan, f: map<string, Value> -> multiset<Binding>,
                     g: map<string, Value> -> multiset<Binding>, i: nat)
    requires ValidStore(db, plan.cls, plan.idColumn) && ValidHops(db, plan.hops, plan.idColumn)
      && i < |db.classes[plan.cls].rows|
    requires f == FromFirst(db, plan) && g == MatchesFrom(db, plan)
    ensures RowCompared(db, plan, f, g, i)
  {
    var row := db.classes[plan.cls].rows[i];
    FromFirstAt(db, plan, row);
    MatchesFromAt(db, plan, row);
    CompareHead(db, plan, i);
    RowComparedIs(db, plan, f, g, i, f(row), g(row));
  }

  lemma RowComparedIs(db: Database, plan: Plan, f: map<string, Value> -> multiset<Binding>,
                      g: map<string, Value> -> multiset<Binding>,
                      i: nat, seeded: multiset<Binding>, exact: multiset<Binding>)
    requires plan.cls in db.classes && i < |db.classes[plan.cls].rows|
    requires f(db.classes[plan.cls].rows[i]) == seeded && g(db.classes[plan.cls].rows[i]) == exact
    requires Compared(seeded, exact, Unshared(db, plan.idColumn, plan.cls, i, plan.hops),
      Continues(db, plan.idColumn, plan.cls, i, plan.hops))
    ensures RowCompared(db, plan, f, g, i)
  {
  }

  lemma FromFirstAt(db: Database, plan: Plan, row: map<string, Value>)
    requires ValidStore(db, plan.cls, plan.idColumn) && ValidHops(db, plan.hops, plan.idColumn)
    ensures FromFirst(db, plan)(row) == SeededExtend(db, plan, Bind(db, plan, plan.alias, plan.cls, row), plan.alias,
      plan.cls, plan.hops)
  {
  }

  lemma MatchesFromAt(db: Database, plan: Plan, row: map<string, Value>)
    requires ValidStore(db, plan.cls, plan.idColumn) && ValidHops(db, plan.hops, plan.idColumn)
    ensures MatchesFrom(db, plan)(row) == Extend(db, plan, Bind(db, plan, plan.alias, plan.cls, row), plan.alias,
      plan.hops)
  {
  }

  lemma TotalsAre(db: Database, plan: Plan, f: map<string, Value> -> multiset<Binding>,
                  g: map<string, Value> -> multiset<Binding>)
    requires ValidStore(db, plan.cls, plan.idColumn) && ValidHops(db, plan.hops, plan.idColumn)
    requires f == FromFirst(db, plan) && g == MatchesFrom(db, plan)
    ensures SeededMatching(db, plan) == Each(db.classes[plan.cls].rows, f)
    ensures Matching(db, plan) == Each(db.classes[plan.cls].rows, g)
  {
  }

  /**
    The compiled form counts at least every match, and it counts exactly the
    matches if and only if no match leaves a row, through a hop, that shares its
    id with another row of its class.
    */
  lemma ExactIffSoleRows(db: Database, plan: Plan)
    requires ValidStore(db, plan.cls, plan.idColumn) && ValidHops(db, plan.hops, plan.idColumn)
    ensures Matching(db, plan) <= SeededMatching(db, plan)
    ensures SeededMatching(db, plan) == Matching(db, plan) <==> LeavesSoleRows(db, plan)
  {
    ExactIffUnsharedRows(db, plan);
    UnsharedIffSoleRows(db, plan);
  }

  // ---------------------------------------------------------------- unique ids

  ghost predicate UniqueIds(db: Database, cls: string, id: string) {
    cls in db.classes && Distinct(RowIds(db, cls, id))
  }

  /** Ids are unique in every class that the pattern leaves through a hop: all but the last. */
  ghost predicate UniqueBeforeLast(db: Database, id: string, cls: string, hops: seq<Hop>)
    decreases |hops|
  {
    hops != [] ==> UniqueIds(db, cls, id) && UniqueBeforeLast(db, id, hops[0].cls, hops[1..])
  }

  lemma {:induction false} UniqueIsSole(db: Database, id: string, cls: string, hops: seq<Hop>, rows: seq<nat>)
    requires UniqueBeforeLast(db, id, cls, hops) && IsChain(db, id, cls, hops, rows)
    ensures SoleAlong(db, id, cls, hops, rows)
    decreases |hops|
  {
    if hops != [] {
      UniqueIsSole(db, id, hops[0].cls, hops[1..], rows[1..]);
    }
  }

  /** With unique join ids in all classes but the last, the meaning of the joins is nested-loop matching. */
  lemma UniqueIdsMatch(db: Database, plan: Plan)
    requires ValidStore(db, plan.cls, plan.idColumn) && ValidHops(db, plan.hops, plan.idColumn)
    requires UniqueBeforeLast(db, plan.idColumn, plan.cls, plan.hops)
    ensures SeededMatching(db, plan) == Matching(db, plan)
  {
    UniqueLeavesSoleRows(db, plan);
    ExactIffSoleRows(db, plan);
  }

  lemma UniqueLeavesSoleRows(db: Database, plan: Plan)
    requires UniqueBeforeLast(db, plan.idColumn, plan.cls, plan.hops)
    ensures LeavesSoleRows(db, plan)
  {
    forall rows | IsChain(db, plan.idColumn, plan.cls, plan.hops, rows)
      ensures SoleAlong(db, plan.idColumn, plan.cls, plan.hops, rows)
    {
      UniqueIsSole(db, plan.idColumn, plan.cls, plan.hops, rows);
    }
  }

  // ---------------------------------------------------------------- an input that is overcounted

  /** Two people stored under one id, one edge to one place. */
  function SharedIdDatabase(): Database {
    var person := map["id" := Num(0)];
    Database(map["Person" := Store(["id"], [person, person]), "Place" := Store(["id"], [map["id" := Num(1)]])],
             map["livesIn" := EdgeTable([0], [1])], 2)
  }

  function LivesIn(): Plan {
    Plan("a", "Person", [Hop("b", "Place", ["livesIn"], Out)], map[], "id")
  }

  lemma SharedIdIsValid()
    ensures ValidStore(SharedIdDatabase(), "Person", "id") && ValidHops(SharedIdDatabase(), LivesIn().hops, "id")
    ensures RowIds(SharedIdDatabase(), "Person", "id") == [0, 0] && RowIds(SharedIdDatabase(), "Place", "id") == [1]
    ensures Adjacent(SharedIdDatabase(), ["livesIn"], Out, 0) == [1]
  {
    var db := SharedIdDatabase();
    assert ValidStore(db, "Place", "id");
    assert ValidRelation(db, "livesIn");
    assert ["livesIn"][..0] == [] && [0][..0] == [];
    assert Outgoing([0], [1], 0) == Outgoing([], [], 0) + [1];
    assert Adjacent(db, [], Out, 0) == [];
    assert AdjacentBy(db.relations["livesIn"], Out, 0) == [1];
  }

  lemma SharedIdIsLeft(db: Database, plan: Plan)
    requires db == SharedIdDatabase() && plan == LivesIn()
    ensures !LeavesSoleRows(db, plan)
  {
    SharedIdIsChain(db, plan);
    SharedIdIsNotSole(db);
    assert !SoleAlong(db, "id", "Person", plan.hops, [0, 0]);
  }

  lemma SharedIdIsChain(db: Database, plan: Plan)
    requires db == SharedIdDatabase() && plan == LivesIn()
    ensures IsChain(db, "id", "Person", plan.hops, [0, 0])
  {
    SharedIdIsValid();
    assert plan.hops[1..] == [] && [0, 0][1..] == [0];
    assert ValidHop(db, plan.hops[0], "id");
    assert LeadsOn(db, "id", "Person", 0, plan.hops[0], 0);
    assert IsChain(db, "id", "Place", [], [0]);
  }

  lemma SharedIdIsNotSole(db: Database)
    requires db == SharedIdDatabase()
    ensures !Sole(db, "id", "Person", 0)
  {
    SharedIdIsValid();
    assert RowIds(db, "Person", "id")[1] == RowIds(db, "Person", "id")[0];
  }

  /** There the compiled pattern does not yield the matches. */
  lemma SharedIdIsOvercounted(db: Database, plan: Plan)
    requires db == SharedIdDatabase() && plan == LivesIn()
    ensures ValidStore(db, plan.cls, plan.idColumn) && ValidHops(db, plan.hops, plan.idColumn)
    ensures SeededMatching(db, plan) != Matching(db, plan)
  {
    SharedIdIsValid();
    SharedIdIsLeft(db, plan);
    ExactIffSoleRows(db, plan);
  }
}
