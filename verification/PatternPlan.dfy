/** What a compiled pattern computes, hop by hop (api.py). */
module PatternPlan {
  import opened Results
  import opened Walks
  import opened Seqs
  import opened Bags
  import opened Names
  import opened Operators
  import opened HopAlgebra
  import opened CsrBuilder
  import opened CsrReader
  import opened Pattern

  // ---------------------------------------------------------------- expansion pairs

  function Tagged(s: nat, ds: seq<nat>): (r: seq<(nat, nat)>)
    ensures |r| == |ds| && forall i :: 0 <= i < |r| ==> r[i] == (s, ds[i])
  {
    seq(|ds|, i requires 0 <= i < |ds| => (s, ds[i]))
  }

  /** Every seed with every edge that leaves it. */
  function FanPairs(src: seq<nat>, dst: seq<nat>, seeds: seq<nat>): seq<(nat, nat)>
    requires |src| == |dst|
  {
    if seeds == [] then []
    else
      var n := |seeds| - 1;
      FanPairs(src, dst, seeds[..n]) + Tagged(seeds[n], Outgoing(src, dst, seeds[n]))
  }

  function PairsBy(table: EdgeTable, direction: Direction, seeds: seq<nat>): seq<(nat, nat)>
    requires |table.src| == |table.dst|
  {
    (if direction != In then FanPairs(table.src, table.dst, seeds) else []) +
    (if direction != Out then FanPairs(table.dst, table.src, seeds) else [])
  }

  function UnionPairs(db: Database, relations: seq<string>, direction: Direction, seeds: seq<nat>): seq<(nat, nat)>
    requires forall j :: 0 <= j < |relations| ==> ValidRelation(db, relations[j])
  {
    if relations == [] then []
    else
      var n := |relations| - 1;
      assert ValidRelation(db, relations[n]);
      UnionPairs(db, relations[..n], direction, seeds) + PairsBy(db.relations[relations[n]], direction, seeds)
  }

  /** Emission restricted to one source id. */
  ghost function From<B>(k: nat, emit: nat -> multiset<B>): ((nat, nat)) -> multiset<B> {
    (e: (nat, nat)) => if e.0 == k then emit(e.1) else multiset{}
  }

  /** One emission per seed equal to `k`. */
  ghost function PerSeed<B>(k: nat, bag: multiset<B>): nat -> multiset<B> {
    (s: nat) => if s == k then bag else multiset{}
  }

  lemma EachTagged<B>(s: nat, ds: seq<nat>, k: nat, emit: nat -> multiset<B>)
    ensures Each(Tagged(s, ds), From(k, emit)) == if s == k then Each(ds, emit) else multiset{}
  {
    if s == k {
      EachMapped(Tagged(s, ds), ds, From(k, emit), emit);
    } else {
      EachNothing(Tagged(s, ds), From(k, emit));
    }
  }

  lemma {:induction false} EachFan<B>(src: seq<nat>, dst: seq<nat>, seeds: seq<nat>, k: nat, emit: nat -> multiset<B>)
    requires |src| == |dst|
    ensures Each(FanPairs(src, dst, seeds), From(k, emit)) == Each(seeds, PerSeed(k, Each(Outgoing(src, dst, k), emit)))
    decreases |seeds|
  {
    if seeds != [] {
      var n := |seeds| - 1;
      EachFan(src, dst, seeds[..n], k, emit);
      EachConcat(FanPairs(src, dst, seeds[..n]), Tagged(seeds[n], Outgoing(src, dst, seeds[n])), From(k, emit));
      EachTagged(seeds[n], Outgoing(src, dst, seeds[n]), k, emit);
    }
  }

  lemma EachPerSeedPlus<B>(seeds: seq<nat>, k: nat, a: multiset<B>, b: multiset<B>)
    ensures Each(seeds, PerSeed(k, a + b)) == Each(seeds, PerSeed(k, a)) + Each(seeds, PerSeed(k, b))
  {
    EachPlus(seeds, PerSeed(k, a), PerSeed(k, b), PerSeed(k, a + b));
  }

  lemma EachPairs<B>(table: EdgeTable, direction: Direction, seeds: seq<nat>, k: nat, emit: nat -> multiset<B>)
    requires |table.src| == |table.dst|
    ensures Each(PairsBy(table, direction, seeds), From(k, emit))
      == Each(seeds, PerSeed(k, Each(AdjacentBy(table, direction, k), emit)))
  {
    var fwd, rev := FanPairs(table.src, table.dst, seeds), FanPairs(table.dst, table.src, seeds);
    var out, into := Outgoing(table.src, table.dst, k), Outgoing(table.dst, table.src, k);
    EachFan(table.src, table.dst, seeds, k, emit);
    EachFan(table.dst, table.src, seeds, k, emit);
    match direction
    case Out =>
      assert PairsBy(table, direction, seeds) == fwd && AdjacentBy(table, direction, k) == out;
    case In =>
      assert PairsBy(table, direction, seeds) == rev && AdjacentBy(table, direction, k) == into;
    case Both =>
      EachConcat(fwd, rev, From(k, emit));
      EachConcat(out, into, emit);
      EachPerSeedPlus(seeds, k, Each(out, emit), Each(into, emit));
  }

  /** The union of the expansions, seen from one source id: its adjacency once per seed that carries it. */
  lemma {:induction false} EachUnion<B>(db: Database, relations: seq<string>, direction: Direction, seeds: seq<nat>,
                                        k: nat, emit: nat -> multiset<B>)
    requires forall j :: 0 <= j < |relations| ==> ValidRelation(db, relations[j])
    ensures Each(UnionPairs(db, relations, direction, seeds), From(k, emit))
         == Each(seeds, PerSeed(k, Each(Adjacent(db, relations, direction, k), emit)))
    decreases |relations|
  {
    if relations == [] {
      EachNothing(seeds, PerSeed<B>(k, multiset{}));
    } else {
      var n := |relations| - 1;
      assert ValidRelation(db, relations[n]);
      var table := db.relations[relations[n]];
      EachUnion(db, relations[..n], direction, seeds, k, emit);
      EachPairs(table, direction, seeds, k, emit);
      EachConcat(UnionPairs(db, relations[..n], direction, seeds), PairsBy(table, direction, seeds), From(k, emit));
      var before, here := Adjacent(db, relations[..n], direction, k), AdjacentBy(table, direction, k);
      EachConcat(before, here, emit);
      EachPerSeedPlus(seeds, k, Each(before, emit), Each(here, emit));
    }
  }

  // ---------------------------------------------------------------- rows by name across a hop

  lemma RowMeaningAt(names: seq<string>, p: Row, tnames: seq<string>, t: Row, tp: nat, x: string)
    requires |names| == |p| && |tnames| == |t| && tp < |t| && Distinct(names) && Distinct(tnames)
    requires Distinct(HopNames(names, tnames, tp)) && |HopNames(names, tnames, tp)| == |HopRow(p, t, tp)|
    ensures var whole := ToMap(HopNames(names, tnames, tp), HopRow(p, t, tp));
      && (x in names ==> x in whole && x in ToMap(names, p) && whole[x] == ToMap(names, p)[x])
      && (x in tnames ==> x in whole && x in ToMap(tnames, t) && whole[x] == ToMap(tnames, t)[x])
  {
    var out, row := HopNames(names, tnames, tp), HopRow(p, t, tp);
    HopPosition(names, p, tnames, t, tp, x);
    if x in names {
      var i :| 0 <= i < |names| && names[i] == x;
      ToMapFind(names, p, i);
      ToMapFind(out, row, i);
    }
    if x in tnames {
      var i, j :| 0 <= i < |out| && 0 <= j < |t| && out[i] == x == tnames[j] && row[i] == t[j];
      ToMapFind(tnames, t, j);
      ToMapFind(out, row, i);
    }
  }

  lemma RowMeaning(names: seq<string>, p: Row, tnames: seq<string>, t: Row, tp: nat)
    requires |names| == |p| && |tnames| == |t| && tp < |t| && Distinct(names) && Distinct(tnames)
    requires forall x :: x in tnames ==> x !in names
    ensures |HopNames(names, tnames, tp)| == |HopRow(p, t, tp)|
    ensures ToMap(HopNames(names, tnames, tp), HopRow(p, t, tp)) == ToMap(names, p) + ToMap(tnames, t)
  {
    var out, row := HopNames(names, tnames, tp), HopRow(p, t, tp);
    HopNamesDistinct(names, tnames, tp);
    ToMapKeys(names, p);
    ToMapKeys(tnames, t);
    ToMapKeys(out, row);
    forall x
      ensures x in out <==> x in names || x in tnames
    {
      HopPosition(names, p, tnames, t, tp, x);
    }
    assert ToMap(out, row).Keys == ToMap(names, p).Keys + ToMap(tnames, t).Keys;
    forall x | x in ToMap(out, row)
      ensures ToMap(out, row)[x] == (ToMap(names, p) + ToMap(tnames, t))[x]
    {
      RowMeaningAt(names, p, tnames, t, tp, x);
    }
  }

  function HopRow(p: Row, t: Row, tp: nat): Row
    requires tp < |t|
  {
    p + [t[tp]] + Without(t, tp)
  }

  /** Every output column is a bound column or a target column, at a known position. */
  lemma HopPosition(names: seq<string>, p: Row, tnames: seq<string>, t: Row, tp: nat, x: string)
    requires |names| == |p| && |tnames| == |t| && tp < |t| && Distinct(names) && Distinct(tnames)
    ensures x in HopNames(names, tnames, tp) <==> x in names || x in tnames
    ensures forall i :: 0 <= i < |names| ==> HopNames(names, tnames, tp)[i] == names[i] && HopRow(p, t, tp)[i] == p[i]
    ensures x in tnames ==> exists i, j :: 0 <= i < |HopNames(names, tnames, tp)| && 0 <= j < |t|
                              && HopNames(names, tnames, tp)[i] == x == tnames[j] && HopRow(p, t, tp)[i] == t[j]
  {
    var out, w := HopNames(names, tnames, tp), |names|;
    assert tnames == tnames[..tp] + [tnames[tp]] + tnames[tp + 1..];
    if x in tnames {
      var j :| 0 <= j < |t| && tnames[j] == x;
      var i := if j == tp then w else if j < tp then w + 1 + j else w + j;
      assert out[i] == x && HopRow(p, t, tp)[i] == t[j];
    }
  }

  lemma HopNamesDistinct(names: seq<string>, tnames: seq<string>, tp: nat)
    requires tp < |tnames| && Distinct(names) && Distinct(tnames)
    requires forall x :: x in tnames ==> x !in names
    ensures Distinct(HopNames(names, tnames, tp))
  {
    var out, w := HopNames(names, tnames, tp), |names|;
    forall i, j | 0 <= i < j < |out|
      ensures out[i] != out[j]
    {
      if i < w && j >= w {
        assert out[i] in names;
        assert out[j] == tnames[Source(j - w, tp)];
        assert out[j] in tnames;
      } else if i >= w {
        assert out[i] == tnames[Source(i - w, tp)] && out[j] == tnames[Source(j - w, tp)];
      }
    }
  }

  /** Where a column after the bound ones comes from in the target scan. */
  function Source(j: nat, tp: nat): nat {
    if j == 0 then tp else if j - 1 < tp then j - 1 else j
  }

  function HopNames(names: seq<string>, tnames: seq<string>, tp: nat): seq<string>
    requires tp < |tnames|
  {
    names + [tnames[tp]] + tnames[..tp] + tnames[tp + 1..]
  }

  // ---------------------------------------------------------------- the meaning of one hop

  function SeedIds(rows: seq<map<string, Value>>, id: string): (r: seq<nat>)
    ensures |r| == |rows|
    ensures forall i :: 0 <= i < |r| ==>
      r[i] == if CurrentIdOf(rows[i], id).Num? && CurrentIdOf(rows[i], id).n >= 0 then CurrentIdOf(rows[i], id).n else 0
  {
    seq(|rows|, i requires 0 <= i < |rows| =>
      if CurrentIdOf(rows[i], id).Num? && CurrentIdOf(rows[i], id).n >= 0 then CurrentIdOf(rows[i], id).n else 0)
  }

  /** The matches through one far end, continued by `more`. */
  ghost function StepTo<B>(db: Database, plan: Plan, b: Binding, hop: Hop, more: Binding -> multiset<B>,
                           v: nat): multiset<B>
    requires ValidStore(db, hop.cls, plan.idColumn)
  {
    Each(db.classes[hop.cls].rows, r =>
      if CurrentIdOf(r, plan.idColumn) == Num(v) then more(b + Bind(db, plan, hop.alias, hop.cls, r)) else multiset{})
  }

  ghost predicate ValidHop(db: Database, hop: Hop, id: string) {
    && ValidStore(db, hop.cls, id)
    && forall j :: 0 <= j < |hop.relations| ==> ValidRelation(db, hop.relations[j])
  }

  /** One hop of nested-loop matching, continued by `more`. */
  ghost function Step<B>(db: Database, plan: Plan, b: Binding, alias: string, hop: Hop,
                         more: Binding -> multiset<B>): multiset<B>
    requires ValidHop(db, hop, plan.idColumn)
  {
    Each(AdjacentTo(db, hop, CurrentId(b, alias, plan.idColumn)), v => StepTo(db, plan, b, hop, more, v))
  }

  /** `bag` once for every seed whose id is the current one. */
  ghost function Seeded<B>(seeds: seq<nat>, current: Value, bag: multiset<B>): multiset<B> {
    if current.Num? && current.n >= 0 then Each(seeds, PerSeed(current.n, bag)) else multiset{}
  }

  /** Everything the hop's operators are given, and how their columns line up. */
  ghost predicate HopSetting(db: Database, plan: Plan, alias: string, hop: Hop, names: seq<string>, kp: nat, tp: nat) {
    && ValidHop(db, hop, plan.idColumn)
    && Distinct(names) && kp < |names| && names[kp] == Qualified(alias, plan.idColumn)
    && var tnames := Scan(db, plan, hop.alias, hop.cls).names;
       && Distinct(tnames) && tp < |tnames| && tnames[tp] == Qualified(hop.alias, plan.idColumn)
       && forall x :: x in tnames ==> x !in names
  }

  /** The continuation, read off a positional row. */
  ghost function ByName<B>(names: seq<string>, more: Binding -> multiset<B>): Row -> multiset<B> {
    (row: Row) => if |row| == |names| then more(ToMap(names, row)) else multiset{}
  }

  lemma ScanKey(db: Database, plan: Plan, alias: string, cls: string, tp: nat, row: map<string, Value>)
    requires ValidStore(db, cls, plan.idColumn)
    requires Distinct(Scan(db, plan, alias, cls).names) && tp < |Scan(db, plan, alias, cls).names|
    requires Scan(db, plan, alias, cls).names[tp] == Qualified(alias, plan.idColumn)
    ensures ScanRow(row, ScanColumns(db, plan, alias, cls))[tp] == CurrentIdOf(row, plan.idColumn)
  {
    var columns := ScanColumns(db, plan, alias, cls);
    var i :| 0 <= i < |columns| && columns[i] == plan.idColumn;
    assert QualifiedAll(alias, columns)[i] == QualifiedAll(alias, columns)[tp];
  }

  /** One bound row, one edge that leaves it, one target row. */
  lemma HitMeaning<B>(db: Database, plan: Plan, alias: string, hop: Hop, names: seq<string>, kp: nat, tp: nat,
                      p: Row, e: (nat, nat), r: map<string, Value>, more: Binding -> multiset<B>)
    requires HopSetting(db, plan, alias, hop, names, kp, tp) && |p| == |names| && p[kp] == Num(e.0)
    ensures var columns := ScanColumns(db, plan, hop.alias, hop.cls);
            var f := ByName(HopNames(names, QualifiedAll(hop.alias, columns), tp), more);
            Hit(p, e, ScanRow(r, columns), kp, tp, f)
            == if CurrentIdOf(r, plan.idColumn) == Num(e.1)
                then more(ToMap(names, p) + Bind(db, plan, hop.alias, hop.cls, r)) else multiset{}
  {
    var columns := ScanColumns(db, plan, hop.alias, hop.cls);
    var tnames, t := QualifiedAll(hop.alias, columns), ScanRow(r, columns);
    ScanKey(db, plan, hop.alias, hop.cls, tp, r);
    RowMeaning(names, p, tnames, t, tp);
    assert Num(e.1) == t[tp] ==> p + [Num(e.1)] + Without(t, tp) == HopRow(p, t, tp);
  }

  /** All target rows, for one bound row and one edge. */
  lemma TargetsOfEdge<B>(db: Database, plan: Plan, alias: string, hop: Hop, names: seq<string>, kp: nat, tp: nat,
                         p: Row, e: (nat, nat), more: Binding -> multiset<B>)
    requires HopSetting(db, plan, alias, hop, names, kp, tp) && |p| == |names|
    ensures var target := Scan(db, plan, hop.alias, hop.cls);
            var f := ByName(HopNames(names, target.names, tp), more);
            Tip(target.rows, Hits(kp, tp, f), e, p)
            == if p[kp] == Num(e.0) then StepTo(db, plan, ToMap(names, p), hop, more, e.1) else multiset{}
  {
    var target := Scan(db, plan, hop.alias, hop.cls);
    var f := ByName(HopNames(names, target.names, tp), more);
    var h := Hits(kp, tp, f);
    var hit := (t: Row) => h(t, e, p);
    TipIs(target.rows, h, e, p, hit);
    if p[kp] == Num(e.0) {
      var rows := db.classes[hop.cls].rows;
      var g := (r: map<string, Value>) =>
        if CurrentIdOf(r, plan.idColumn) == Num(e.1)
            then more(ToMap(names, p) + Bind(db, plan, hop.alias, hop.cls, r)) else multiset{};
      forall j | 0 <= j < |rows|
        ensures hit(target.rows[j]) == g(rows[j])
      {
        HitMeaning(db, plan, alias, hop, names, kp, tp, p, e, rows[j], more);
      }
      EachMapped(target.rows, rows, hit, g);
    } else {
      EachNothing(target.rows, hit);
    }
  }

  /** One bound row through the joins: nested-loop matching, once per seed that shares its id. */
  lemma BoundMeaning<B>(db: Database, plan: Plan, alias: string, hop: Hop, names: seq<string>, kp: nat, tp: nat,
                        seeds: seq<nat>, p: Row, more: Binding -> multiset<B>)
    requires HopSetting(db, plan, alias, hop, names, kp, tp) && |p| == |names|
    ensures var target := Scan(db, plan, hop.alias, hop.cls);
            var f := ByName(HopNames(names, target.names, tp), more);
            Outer(UnionPairs(db, hop.relations, hop.direction, seeds), target.rows, Hits(kp, tp, f), p)
            == Seeded(seeds, p[kp], Step(db, plan, ToMap(names, p), alias, hop, more))
  {
    var target := Scan(db, plan, hop.alias, hop.cls);
    var f := ByName(HopNames(names, target.names, tp), more);
    var h := Hits(kp, tp, f);
    var edges := UnionPairs(db, hop.relations, hop.direction, seeds);
    var tip := (e: (nat, nat)) => Tip(target.rows, h, e, p);
    OuterIs(edges, target.rows, h, p, tip);
    forall j | 0 <= j < |edges|
      ensures tip(edges[j]) == if p[kp] == Num(edges[j].0)
        then StepTo(db, plan, ToMap(names, p), hop, more, edges[j].1) else multiset{}
    {
      TargetsOfEdge(db, plan, alias, hop, names, kp, tp, p, edges[j], more);
    }
    if p[kp].Num? && p[kp].n >= 0 {
      var k: nat := p[kp].n;
      var emit := (v: nat) => StepTo(db, plan, ToMap(names, p), hop, more, v);
      EachSame(edges, tip, From(k, emit));
      EachUnion(db, hop.relations, hop.direction, seeds, k, emit);
      ToMapFind(names, p, kp);
    } else {
      EachNothing(edges, tip);
    }
  }
}
